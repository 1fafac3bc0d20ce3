/** Trigger tiers: the keyword fan-out that turns dictionary hits into the
    triggers of one priority tier, and the priority merge that flattens the
    tiers into one trigger map. Tiers are listed lowest priority first; the
    merge visits them highest first and drops a trigger when it collides
    with a span of a strictly higher tier. */
module Priority {
  import opened Wrappers
  import opened ConTexT
  import opened AnnotationIndex

  /** The triggers found by one priority's rule set. */
  type Tier = Triggers

  // ---------------------------------------------------------------------
  // Keyword fan-out

  /** A dictionary hit as the keyword matcher reports it: the keyword and
      its first and last character, both inclusive. */
  datatype Hit = Hit(keyword: string, first: int, last: int)

  /** The trigger dictionary: for each keyword, the categories it belongs
      to and, per category, its context types in iteration order. */
  type Dict = map<string, map<Category, seq<ConText>>>

  /** The triggers one hit yields in one category: a single context-less
      trigger for a pseudo keyword, otherwise one per context type. */
  function HitTriggers(h: Hit, cat: Category, ctxs: seq<ConText>): (r: seq<Trigger>)
    ensures forall t :: t in r ==> t.start == h.first && t.end == h.last + 1
    ensures cat == Pseudo ==> r == [Trigger(None, h.first, h.last + 1)]
    ensures cat != Pseudo ==> |r| == |ctxs|
    ensures cat != Pseudo ==> forall i :: 0 <= i < |r| ==> r[i].ctx == Some(ctxs[i])
  {
    if cat == Pseudo then [Trigger(None, h.first, h.last + 1)]
    else seq(|ctxs|, i requires 0 <= i < |ctxs| => Trigger(Some(ctxs[i]), h.first, h.last + 1))
  }

  /** Adds the triggers of one hit to a tier. A category gets a list as
      soon as it yields a trigger. */
  function AddHit(acc: Tier, h: Hit, entry: map<Category, seq<ConText>>): (r: Tier)
    ensures forall c :: c in r <==> c in acc || (c in entry && (c == Pseudo || |entry[c]| > 0))
    ensures forall c :: Get(r, c) == Get(acc, c) + (if c in entry then HitTriggers(h, c, entry[c]) else [])
  {
    map c | c in acc.Keys + (set c' | c' in entry && (c' == Pseudo || |entry[c']| > 0)) ::
      Get(acc, c) + (if c in entry then HitTriggers(h, c, entry[c]) else [])
  }

  /** The tier of a sentence's dictionary hits, in the order reported. */
  function FanOut(hits: seq<Hit>, dict: Dict): (r: Tier)
    requires forall h :: h in hits ==> h.keyword in dict
    decreases |hits|
  {
    if |hits| == 0 then map[]
    else
      var h := hits[|hits| - 1];
      AddHit(FanOut(hits[..|hits| - 1], dict), h, dict[h.keyword])
  }

  /** A trigger a hit yields in category c. */
  predicate Yields(h: Hit, dict: Dict, c: Category, t: Trigger)
    requires h.keyword in dict
  {
    && c in dict[h.keyword]
    && t.start == h.first && t.end == h.last + 1
    && (if c == Pseudo then t.ctx == None else t.ctx.Some? && t.ctx.value in dict[h.keyword][c])
  }

  /** Some hit of the list yields t in category c. */
  predicate YieldedBy(hits: seq<Hit>, dict: Dict, c: Category, t: Trigger)
    requires forall h :: h in hits ==> h.keyword in dict
  {
    exists h :: h in hits && Yields(h, dict, c, t)
  }

  /** The triggers of one hit in one category are exactly those it yields. */
  lemma HitTriggersMembers(h: Hit, dict: Dict, c: Category, t: Trigger)
    requires h.keyword in dict && c in dict[h.keyword]
    ensures t in HitTriggers(h, c, dict[h.keyword][c]) <==> Yields(h, dict, c, t)
  {
    var ctxs := dict[h.keyword][c];
    var r := HitTriggers(h, c, ctxs);
    if c != Pseudo {
      if Yields(h, dict, c, t) {
        var i :| 0 <= i < |ctxs| && ctxs[i] == t.ctx.value;
        assert r[i] == t;
      }
      if t in r {
        var i :| 0 <= i < |r| && r[i] == t;
        assert ctxs[i] == t.ctx.value;
      }
    }
  }

  lemma YieldedByStep(hits: seq<Hit>, dict: Dict, c: Category, t: Trigger)
    requires forall h :: h in hits ==> h.keyword in dict
    requires |hits| > 0
    ensures var h := hits[|hits| - 1];
            YieldedBy(hits, dict, c, t) <==> Yields(h, dict, c, t) || YieldedBy(hits[..|hits| - 1], dict, c, t)
  {
    var init := hits[..|hits| - 1];
    assert forall x :: x in hits <==> x in init || x == hits[|hits| - 1];
  }

  /** The fan-out yields exactly the triggers of the hits: each over the
      half-open span [first, last + 1), a pseudo hit without a context
      type, any other hit once per context type of its category. */
  lemma {:induction false} FanOutMembers(hits: seq<Hit>, dict: Dict, c: Category, t: Trigger)
    requires forall h :: h in hits ==> h.keyword in dict
    ensures t in Get(FanOut(hits, dict), c) <==> YieldedBy(hits, dict, c, t)
    decreases |hits|
  {
    if |hits| > 0 {
      var init, h := hits[..|hits| - 1], hits[|hits| - 1];
      assert forall x :: x in init ==> x in hits;
      FanOutMembers(init, dict, c, t);
      if c in dict[h.keyword] {
        HitTriggersMembers(h, dict, c, t);
      }
      YieldedByStep(hits, dict, c, t);
    }
  }

  /** A hit inside a sentence of length n yields triggers the propagation
      engine accepts in every category. */
  lemma FanOutFits(hits: seq<Hit>, dict: Dict, n: int, c: Category, t: Trigger)
    requires forall h :: h in hits ==> h.keyword in dict && 0 <= h.first <= h.last < n
    requires t in Get(FanOut(hits, dict), c)
    ensures 0 <= t.start < t.end <= n
    ensures c != Pseudo ==> t.ctx.Some?
  {
    FanOutMembers(hits, dict, c, t);
  }

  // ---------------------------------------------------------------------
  // Priority merge

  function SpanOf(t: Trigger): Span {
    Span(t.start, t.end)
  }

  /** The spans of every trigger of a tier, whatever its category. */
  function SpansOf(tier: Tier): (r: set<Span>)
    ensures forall sp :: sp in r <==> exists c, u :: c in tier && u in tier[c] && sp == SpanOf(u)
  {
    set c, u | c in tier && u in tier[c] :: SpanOf(u)
  }

  /** The priority index reports a collision for a trigger's span. */
  predicate Collides(index: set<Span>, t: Trigger) {
    exists sp :: sp in index && Matches(Collisions, sp, t.start, t.end)
  }

  /** Some trigger of the tier collides with t. */
  predicate CollidesWith(tier: Tier, t: Trigger) {
    exists c, u :: c in tier && u in tier[c] && Matches(Collisions, SpanOf(u), t.start, t.end)
  }

  /** Some tier strictly above tier i holds a trigger that collides with t. */
  predicate Suppressed(tiers: seq<Tier>, i: int, t: Trigger) {
    exists j :: 0 <= j < |tiers| && i < j && CollidesWith(tiers[j], t)
  }

  /** The triggers of a list that do not collide with the index, in order
      and with every copy kept (`RetainInOrder` gives the positions). */
  function Retain(ts: seq<Trigger>, index: set<Span>): (r: seq<Trigger>)
    ensures forall t :: t in r <==> t in ts && !Collides(index, t)
    ensures forall t :: multiset(r)[t] == if Collides(index, t) then 0 else multiset(ts)[t]
    ensures |r| <= |ts|
    decreases |ts|
  {
    if |ts| == 0 then []
    else
      var rest := Retain(ts[..|ts| - 1], index);
      var t := ts[|ts| - 1];
      assert ts == ts[..|ts| - 1] + [t];
      assert forall x :: x in ts <==> x in ts[..|ts| - 1] || x == t;
      if Collides(index, t) then rest else rest + [t]
  }

  /** The retained triggers keep the order of the tier's list. */
  lemma {:induction false} RetainInOrder(ts: seq<Trigger>, index: set<Span>) returns (idx: seq<int>)
    ensures PicksInOrder(Retain(ts, index), ts, idx)
    decreases |ts|
  {
    if |ts| == 0 {
      idx := [];
    } else {
      var n := |ts| - 1;
      var prior := RetainInOrder(ts[..n], index);
      var keep := !Collides(index, ts[n]);
      assert Retain(ts, index) == Retain(ts[..n], index) + (if keep then [ts[n]] else []);
      PicksExtend(Retain(ts[..n], index), ts, prior, keep);
      idx := if keep then prior + [n] else prior;
    }
  }

  /** Files the retained triggers of one tier after those already kept. */
  function Absorb(acc: Triggers, tier: Tier, index: set<Span>): (r: Triggers)
    ensures forall c :: c in r <==> c in acc || c in tier
    ensures forall c :: Get(r, c) == Get(acc, c) + (if c in tier then Retain(tier[c], index) else [])
  {
    map c | c in acc.Keys + tier.Keys :: Get(acc, c) + (if c in tier then Retain(tier[c], index) else [])
  }

  /** The merge loop: take the highest remaining tier, keep its triggers
      that collide with nothing in the index, then add all of its spans to
      the index. */
  function Merge(tiers: seq<Tier>, index: set<Span>, acc: Triggers): Triggers
    decreases |tiers|
  {
    if |tiers| == 0 then acc
    else
      var top := tiers[|tiers| - 1];
      Merge(tiers[..|tiers| - 1], index + SpansOf(top), Absorb(acc, top, index))
  }

  /** With two or more tiers every trigger's span goes into the priority
      index, whose span constructor throws on a negative start or on an end
      before the start. */
  predicate Indexable(tiers: seq<Tier>) {
    |tiers| > 1 ==>
      forall i, c, t :: 0 <= i < |tiers| && c in tiers[i] && t in tiers[i][c] ==> 0 <= t.start <= t.end
  }

  /** flattenByPriority: a single tier is returned as it is; otherwise the
      tiers are merged into an empty map with an empty index. */
  function Flatten(tiers: seq<Tier>): Triggers
    requires Indexable(tiers)
  {
    if |tiers| == 1 then tiers[0] else Merge(tiers, {}, map[])
  }

  /** Adding a tier's spans to the index adds exactly the collisions with
      that tier. */
  lemma CollidesGrow(index: set<Span>, tier: Tier, t: Trigger)
    ensures Collides(index + SpansOf(tier), t) <==> Collides(index, t) || CollidesWith(tier, t)
  {
    if Collides(index + SpansOf(tier), t) && !Collides(index, t) {
      var sp :| sp in index + SpansOf(tier) && Matches(Collisions, sp, t.start, t.end);
      var c, u :| c in tier && u in tier[c] && SpanOf(u) == sp;
    }
    if CollidesWith(tier, t) {
      var c, u :| c in tier && u in tier[c] && Matches(Collisions, SpanOf(u), t.start, t.end);
      assert SpanOf(u) in index + SpansOf(tier);
    }
  }

  /** t belongs to some tier under c and collides neither with the index
      nor with any tier above its own. */
  predicate KeptFrom(tiers: seq<Tier>, index: set<Span>, c: Category, t: Trigger) {
    exists i :: 0 <= i < |tiers| && t in Get(tiers[i], c) && !Collides(index, t) && !Suppressed(tiers, i, t)
  }

  /** Below the top tier, being suppressed means colliding with a tier
      strictly between, or with the top tier. */
  lemma SuppressedSplit(tiers: seq<Tier>, i: int, t: Trigger)
    requires 0 <= i < |tiers| - 1
    ensures Suppressed(tiers, i, t) <==>
      Suppressed(tiers[..|tiers| - 1], i, t) || CollidesWith(tiers[|tiers| - 1], t)
  {
    var n := |tiers| - 1;
    var init := tiers[..n];
    if Suppressed(tiers, i, t) {
      var j :| 0 <= j < |tiers| && i < j && CollidesWith(tiers[j], t);
      if j < n { assert init[j] == tiers[j]; }
    }
    if Suppressed(init, i, t) {
      var j :| 0 <= j < n && i < j && CollidesWith(init[j], t);
      assert init[j] == tiers[j];
    }
  }

  /** Peeling the top tier off: t is kept from the whole list exactly when
      it is a non-colliding trigger of the top tier, or it is kept from the
      rest with the top tier's spans added to the index. */
  lemma KeptFromStep(tiers: seq<Tier>, index: set<Span>, c: Category, t: Trigger)
    requires |tiers| > 0
    ensures var n := |tiers| - 1;
            KeptFrom(tiers, index, c, t) <==>
              (t in Get(tiers[n], c) && !Collides(index, t)) ||
              KeptFrom(tiers[..n], index + SpansOf(tiers[n]), c, t)
  {
    var n := |tiers| - 1;
    var init, top := tiers[..n], tiers[n];
    CollidesGrow(index, top, t);
    if KeptFrom(tiers, index, c, t) {
      var i :| 0 <= i < |tiers| && t in Get(tiers[i], c) && !Collides(index, t) && !Suppressed(tiers, i, t);
      if i < n {
        SuppressedSplit(tiers, i, t);
        assert init[i] == tiers[i];
        assert !CollidesWith(top, t);
        assert KeptFrom(init, index + SpansOf(top), c, t);
      }
    }
    if t in Get(top, c) && !Collides(index, t) {
      assert !Suppressed(tiers, n, t);
    }
    if KeptFrom(init, index + SpansOf(top), c, t) {
      var i :| 0 <= i < n && t in Get(init[i], c) && !Collides(index + SpansOf(top), t) && !Suppressed(init, i, t);
      SuppressedSplit(tiers, i, t);
      assert init[i] == tiers[i];
    }
  }

  /** The general invariant of the merge loop: a trigger ends up filed under
      c exactly when it was already there, or it belongs to some remaining
      tier under c and collides neither with the index nor with any
      remaining tier above its own. */
  lemma {:induction false} MergeMembers(tiers: seq<Tier>, index: set<Span>, acc: Triggers, c: Category, t: Trigger)
    ensures t in Get(Merge(tiers, index, acc), c) <==> t in Get(acc, c) || KeptFrom(tiers, index, c, t)
    decreases |tiers|
  {
    if |tiers| > 0 {
      var n := |tiers| - 1;
      var top := tiers[n];
      MergeMembers(tiers[..n], index + SpansOf(top), Absorb(acc, top, index), c, t);
      KeptFromStep(tiers, index, c, t);
    }
  }

  /** A trigger survives flattening exactly when it belongs to some tier
      under that category and no trigger of a strictly higher tier collides
      with it. Triggers of the same tier never suppress each other. */
  lemma FlattenMembers(tiers: seq<Tier>, c: Category, t: Trigger)
    requires Indexable(tiers)
    ensures t in Get(Flatten(tiers), c) <==>
      exists i :: 0 <= i < |tiers| && t in Get(tiers[i], c) && !Suppressed(tiers, i, t)
  {
    if |tiers| == 1 {
      assert !Suppressed(tiers, 0, t);
    } else {
      MergeMembers(tiers, {}, map[], c, t);
      assert !Collides({}, t);
    }
  }

  /** The merge only appends to the lists already kept. */
  lemma {:induction false} MergeExtends(tiers: seq<Tier>, index: set<Span>, acc: Triggers, c: Category)
    ensures Get(acc, c) <= Get(Merge(tiers, index, acc), c)
    decreases |tiers|
  {
    if |tiers| > 0 {
      var top := tiers[|tiers| - 1];
      MergeExtends(tiers[..|tiers| - 1], index + SpansOf(top), Absorb(acc, top, index), c);
    }
  }

  /** The top tier survives whole and in order: its list for each category
      is a prefix of the flattened list. */
  lemma TopTierSurvives(tiers: seq<Tier>, c: Category)
    requires |tiers| > 0 && Indexable(tiers)
    ensures Get(tiers[|tiers| - 1], c) <= Get(Flatten(tiers), c)
  {
    if |tiers| > 1 {
      var n := |tiers| - 1;
      var top := tiers[n];
      var acc := Absorb(map[], top, {});
      TopTierFirst(top, c);
      assert Flatten(tiers) == Merge(tiers[..n], {} + SpansOf(top), acc);
      MergeExtends(tiers[..n], {} + SpansOf(top), acc, c);
    }
  }

  /** The first merge step files the top tier as it is. */
  lemma TopTierFirst(top: Tier, c: Category)
    ensures Get(Absorb(map[], top, {}), c) == Get(top, c)
  {
    var empty: Triggers := map[];
    assert Get(empty, c) == [];
    assert Get(Absorb(empty, top, {}), c) == [] + (if c in top then Retain(top[c], {}) else []);
    if c in top {
      RetainNothing(top[c]);
      assert Get(top, c) == top[c];
    }
  }

  lemma {:induction false} RetainNothing(ts: seq<Trigger>)
    ensures Retain(ts, {}) == ts
    decreases |ts|
  {
    if |ts| > 0 {
      var n := |ts| - 1;
      RetainNothing(ts[..n]);
      assert !Collides({}, ts[n]);
      assert Retain(ts, {}) == Retain(ts[..n], {}) + [ts[n]];
      assert ts[..n] + [ts[n]] == ts;
    }
  }

  /** Some tier files triggers under c. */
  predicate HasKey(tiers: seq<Tier>, c: Category) {
    exists i :: 0 <= i < |tiers| && c in tiers[i]
  }

  lemma HasKeyStep(tiers: seq<Tier>, c: Category)
    requires |tiers| > 0
    ensures HasKey(tiers, c) <==> c in tiers[|tiers| - 1] || HasKey(tiers[..|tiers| - 1], c)
  {
    var n := |tiers| - 1;
    if HasKey(tiers, c) {
      var i :| 0 <= i < |tiers| && c in tiers[i];
      if i < n { assert tiers[..n][i] == tiers[i]; }
    }
    if HasKey(tiers[..n], c) {
      var i :| 0 <= i < n && c in tiers[..n][i];
      assert tiers[..n][i] == tiers[i];
    }
  }

  /** The merge keeps a category exactly when it was already there or some
      remaining tier has it, even when none of its triggers survive. */
  lemma {:induction false} MergeKeys(tiers: seq<Tier>, index: set<Span>, acc: Triggers, c: Category)
    ensures c in Merge(tiers, index, acc) <==> c in acc || HasKey(tiers, c)
    decreases |tiers|
  {
    if |tiers| > 0 {
      var n := |tiers| - 1;
      var top := tiers[n];
      MergeKeys(tiers[..n], index + SpansOf(top), Absorb(acc, top, index), c);
      HasKeyStep(tiers, c);
    }
  }

  /** Flattening keeps a category exactly when some tier has it. */
  lemma FlattenKeys(tiers: seq<Tier>, c: Category)
    requires Indexable(tiers)
    ensures c in Flatten(tiers) <==> HasKey(tiers, c)
  {
    if |tiers| != 1 {
      MergeKeys(tiers, {}, map[], c);
    }
  }

  // ---------------------------------------------------------------------
  // The collision test at a shared boundary is not symmetric

  const Lower: Trigger := Trigger(Some(Negated), 0, 5)
  const Upper: Trigger := Trigger(Some(Negated), 5, 8)

  /** A lower-tier [0, 5) is dropped when a higher tier holds [5, 8): the
      collision test counts a span starting at the query end. */
  lemma BoundaryCollisionSuppresses()
    ensures Lower !in Get(Flatten([map[StartRight := [Lower]], map[StartRight := [Upper]]]), StartRight)
    ensures Upper in Get(Flatten([map[StartRight := [Lower]], map[StartRight := [Upper]]]), StartRight)
  {
    var tiers := [map[StartRight := [Lower]], map[StartRight := [Upper]]];
    FlattenMembers(tiers, StartRight, Lower);
    FlattenMembers(tiers, StartRight, Upper);
    assert StartRight in tiers[1] && Upper in tiers[1][StartRight];
    assert Matches(Collisions, SpanOf(Upper), Lower.start, Lower.end);
    assert CollidesWith(tiers[1], Lower);
    assert !Suppressed(tiers, 1, Upper);
  }

  /** The reverse does not hold: a lower-tier [5, 8) survives a higher-tier
      [0, 5), as a span ending at the query start does not collide. */
  lemma BoundaryCollisionOneWay()
    ensures Upper in Get(Flatten([map[StartRight := [Upper]], map[StartRight := [Lower]]]), StartRight)
    ensures Lower in Get(Flatten([map[StartRight := [Upper]], map[StartRight := [Lower]]]), StartRight)
  {
    var tiers := [map[StartRight := [Upper]], map[StartRight := [Lower]]];
    FlattenMembers(tiers, StartRight, Lower);
    FlattenMembers(tiers, StartRight, Upper);
    assert Upper in tiers[0][StartRight] && Lower in tiers[1][StartRight];
    assert !CollidesWith(tiers[1], Upper);
    assert !Suppressed(tiers, 0, Upper);
    assert !Suppressed(tiers, 1, Lower);
  }
}
