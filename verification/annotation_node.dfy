/** An inner node of the annotation index: a split point and two children.
    A span is routed to the left child when it starts at or before the split
    and to the right child when it ends after it, so a span that crosses the
    split is stored on both sides; queries visit the children the same way
    and drop repeated spans. The main theorem (`TreeAgreesWithLeaf`) is that,
    for any history of inserts, removes and queries, a tree answers every
    query with exactly the spans a single flat leaf would return. */
module AnnotationNode {
  import opened AnnotationIndex
  import AnnotationLeaf

  datatype Index = Leaf(leaf: AnnotationLeaf.Leaf) | Node(left: Index, right: Index, split: int)

  datatype Answer = Answer(found: seq<Span>, index: Index)

  /** Java's int division by two, which truncates toward zero: a negative
      odd sum is rounded up, where Dafny's division would round it down. */
  function JavaHalf(x: int): (r: int)
    ensures x >= 0 ==> r == x / 2
    ensures x < 0 ==> x <= 2 * r <= x + 1
  {
    if x >= 0 then x / 2 else -((-x) / 2)
  }

  /** The constructor: split at the midpoint; children are nodes over
      [start, split] and [split + 1, end] while the left half is wider than
      `MinLeafSize`, and empty leaves otherwise. */
  function Build(start: int, end: int): (r: Index)
    ensures r.Node? && r.split == JavaHalf(start + end)
    ensures r.split - start > MinLeafSize <==> r.left.Node?
    ensures r.left.Node? <==> r.right.Node?
    decreases end - start
  {
    var split := JavaHalf(start + end);
    if split - start > MinLeafSize then
      Node(Build(start, split), Build(split + 1, end), split)
    else
      Node(Leaf(AnnotationLeaf.Empty), Leaf(AnnotationLeaf.Empty), split)
  }

  /** Where `insert` and `remove` send a span: left iff it starts at or
      before the split, right iff it ends after it. */
  predicate GoesTo(sp: Span, split: int, left: bool) {
    if left then sp.start <= split else sp.end > split
  }

  lemma RoutingCoversWellFormed(sp: Span, split: int)
    requires WellFormed(sp)
    ensures GoesTo(sp, split, true) || GoesTo(sp, split, false)
    ensures sp.start <= split < sp.end ==> GoesTo(sp, split, true) && GoesTo(sp, split, false)
  {
  }

  function Insert(t: Index, sp: Span): (r: Index)
  {
    match t
    case Leaf(l) => Leaf(AnnotationLeaf.Insert(l, sp))
    case Node(left, right, split) =>
      Node(if GoesTo(sp, split, true) then Insert(left, sp) else left,
           if GoesTo(sp, split, false) then Insert(right, sp) else right,
           split)
  }

  function Remove(t: Index, sp: Span): (r: Index)
  {
    match t
    case Leaf(l) => Leaf(AnnotationLeaf.Remove(l, sp))
    case Node(left, right, split) =>
      Node(if GoesTo(sp, split, true) then Remove(left, sp) else left,
           if GoesTo(sp, split, false) then Remove(right, sp) else right,
           split)
  }

  /** getCovering, getCovered and getCollisions of a node: the left child is
      asked iff qs <= split, the right child iff qe > split, and the two
      answers are concatenated, left first, keeping the first occurrence of
      each span. */
  function Query(t: Index, q: QueryKind, qs: int, qe: int): (r: Answer)
    ensures t.Node? ==> NoDup(r.found)
  {
    match t
    case Leaf(l) =>
      var a := AnnotationLeaf.Query(l, q, qs, qe);
      Answer(a.found, Leaf(a.leaf))
    case Node(left, right, split) =>
      var la := if qs <= split then Query(left, q, qs, qe) else Answer([], left);
      var ra := if qe > split then Query(right, q, qs, qe) else Answer([], right);
      Answer(DedupFrom(la.found + ra.found, {}), Node(la.index, ra.index, split))
  }

  /** The spans of `f` that a node routes to one side, in order. */
  function Route(f: seq<Span>, split: int, left: bool): seq<Span>
  {
    if |f| == 0 then []
    else Route(f[..|f| - 1], split, left) + (if GoesTo(f[|f| - 1], split, left) then [f[|f| - 1]] else [])
  }

  lemma {:induction false} RouteCount(f: seq<Span>, split: int, left: bool, x: Span)
    ensures multiset(Route(f, split, left))[x] == if GoesTo(x, split, left) then multiset(f)[x] else 0
  {
    if |f| > 0 {
      assert f == f[..|f| - 1] + [f[|f| - 1]];
      RouteCount(f[..|f| - 1], split, left, x);
    }
  }

  lemma RouteSubset(f: seq<Span>, split: int, left: bool)
    ensures forall x :: x in Route(f, split, left) <==> x in f && GoesTo(x, split, left)
  {
    var r := Route(f, split, left);
    forall x ensures x in r <==> x in f && GoesTo(x, split, left) {
      RouteCount(f, split, left, x);
      assert x in r <==> multiset(r)[x] > 0;
      assert x in f <==> multiset(f)[x] > 0;
    }
  }

  lemma RoutePermutation(f: seq<Span>, g: seq<Span>, split: int, left: bool)
    requires multiset(f) == multiset(g)
    ensures multiset(Route(f, split, left)) == multiset(Route(g, split, left))
  {
    forall x ensures multiset(Route(f, split, left))[x] == multiset(Route(g, split, left))[x] {
      RouteCount(f, split, left, x);
      RouteCount(g, split, left, x);
    }
  }

  /** `t` stores exactly the spans `f` (as a multiset): every leaf holds the
      spans routed to it, and every clean leaf is sorted. */
  predicate Stores(t: Index, f: seq<Span>)
  {
    match t
    case Leaf(l) => multiset(l.spans) == multiset(f) && AnnotationLeaf.Valid(l)
    case Node(left, right, split) => Stores(left, Route(f, split, true)) && Stores(right, Route(f, split, false))
  }

  lemma {:induction false} StoresPermutation(t: Index, f: seq<Span>, g: seq<Span>)
    requires Stores(t, f) && multiset(f) == multiset(g)
    ensures Stores(t, g)
  {
    match t
    case Leaf(_) =>
    case Node(left, right, split) =>
      RoutePermutation(f, g, split, true);
      RoutePermutation(f, g, split, false);
      StoresPermutation(left, Route(f, split, true), Route(g, split, true));
      StoresPermutation(right, Route(f, split, false), Route(g, split, false));
  }

  lemma {:induction false} BuildStoresNothing(start: int, end: int)
    ensures Stores(Build(start, end), [])
    decreases end - start
  {
    var split := JavaHalf(start + end);
    if split - start > MinLeafSize {
      BuildStoresNothing(start, split);
      BuildStoresNothing(split + 1, end);
    }
  }

  lemma RouteAppend(f: seq<Span>, sp: Span, split: int, left: bool)
    ensures Route(f + [sp], split, left) == Route(f, split, left) + (if GoesTo(sp, split, left) then [sp] else [])
  {
    assert (f + [sp])[..|f|] == f;
  }

  lemma {:induction false} InsertStores(t: Index, f: seq<Span>, sp: Span)
    requires Stores(t, f)
    ensures Stores(Insert(t, sp), f + [sp])
  {
    match t
    case Leaf(_) =>
    case Node(left, right, split) =>
      RouteAppend(f, sp, split, true);
      RouteAppend(f, sp, split, false);
      var fl := Route(f, split, true);
      var fr := Route(f, split, false);
      if GoesTo(sp, split, true) {
        InsertStores(left, fl, sp);
      } else {
        assert fl + [] == fl;
      }
      if GoesTo(sp, split, false) {
        InsertStores(right, fr, sp);
      } else {
        assert fr + [] == fr;
      }
  }

  lemma RouteRemoveCount(f: seq<Span>, sp: Span, split: int, left: bool, x: Span)
    ensures GoesTo(sp, split, left) ==>
      multiset(Route(RemoveFirst(f, sp), split, left))[x] == multiset(RemoveFirst(Route(f, split, left), sp))[x]
    ensures !GoesTo(sp, split, left) ==>
      multiset(Route(RemoveFirst(f, sp), split, left))[x] == multiset(Route(f, split, left))[x]
  {
    RouteCount(RemoveFirst(f, sp), split, left, x);
    RouteCount(f, split, left, x);
    var m := multiset(f);
    assert multiset(RemoveFirst(f, sp))[x] == (m - multiset{sp})[x];
    assert multiset(RemoveFirst(Route(f, split, left), sp))[x] == (multiset(Route(f, split, left)) - multiset{sp})[x];
  }

  lemma RouteRemove(f: seq<Span>, sp: Span, split: int, left: bool)
    ensures GoesTo(sp, split, left) ==>
      multiset(Route(RemoveFirst(f, sp), split, left)) == multiset(RemoveFirst(Route(f, split, left), sp))
    ensures !GoesTo(sp, split, left) ==>
      multiset(Route(RemoveFirst(f, sp), split, left)) == multiset(Route(f, split, left))
  {
    var a := multiset(Route(RemoveFirst(f, sp), split, left));
    if GoesTo(sp, split, left) {
      var b := multiset(RemoveFirst(Route(f, split, left), sp));
      forall x ensures a[x] == b[x] {
        RouteRemoveCount(f, sp, split, left, x);
      }
    } else {
      var b := multiset(Route(f, split, left));
      forall x ensures a[x] == b[x] {
        RouteRemoveCount(f, sp, split, left, x);
      }
    }
  }

  lemma {:induction false} RemoveStores(t: Index, f: seq<Span>, sp: Span)
    requires Stores(t, f)
    ensures Stores(Remove(t, sp), RemoveFirst(f, sp))
  {
    match t
    case Leaf(_) =>
    case Node(left, right, split) =>
      var g := RemoveFirst(f, sp);
      RouteRemove(f, sp, split, true);
      RouteRemove(f, sp, split, false);
      if GoesTo(sp, split, true) {
        RemoveStores(left, Route(f, split, true), sp);
        StoresPermutation(Remove(left, sp), RemoveFirst(Route(f, split, true), sp), Route(g, split, true));
      } else {
        StoresPermutation(left, Route(f, split, true), Route(g, split, true));
      }
      if GoesTo(sp, split, false) {
        RemoveStores(right, Route(f, split, false), sp);
        StoresPermutation(Remove(right, sp), RemoveFirst(Route(f, split, false), sp), Route(g, split, false));
      } else {
        StoresPermutation(right, Route(f, split, false), Route(g, split, false));
      }
  }

  /** A query only re-sorts leaves: the index still stores the same spans. */
  lemma {:induction false} QueryKeepsStores(t: Index, f: seq<Span>, q: QueryKind, qs: int, qe: int)
    requires Stores(t, f)
    ensures Stores(Query(t, q, qs, qe).index, f)
  {
    match t
    case Leaf(_) =>
    case Node(left, right, split) =>
      if qs <= split { QueryKeepsStores(left, Route(f, split, true), q, qs, qe); }
      if qe > split { QueryKeepsStores(right, Route(f, split, false), q, qs, qe); }
  }

  /** A well-formed span that matches a query is stored in a child the query
      visits. This is where qs <= qe is needed. */
  lemma MatchIsVisited(x: Span, split: int, q: QueryKind, qs: int, qe: int)
    requires WellFormed(x) && qs <= qe && Matches(q, x, qs, qe)
    ensures (GoesTo(x, split, true) && qs <= split) || (GoesTo(x, split, false) && qe > split)
  {
  }

  /** The answer of a node, given what its children answer. */
  lemma NodeAnswer(f: seq<Span>, split: int, lf: seq<Span>, rf: seq<Span>, q: QueryKind, qs: int, qe: int)
    requires AllWellFormed(f) && qs <= qe
    requires forall x :: x in lf <==> qs <= split && x in f && x.start <= split && Matches(q, x, qs, qe)
    requires forall x :: x in rf <==> qe > split && x in f && x.end > split && Matches(q, x, qs, qe)
    requires Sorted(lf) && Sorted(rf)
    ensures forall x :: x in DedupFrom(lf + rf, {}) <==> x in f && Matches(q, x, qs, qe)
    ensures Sorted(DedupFrom(lf + rf, {}))
  {
    var found := DedupFrom(lf + rf, {});
    forall x ensures x in found <==> x in f && Matches(q, x, qs, qe) {
      if x in f && Matches(q, x, qs, qe) {
        MatchIsVisited(x, split, q, qs, qe);
      }
    }
    DedupAppend(lf, rf, {});
    var seen := {} + set x | x in lf;
    var tail := DedupFrom(rf, seen);
    forall x, y | x in DedupFrom(lf, {}) && y in tail ensures Le(x, y) {
      assert y !in lf;
    }
    SortedConcat(DedupFrom(lf, {}), tail);
  }

  /** Every query over a tree that stores `f` returns exactly the spans of
      `f` that pass the leaf's filter, sorted by (start, end). */
  lemma {:induction false} QueryCorrect(t: Index, f: seq<Span>, q: QueryKind, qs: int, qe: int)
    requires Stores(t, f) && AllWellFormed(f) && qs <= qe
    ensures forall x :: x in Query(t, q, qs, qe).found <==> x in f && Matches(q, x, qs, qe)
    ensures Sorted(Query(t, q, qs, qe).found)
  {
    match t
    case Leaf(l) =>
      assert forall x :: x in l.spans <==> multiset(l.spans)[x] > 0;
      assert forall x :: x in f <==> multiset(f)[x] > 0;
    case Node(left, right, split) =>
      var fl := Route(f, split, true);
      var fr := Route(f, split, false);
      RouteSubset(f, split, true);
      RouteSubset(f, split, false);
      var la := if qs <= split then Query(left, q, qs, qe) else Answer([], left);
      var ra := if qe > split then Query(right, q, qs, qe) else Answer([], right);
      if qs <= split { QueryCorrect(left, fl, q, qs, qe); }
      if qe > split { QueryCorrect(right, fr, q, qs, qe); }
      NodeAnswer(f, split, la.found, ra.found, q, qs, qe);
  }

  /** One step of a history of index operations. */
  datatype Op = Add(span: Span) | Delete(span: Span) | Ask(q: QueryKind, qs: int, qe: int)

  /** The spans a history leaves stored, as a flat list. */
  function Contents(ops: seq<Op>): seq<Span>
  {
    if |ops| == 0 then []
    else
      var f := Contents(ops[..|ops| - 1]);
      match ops[|ops| - 1]
      case Add(sp) => f + [sp]
      case Delete(sp) => RemoveFirst(f, sp)
      case Ask(_, _, _) => f
  }

  predicate AddsWellFormed(ops: seq<Op>) {
    forall i :: 0 <= i < |ops| && ops[i].Add? ==> WellFormed(ops[i].span)
  }

  function RunTree(t: Index, ops: seq<Op>): Index
  {
    if |ops| == 0 then t
    else
      var t0 := RunTree(t, ops[..|ops| - 1]);
      match ops[|ops| - 1]
      case Add(sp) => Insert(t0, sp)
      case Delete(sp) => Remove(t0, sp)
      case Ask(q, qs, qe) => Query(t0, q, qs, qe).index
  }

  function RunLeaf(l: AnnotationLeaf.Leaf, ops: seq<Op>): AnnotationLeaf.Leaf
  {
    if |ops| == 0 then l
    else
      var l0 := RunLeaf(l, ops[..|ops| - 1]);
      match ops[|ops| - 1]
      case Add(sp) => AnnotationLeaf.Insert(l0, sp)
      case Delete(sp) => AnnotationLeaf.Remove(l0, sp)
      case Ask(q, qs, qe) => AnnotationLeaf.Query(l0, q, qs, qe).leaf
  }

  lemma {:induction false} RunTreeStores(start: int, end: int, ops: seq<Op>)
    ensures Stores(RunTree(Build(start, end), ops), Contents(ops))
  {
    if |ops| == 0 {
      BuildStoresNothing(start, end);
    } else {
      var init := ops[..|ops| - 1];
      RunTreeStores(start, end, init);
      var t0 := RunTree(Build(start, end), init);
      match ops[|ops| - 1]
      case Add(sp) => InsertStores(t0, Contents(init), sp);
      case Delete(sp) => RemoveStores(t0, Contents(init), sp);
      case Ask(q, qs, qe) => QueryKeepsStores(t0, Contents(init), q, qs, qe);
    }
  }

  lemma {:induction false} RunLeafStores(ops: seq<Op>)
    ensures Stores(Leaf(RunLeaf(AnnotationLeaf.Empty, ops)), Contents(ops))
  {
    if |ops| > 0 {
      RunLeafStores(ops[..|ops| - 1]);
    }
  }

  lemma {:induction false} ContentsWellFormed(ops: seq<Op>)
    requires AddsWellFormed(ops)
    ensures AllWellFormed(Contents(ops))
  {
    if |ops| > 0 {
      var init := ops[..|ops| - 1];
      assert AddsWellFormed(init) by {
        forall i | 0 <= i < |init| && init[i].Add? ensures WellFormed(init[i].span) {
          assert init[i] == ops[i];
        }
      }
      ContentsWellFormed(init);
      var f := Contents(init);
      match ops[|ops| - 1]
      case Add(sp) =>
      case Delete(sp) =>
        forall x | x in Contents(ops) ensures WellFormed(x) {
          assert multiset(Contents(ops))[x] > 0;
          assert x in f;
        }
      case Ask(_, _, _) =>
    }
  }

  /** The tree theorem: after the same history of operations, a tree built
      over any range and a single flat leaf give the same answer (as a set)
      to every query with qs <= qe, and that answer is exactly the stored
      spans that pass the leaf's filter. The tree's answer is in addition
      free of repeats and sorted by (start, end). */
  lemma TreeAgreesWithLeaf(start: int, end: int, ops: seq<Op>, q: QueryKind, qs: int, qe: int)
    requires AddsWellFormed(ops) && qs <= qe
    ensures var tree := Query(RunTree(Build(start, end), ops), q, qs, qe).found;
            var flat := AnnotationLeaf.Query(RunLeaf(AnnotationLeaf.Empty, ops), q, qs, qe).found;
            && (forall x :: x in tree <==> x in flat)
            && (forall x :: x in tree <==> x in Contents(ops) && Matches(q, x, qs, qe))
            && Sorted(tree) && NoDup(tree)
  {
    var t := RunTree(Build(start, end), ops);
    RunTreeStores(start, end, ops);
    RunLeafStores(ops);
    ContentsWellFormed(ops);
    BuildIsNode(start, end, ops);
    QueryCorrect(t, Contents(ops), q, qs, qe);
    QueryCorrect(Leaf(RunLeaf(AnnotationLeaf.Empty, ops)), Contents(ops), q, qs, qe);
  }

  /** No operation changes the shape of the tree. */
  lemma {:induction false} BuildIsNode(start: int, end: int, ops: seq<Op>)
    ensures RunTree(Build(start, end), ops).Node?
  {
    if |ops| > 0 {
      BuildIsNode(start, end, ops[..|ops| - 1]);
    }
  }

  /** After an insert the span is visible to every query (qs <= qe) whose
      filter it passes. */
  lemma InsertVisible(t: Index, f: seq<Span>, sp: Span, q: QueryKind, qs: int, qe: int)
    requires Stores(t, f) && AllWellFormed(f) && WellFormed(sp) && qs <= qe
    requires Matches(q, sp, qs, qe)
    ensures sp in Query(Insert(t, sp), q, qs, qe).found
  {
    InsertStores(t, f, sp);
    QueryCorrect(Insert(t, sp), f + [sp], q, qs, qe);
  }

  /** After removing a span that was stored once, no query returns it. */
  lemma RemoveInvisible(t: Index, f: seq<Span>, sp: Span, q: QueryKind, qs: int, qe: int)
    requires Stores(t, f) && AllWellFormed(f) && qs <= qe
    requires multiset(f)[sp] == 1
    ensures sp !in Query(Remove(t, sp), q, qs, qe).found
  {
    var g := RemoveFirst(f, sp);
    RemoveStores(t, f, sp);
    forall x | x in g ensures WellFormed(x) {
      assert multiset(g)[x] > 0;
      assert x in f;
    }
    assert multiset(g)[sp] == 0;
    QueryCorrect(Remove(t, sp), g, q, qs, qe);
  }
}
