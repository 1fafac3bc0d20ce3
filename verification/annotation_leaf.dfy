/** A leaf of the annotation index: an unordered list of spans with a dirty
    flag. Inserting marks the list dirty; the next query sorts it by
    (start, end) and clears the flag, then filters it. */
module AnnotationLeaf {
  import opened AnnotationIndex

  datatype Leaf = Leaf(spans: seq<Span>, dirty: bool)

  /** A new leaf: no spans, not dirty. */
  const Empty: Leaf := Leaf([], false)

  /** The leaf's invariant: a clean leaf is sorted. */
  predicate Valid(l: Leaf) {
    !l.dirty ==> Sorted(l.spans)
  }

  /** The answer of a query and the leaf as the query leaves it. */
  datatype Answer = Answer(found: seq<Span>, leaf: Leaf)

  function Insert(l: Leaf, sp: Span): (r: Leaf)
    ensures multiset(r.spans) == multiset(l.spans) + multiset{sp}
    ensures r.dirty && Valid(r)
  {
    Leaf(l.spans + [sp], true)
  }

  function Remove(l: Leaf, sp: Span): (r: Leaf)
    ensures multiset(r.spans) == multiset(l.spans) - multiset{sp}
    ensures r.dirty == l.dirty
    ensures Valid(l) ==> Valid(r)
  {
    assert Valid(l) ==> Valid(Leaf(RemoveFirst(l.spans, sp), l.dirty)) by {
      if Valid(l) && !l.dirty { RemoveFirstSorted(l.spans, sp); }
    }
    Leaf(RemoveFirst(l.spans, sp), l.dirty)
  }

  /** The state a query leaves the leaf in: sorted and clean. */
  function Settle(l: Leaf): (r: Leaf)
    ensures !r.dirty
    ensures Valid(l) ==> Valid(r)
    ensures multiset(r.spans) == multiset(l.spans)
  {
    if l.dirty then Leaf(SortSpans(l.spans), false) else l
  }

  /** getCovering, getCovered and getCollisions of a leaf: every stored span
      that passes the query's filter, with its multiplicity, sorted by
      (start, end). */
  function Query(l: Leaf, q: QueryKind, qs: int, qe: int): (r: Answer)
    ensures forall x :: multiset(r.found)[x] == if Matches(q, x, qs, qe) then multiset(l.spans)[x] else 0
    ensures forall x :: x in r.found <==> x in l.spans && Matches(q, x, qs, qe)
    ensures Valid(l) ==> Sorted(r.found)
    ensures r.leaf == Settle(l)
  {
    var settled := Settle(l);
    assert Valid(l) ==> Sorted(Select(settled.spans, q, qs, qe)) by {
      if Valid(l) { SelectSorted(settled.spans, q, qs, qe); }
    }
    var found := Select(settled.spans, q, qs, qe);
    assert forall x :: x in found <==> multiset(found)[x] > 0;
    assert forall x :: x in l.spans <==> multiset(l.spans)[x] > 0;
    Answer(found, settled)
  }

  /** A span inserted into a leaf is found by every later query it matches. */
  lemma InsertThenFound(l: Leaf, sp: Span, q: QueryKind, qs: int, qe: int)
    requires Matches(q, sp, qs, qe)
    ensures sp in Query(Insert(l, sp), q, qs, qe).found
  {
    var l' := Insert(l, sp);
    assert sp in l'.spans;
  }

  /** Removing a span leaves every other stored span, and every other answer,
      in place: only one occurrence of the removed span disappears. */
  lemma RemoveOnlyThat(l: Leaf, sp: Span, q: QueryKind, qs: int, qe: int)
    ensures var before := Query(l, q, qs, qe).found;
            var after := Query(Remove(l, sp), q, qs, qe).found;
            multiset(after) == multiset(before) - multiset{sp}
  {
    var before := Query(l, q, qs, qe).found;
    var removed := Remove(l, sp);
    var after := Query(removed, q, qs, qe).found;
    forall x ensures multiset(after)[x] == (multiset(before) - multiset{sp})[x] {
      assert multiset(removed.spans)[x] == (multiset(l.spans) - multiset{sp})[x];
      if Matches(q, x, qs, qe) {
        assert multiset(after)[x] == multiset(removed.spans)[x];
        assert multiset(before)[x] == multiset(l.spans)[x];
      } else {
        assert multiset(after)[x] == 0 && multiset(before)[x] == 0;
      }
    }
  }
}
