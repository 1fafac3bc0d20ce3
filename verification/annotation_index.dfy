/** The shared vocabulary of the annotation index: character spans, the three
    span queries and the (start, end) order in which results are returned.
    Both the leaf (a flat list) and the node (a split tree) answer the same
    three queries over the same span type. */
module AnnotationIndex {

  /** The size below which a node's children are leaves rather than nodes. */
  const MinLeafSize: int := 20

  /** A character span as stored in the index: [start, end). */
  datatype Span = Span(start: int, end: int)

  predicate WellFormed(sp: Span) {
    sp.start <= sp.end
  }

  predicate AllWellFormed(s: seq<Span>) {
    forall x :: x in s ==> WellFormed(x)
  }

  /** The three queries of the index. */
  datatype QueryKind = Covering | Covered | Collisions

  /** The filter a leaf applies to each stored span for a query over
      (qs, qe). The collision test includes the query end: a span that
      starts exactly at qe collides. */
  predicate Matches(q: QueryKind, sp: Span, qs: int, qe: int) {
    match q
    case Covering => sp.start <= qs && sp.end >= qe
    case Covered => sp.start >= qs && sp.end <= qe
    case Collisions => (sp.start <= qs && sp.end > qs) || (sp.start >= qs && sp.start <= qe)
  }

  /** The leaf's sort comparator: by start, then by end. */
  predicate Le(a: Span, b: Span) {
    a.start < b.start || (a.start == b.start && a.end <= b.end)
  }

  predicate Sorted(s: seq<Span>) {
    forall i, j :: 0 <= i < j < |s| ==> Le(s[i], s[j])
  }

  predicate NoDup(s: seq<Span>) {
    forall i, j :: 0 <= i < j < |s| ==> s[i] != s[j]
  }

  lemma SortedConcat(a: seq<Span>, b: seq<Span>)
    requires Sorted(a) && Sorted(b)
    requires forall x, y :: x in a && y in b ==> Le(x, y)
    ensures Sorted(a + b)
  {
    forall i, j | 0 <= i < j < |a + b|
      ensures Le((a + b)[i], (a + b)[j])
    {
      if j < |a| {
      } else if i >= |a| {
        assert (a + b)[i] == b[i - |a|] && (a + b)[j] == b[j - |a|];
      } else {
        assert (a + b)[i] == a[i] && (a + b)[j] == b[j - |a|];
      }
    }
  }

  /** The spans of `s` that match a query, in their stored order. */
  function Select(s: seq<Span>, q: QueryKind, qs: int, qe: int): (r: seq<Span>)
    ensures forall x :: multiset(r)[x] == if Matches(q, x, qs, qe) then multiset(s)[x] else 0
  {
    if |s| == 0 then []
    else
      assert s == s[..|s| - 1] + [s[|s| - 1]];
      Select(s[..|s| - 1], q, qs, qe) + (if Matches(q, s[|s| - 1], qs, qe) then [s[|s| - 1]] else [])
  }

  lemma {:induction false} SelectSorted(s: seq<Span>, q: QueryKind, qs: int, qe: int)
    requires Sorted(s)
    ensures Sorted(Select(s, q, qs, qe))
  {
    if |s| > 0 {
      var init := s[..|s| - 1];
      var last := s[|s| - 1];
      var r0 := Select(init, q, qs, qe);
      SelectSorted(init, q, qs, qe);
      forall x | x in r0 ensures Le(x, last) {
        assert multiset(r0)[x] > 0;
        assert x in init;
        var k :| 0 <= k < |init| && init[k] == x;
        assert s[k] == x;
      }
      SortedConcat(r0, if Matches(q, last, qs, qe) then [last] else []);
    }
  }

  /** Inserts into a sorted sequence, keeping it sorted. */
  function InsertSorted(x: Span, s: seq<Span>): (r: seq<Span>)
    requires Sorted(s)
    ensures Sorted(r)
    ensures multiset(r) == multiset(s) + multiset{x}
  {
    if |s| == 0 then [x]
    else if Le(x, s[0]) then
      assert s == [s[0]] + s[1..];
      [x] + s
    else
      var rest := InsertSorted(x, s[1..]);
      assert s == [s[0]] + s[1..];
      HeadBelowAll(x, s, rest);
      SortedConcat([s[0]], rest);
      [s[0]] + rest
  }

  /** The head of a sorted sequence is below every element of its tail
      with x added, when it is below x. */
  lemma HeadBelowAll(x: Span, s: seq<Span>, rest: seq<Span>)
    requires |s| > 0 && Sorted(s) && !Le(x, s[0])
    requires multiset(rest) == multiset(s[1..]) + multiset{x}
    ensures forall y :: y in rest ==> Le(s[0], y)
  {
    forall y | y in rest ensures Le(s[0], y) {
      assert multiset(rest)[y] > 0;
      if y != x {
        assert y in s[1..];
        var k :| 0 <= k < |s[1..]| && s[1..][k] == y;
        assert s[k + 1] == y;
      }
    }
  }

  /** The leaf's sort: a sorted permutation of the stored spans. */
  function SortSpans(s: seq<Span>): (r: seq<Span>)
    ensures Sorted(r)
    ensures multiset(r) == multiset(s)
  {
    if |s| == 0 then []
    else
      assert s == [s[0]] + s[1..];
      InsertSorted(s[0], SortSpans(s[1..]))
  }

  /** Removes the first occurrence of `x`, as java.util.List.remove(Object). */
  function RemoveFirst(s: seq<Span>, x: Span): (r: seq<Span>)
    ensures multiset(r) == multiset(s) - multiset{x}
  {
    if |s| == 0 then []
    else
      assert s == [s[0]] + s[1..];
      if s[0] == x then s[1..] else [s[0]] + RemoveFirst(s[1..], x)
  }

  lemma {:induction false} RemoveFirstSorted(s: seq<Span>, x: Span)
    requires Sorted(s)
    ensures Sorted(RemoveFirst(s, x))
  {
    if |s| == 0 {
      assert RemoveFirst(s, x) == [];
    } else if s[0] == x {
      assert RemoveFirst(s, x) == s[1..];
    } else {
      var rest := RemoveFirst(s[1..], x);
      assert RemoveFirst(s, x) == [s[0]] + rest;
      RemoveFirstSorted(s[1..], x);
      HeadBelowSubset(s, rest);
      SortedConcat([s[0]], rest);
    }
  }

  lemma HeadBelowSubset(s: seq<Span>, rest: seq<Span>)
    requires |s| > 0 && Sorted(s)
    requires multiset(rest) <= multiset(s[1..])
    ensures forall y :: y in rest ==> Le(s[0], y)
  {
    forall y | y in rest ensures Le(s[0], y) {
      assert multiset(rest)[y] > 0;
      assert y in s[1..];
      var k :| 0 <= k < |s[1..]| && s[1..][k] == y;
      assert s[k + 1] == y;
    }
  }

  /** Keeps the first occurrence of each span not already in `seen`, in
      order: the HashSet-guarded list building of the node's queries. */
  function DedupFrom(s: seq<Span>, seen: set<Span>): (r: seq<Span>)
    ensures forall x :: x in r <==> x in s && x !in seen
    ensures NoDup(r)
    ensures Sorted(s) ==> Sorted(r)
  {
    if |s| == 0 then []
    else if s[0] in seen then
      assert s == [s[0]] + s[1..];
      DedupFrom(s[1..], seen)
    else
      var rest := DedupFrom(s[1..], seen + {s[0]});
      assert s == [s[0]] + s[1..];
      assert Sorted(s) ==> forall y :: y in rest ==> Le(s[0], y) by {
        if Sorted(s) {
          forall y | y in rest ensures Le(s[0], y) {
            var k :| 0 <= k < |s[1..]| && s[1..][k] == y;
            assert s[k + 1] == y;
          }
        }
      }
      assert Sorted(s) ==> Sorted([s[0]] + rest) by {
        if Sorted(s) { SortedConcat([s[0]], rest); }
      }
      [s[0]] + rest
  }

  lemma {:induction false} DedupAppend(a: seq<Span>, b: seq<Span>, seen: set<Span>)
    ensures DedupFrom(a + b, seen) == DedupFrom(a, seen) + DedupFrom(b, seen + set x | x in a)
  {
    if |a| == 0 {
      assert a + b == b;
      assert (set x | x in a) == {};
      assert seen + (set x | x in a) == seen;
    } else {
      assert (a + b)[0] == a[0];
      assert (a + b)[1..] == a[1..] + b;
      if a[0] in seen {
        DedupAppend(a[1..], b, seen);
        assert seen + (set x | x in a) == seen + (set x | x in a[1..]);
      } else {
        DedupAppend(a[1..], b, seen + {a[0]});
        assert seen + (set x | x in a) == seen + {a[0]} + (set x | x in a[1..]);
      }
    }
  }
}
