/** Small shared definitions: the optional value used for a trigger's
    context type (pseudo triggers carry none), and the sub-sequence
    relation the filtering loops are stated with. */
module Wrappers {

  datatype Option<+T> = None | Some(value: T)

  /** `idx` picks `sub` out of `s` in order: strictly increasing positions
      of `s` holding the elements of `sub`. */
  ghost predicate PicksInOrder<T>(sub: seq<T>, s: seq<T>, idx: seq<int>) {
    && |idx| == |sub|
    && (forall k :: 0 <= k < |idx| ==> 0 <= idx[k] < |s| && sub[k] == s[idx[k]])
    && (forall k, l :: 0 <= k < l < |idx| ==> idx[k] < idx[l])
  }

  /** Extending the list by one element extends a pick of it by the last
      position when that element is kept. */
  lemma PicksExtend<T>(sub: seq<T>, s: seq<T>, idx: seq<int>, keep: bool)
    requires |s| > 0
    requires PicksInOrder(sub, s[..|s| - 1], idx)
    ensures PicksInOrder(sub + (if keep then [s[|s| - 1]] else []), s, if keep then idx + [|s| - 1] else idx)
  {
    assert forall k :: 0 <= k < |idx| ==> s[..|s| - 1][idx[k]] == s[idx[k]];
  }
}
