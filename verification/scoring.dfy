/** The scoring weight function: compares the payload of a query term with
    the payload of one occurrence in the index and returns the multiplier
    the term's base score is scaled by. A multiplier of 0 excludes the
    occurrence. Floating point is modelled by `real`. */
module Scoring {
  import opened Payload

  /** A light and a heavy variant of one weight. */
  datatype Level = Level(light: real, heavy: real)

  /** The weights of one side (match or mismatch) of the configuration. */
  datatype Side = Side(negation: real, subject: real, temporal: Level, assertion: Level)

  /** The twelve configured weights, loaded once and read by every call. */
  datatype Weights = Weights(mismatch: Side, matched: Side)

  /** getScoreMultiplier on decoded payloads, written as the source's chain
      of in-place multiplications starting from 1. */
  function Multiplier(enabled: bool, w: Weights, q: Payload, d: Payload): (r: real)
    ensures !enabled ==> r == 1.0
    ensures enabled && w.mismatch.negation == 0.0 && q.isPositive != d.isPositive ==> r == 0.0
    ensures enabled && w.mismatch.subject == 0.0 && q.patientIsSubject != d.patientIsSubject ==> r == 0.0
  {
    var ret := 1.0;
    if !enabled then ret
    else
      var ret := if q.isPositive != d.isPositive then ret * w.mismatch.negation else ret * w.matched.negation;
      var ret := if q.patientIsSubject != d.patientIsSubject then ret * w.mismatch.subject else ret * w.matched.subject;
      var ret := if q.isPresent != d.isPresent then
                   ret * (if q.isPresent then w.mismatch.temporal.light else w.mismatch.temporal.heavy)
                 else
                   ret * (if q.isPresent then w.matched.temporal.light else w.matched.temporal.heavy);
      if q.isAsserted != d.isAsserted then
        ret * (if q.isAsserted then w.mismatch.assertion.light else w.mismatch.assertion.heavy)
      else
        ret * (if q.isAsserted then w.matched.assertion.light else w.matched.assertion.heavy)
  }

  /** The four compared axes. */
  datatype Axis = NegationAxis | SubjectAxis | TemporalAxis | AssertionAxis

  /** The context value an axis compares. */
  function Flag(p: Payload, a: Axis): bool {
    match a
    case NegationAxis => p.isPositive
    case SubjectAxis => p.patientIsSubject
    case TemporalAxis => p.isPresent
    case AssertionAxis => p.isAsserted
  }

  /** The weight of an axis on one side; the temporal and assertion axes
      take the light variant when the query's own value is true. */
  function Weight(s: Side, a: Axis, queryFlag: bool): real {
    match a
    case NegationAxis => s.negation
    case SubjectAxis => s.subject
    case TemporalAxis => if queryFlag then s.temporal.light else s.temporal.heavy
    case AssertionAxis => if queryFlag then s.assertion.light else s.assertion.heavy
  }

  /** Reference definition of one factor: the match side when the two
      payloads agree on the axis, the mismatch side otherwise. */
  function Factor(w: Weights, q: Payload, d: Payload, a: Axis): real {
    Weight(if Flag(q, a) == Flag(d, a) then w.matched else w.mismatch, a, Flag(q, a))
  }

  /** With ConText support on, the multiplier is the product of the four
      reference factors. */
  lemma MultiplierIsProduct(w: Weights, q: Payload, d: Payload)
    ensures Multiplier(true, w, q, d) == Factor(w, q, d, NegationAxis) * Factor(w, q, d, SubjectAxis) *
                                         Factor(w, q, d, TemporalAxis) * Factor(w, q, d, AssertionAxis)
  {
    var f1, f2 := Factor(w, q, d, NegationAxis), Factor(w, q, d, SubjectAxis);
    var f3, f4 := Factor(w, q, d, TemporalAxis), Factor(w, q, d, AssertionAxis);
    assert f1 == if q.isPositive != d.isPositive then w.mismatch.negation else w.matched.negation;
    assert f2 == if q.patientIsSubject != d.patientIsSubject then w.mismatch.subject else w.matched.subject;
    assert f3 == if q.isPresent != d.isPresent then
                   (if q.isPresent then w.mismatch.temporal.light else w.mismatch.temporal.heavy)
                 else
                   (if q.isPresent then w.matched.temporal.light else w.matched.temporal.heavy);
    assert f4 == if q.isAsserted != d.isAsserted then
                   (if q.isAsserted then w.mismatch.assertion.light else w.mismatch.assertion.heavy)
                 else
                   (if q.isAsserted then w.matched.assertion.light else w.matched.assertion.heavy);
  }

  /** Two payloads that agree on the four context values. */
  predicate SameValues(p: Payload, p': Payload) {
    p.isPositive == p'.isPositive && p.isAsserted == p'.isAsserted &&
    p.isPresent == p'.isPresent && p.patientIsSubject == p'.patientIsSubject
  }

  /** The trigger flags take no part in scoring. */
  lemma OnlyValuesMatter(enabled: bool, w: Weights, q: Payload, q': Payload, d: Payload, d': Payload)
    requires SameValues(q, q') && SameValues(d, d')
    ensures Multiplier(enabled, w, q, d) == Multiplier(enabled, w, q', d')
  {
  }

  /** All weights positive: no occurrence is ever excluded. */
  predicate AllPositive(w: Weights) {
    var m, x := w.matched, w.mismatch;
    m.negation > 0.0 && m.subject > 0.0 && m.temporal.light > 0.0 && m.temporal.heavy > 0.0 &&
    m.assertion.light > 0.0 && m.assertion.heavy > 0.0 &&
    x.negation > 0.0 && x.subject > 0.0 && x.temporal.light > 0.0 && x.temporal.heavy > 0.0 &&
    x.assertion.light > 0.0 && x.assertion.heavy > 0.0
  }

  lemma PositiveWeightsKeepEveryOccurrence(enabled: bool, w: Weights, q: Payload, d: Payload)
    requires AllPositive(w)
    ensures Multiplier(enabled, w, q, d) > 0.0
  {
    if enabled {
      MultiplierIsProduct(w, q, d);
      var f1, f2 := Factor(w, q, d, NegationAxis), Factor(w, q, d, SubjectAxis);
      var f3, f4 := Factor(w, q, d, TemporalAxis), Factor(w, q, d, AssertionAxis);
      assert f1 > 0.0 && f2 > 0.0 && f3 > 0.0 && f4 > 0.0;
      assert f1 * f2 > 0.0;
      assert f1 * f2 * f3 > 0.0;
    }
  }

  /** A payload compared with itself takes the match weight on every axis. */
  lemma SelfMatch(w: Weights, q: Payload)
    ensures Multiplier(true, w, q, q) ==
      w.matched.negation * w.matched.subject *
      (if q.isPresent then w.matched.temporal.light else w.matched.temporal.heavy) *
      (if q.isAsserted then w.matched.assertion.light else w.matched.assertion.heavy)
  {
  }

  /** The light/heavy choice follows the query, so swapping query and index
      can change the multiplier: a present query against a historical
      occurrence is charged the light mismatch, the reverse the heavy one. */
  lemma QueryChoosesLevel(w: Weights, q: Payload, d: Payload)
    requires q.isPresent && !d.isPresent
    requires SameValues(q.(isPresent := false), d)
    requires w.mismatch.temporal.light != w.mismatch.temporal.heavy
    requires Multiplier(true, w, d, q) != 0.0
    ensures Multiplier(true, w, q, d) != Multiplier(true, w, d, q)
  {
    var a := Factor(w, q, d, NegationAxis) * Factor(w, q, d, SubjectAxis);
    var b := Factor(w, q, d, AssertionAxis);
    MultiplierIsProduct(w, q, d);
    MultiplierIsProduct(w, d, q);
    assert Factor(w, d, q, NegationAxis) * Factor(w, d, q, SubjectAxis) == a;
    assert Factor(w, d, q, AssertionAxis) == b;
    assert a != 0.0 && b != 0.0;
    MulCancel(a, b, w.mismatch.temporal.light, w.mismatch.temporal.heavy,
      Multiplier(true, w, q, d), Multiplier(true, w, d, q));
  }

  lemma MulCancel(a: real, b: real, x: real, y: real, m: real, n: real)
    requires a != 0.0 && b != 0.0 && x != y
    requires m == a * x * b && n == a * y * b
    ensures m != n
  {
    assert a * x * b - a * y * b == a * b * (x - y);
    assert a * b != 0.0;
  }

  /** getScoreMultiplier on stored payloads: both byte references are
      decoded first. */
  function MultiplierOfRefs(enabled: bool, w: Weights, q: PayloadRef, d: PayloadRef): (r: real)
    requires ValidRef(q) && ValidRef(d)
    ensures r == Multiplier(enabled, w, Decode(q.bytes[q.offset..]), Decode(d.bytes[d.offset..]))
  {
    Multiplier(enabled, w, DecodeRef(q), DecodeRef(d))
  }

  /** The multiplier reads only the low four bits of each context byte. */
  lemma RefsReadContextNibble(enabled: bool, w: Weights, q: PayloadRef, q': PayloadRef, d: PayloadRef, d': PayloadRef)
    requires ValidRef(q) && ValidRef(q') && ValidRef(d) && ValidRef(d')
    requires q.bytes[q.offset] & 0x0F == q'.bytes[q'.offset] & 0x0F
    requires d.bytes[d.offset] & 0x0F == d'.bytes[d'.offset] & 0x0F
    ensures MultiplierOfRefs(enabled, w, q, d) == MultiplierOfRefs(enabled, w, q', d')
  {
    NibbleValues(q, q');
    NibbleValues(d, d');
    OnlyValuesMatter(enabled, w, DecodeRef(q), DecodeRef(q'), DecodeRef(d), DecodeRef(d'));
  }

  lemma NibbleValues(r: PayloadRef, r': PayloadRef)
    requires ValidRef(r) && ValidRef(r')
    requires r.bytes[r.offset] & 0x0F == r'.bytes[r'.offset] & 0x0F
    ensures SameValues(DecodeRef(r), DecodeRef(r'))
  {
    var b, b' := r.bytes[r.offset], r'.bytes[r'.offset];
    assert b & 0x1 == (b & 0x0F) & 0x1 && b' & 0x1 == (b' & 0x0F) & 0x1;
    assert b & 0x2 == (b & 0x0F) & 0x2 && b' & 0x2 == (b' & 0x0F) & 0x2;
    assert b & 0x4 == (b & 0x0F) & 0x4 && b' & 0x4 == (b' & 0x0F) & 0x4;
    assert b & 0x8 == (b & 0x0F) & 0x8 && b' & 0x8 == (b' & 0x0F) & 0x8;
  }

  /** A scoring explanation: whether it reports a match, and its value.
      A no-match explanation carries the value 0. */
  datatype Explanation = Explanation(isMatch: bool, value: real)

  /** generateExplanation: a match carrying the multiplier when it is
      positive, a no-match otherwise. */
  function GenerateExplanation(enabled: bool, w: Weights, q: PayloadRef, d: PayloadRef): (e: Explanation)
    requires ValidRef(q) && ValidRef(d)
    ensures e.isMatch <==> MultiplierOfRefs(enabled, w, q, d) > 0.0
    ensures e.value == if MultiplierOfRefs(enabled, w, q, d) > 0.0 then MultiplierOfRefs(enabled, w, q, d) else 0.0
    ensures e.value >= 0.0
  {
    var weight := MultiplierOfRefs(enabled, w, q, d);
    if weight > 0.0 then Explanation(true, weight) else Explanation(false, 0.0)
  }
}
