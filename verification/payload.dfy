/** The two-byte token payload. Byte 0 holds the four context values,
    each bit set when the value is false (negated, possible, historical,
    other subject); byte 1 holds the four trigger flags, each bit set when
    the flag is true. Only bits 0 to 3 of each byte carry information. */
module Payload {
  import opened Wrappers

  type byte = bv8

  datatype Payload = Payload(
    isPositive: bool,
    isAsserted: bool,
    isPresent: bool,
    patientIsSubject: bool,
    isNegationTrigger: bool,
    isAssertionTrigger: bool,
    isHistoricalTrigger: bool,
    isExperiencerTrigger: bool)

  /** The eight fields, for the getters and setters. */
  datatype Field =
    | Positive | Asserted | Present | PatientIsSubject
    | NegationTrigger | AssertionTrigger | HistoricalTrigger | ExperiencerTrigger

  function Value(p: Payload, f: Field): bool {
    match f
    case Positive => p.isPositive
    case Asserted => p.isAsserted
    case Present => p.isPresent
    case PatientIsSubject => p.patientIsSubject
    case NegationTrigger => p.isNegationTrigger
    case AssertionTrigger => p.isAssertionTrigger
    case HistoricalTrigger => p.isHistoricalTrigger
    case ExperiencerTrigger => p.isExperiencerTrigger
  }

  /** The setters: each writes its own field and no other. */
  function Set(p: Payload, f: Field, v: bool): (r: Payload)
    ensures Value(r, f) == v
    ensures forall g :: g != f ==> Value(r, g) == Value(p, g)
  {
    match f
    case Positive => p.(isPositive := v)
    case Asserted => p.(isAsserted := v)
    case Present => p.(isPresent := v)
    case PatientIsSubject => p.(patientIsSubject := v)
    case NegationTrigger => p.(isNegationTrigger := v)
    case AssertionTrigger => p.(isAssertionTrigger := v)
    case HistoricalTrigger => p.(isHistoricalTrigger := v)
    case ExperiencerTrigger => p.(isExperiencerTrigger := v)
  }

  /** Whether a field lives in the context byte (inverted) or in the
      trigger byte. */
  predicate InContextByte(f: Field) {
    f.Positive? || f.Asserted? || f.Present? || f.PatientIsSubject?
  }

  /** The bit of its byte a field is stored in. */
  function Mask(f: Field): byte {
    match f
    case Positive => 0x1
    case Asserted => 0x2
    case Present => 0x4
    case PatientIsSubject => 0x8
    case NegationTrigger => 0x1
    case AssertionTrigger => 0x2
    case HistoricalTrigger => 0x4
    case ExperiencerTrigger => 0x8
  }

  function Bit(b: bool, mask: byte): byte {
    if b then mask else 0
  }

  /** toBytes: every field in its own bit, inverted in the context byte,
      as is in the trigger byte; decoding gives the payload back, for all
      256 combinations of the eight fields. */
  function Encode(p: Payload): (r: seq<byte>)
    ensures |r| == 2
    ensures forall f :: InContextByte(f) ==> (r[0] & Mask(f) != 0 <==> !Value(p, f))
    ensures forall f :: !InContextByte(f) ==> (r[1] & Mask(f) != 0 <==> Value(p, f))
    ensures r[0] & 0xF0 == 0 && r[1] & 0xF0 == 0
    ensures Decode(r) == p
  {
    [ Bit(!p.isPositive, 0x1) | Bit(!p.isAsserted, 0x2) | Bit(!p.isPresent, 0x4) | Bit(!p.patientIsSubject, 0x8),
      Bit(p.isNegationTrigger, 0x1) | Bit(p.isAssertionTrigger, 0x2) | Bit(p.isHistoricalTrigger, 0x4) | Bit(p.isExperiencerTrigger, 0x8) ]
  }

  /** The payload read from a context byte and a trigger byte. */
  function FromBytes(b0: byte, b1: byte): Payload {
    Payload(
      b0 & 0x1 == 0, b0 & 0x2 == 0, b0 & 0x4 == 0, b0 & 0x8 == 0,
      b1 & 0x1 == 1, b1 & 0x2 == 0x2, b1 & 0x4 == 0x4, b1 & 0x8 == 0x8)
  }

  /** The byte-array constructor: reads the first two bytes. */
  function Decode(src: seq<byte>): (p: Payload)
    requires |src| >= 2
    ensures forall f :: InContextByte(f) ==> (Value(p, f) <==> src[0] & Mask(f) == 0)
    ensures forall f :: !InContextByte(f) ==> (Value(p, f) <==> src[1] & Mask(f) != 0)
  {
    FromBytes(src[0], src[1])
  }

  /** A payload as stored in the index: a byte buffer and an offset. */
  datatype PayloadRef = PayloadRef(bytes: seq<byte>, offset: int)

  predicate ValidRef(r: PayloadRef) {
    0 <= r.offset && r.offset + 1 < |r.bytes|
  }

  /** The BytesRef constructor: reads the context byte at the offset, and
      returns early, leaving every trigger flag false, when the trigger
      byte is zero. */
  function DecodeRef(r: PayloadRef): (p: Payload)
    requires ValidRef(r)
    ensures p == Decode(r.bytes[r.offset..])
  {
    var b0, b1 := r.bytes[r.offset], r.bytes[r.offset + 1];
    if b1 == 0 then
      Payload(b0 & 0x1 == 0, b0 & 0x2 == 0, b0 & 0x4 == 0, b0 & 0x8 == 0, false, false, false, false)
    else
      FromBytes(b0, b1)
  }

  /** The no-argument constructor: the payload of the bytes {0, 0}, which
      is positive, asserted, present, about the patient and no trigger. */
  function NewPayload(): (p: Payload)
    ensures p == Payload(true, true, true, true, false, false, false, false)
    ensures Encode(p) == [0, 0]
  {
    Decode([0, 0])
  }

  /** Encoding what was decoded keeps only the low four bits of each byte. */
  lemma EncodeDecode(src: seq<byte>)
    requires |src| == 2
    ensures Encode(Decode(src)) == [src[0] & 0x0F, src[1] & 0x0F]
    ensures Encode(Decode(src)) == src <==> src[0] & 0xF0 == 0 && src[1] & 0xF0 == 0
  {
    var p := Decode(src);
    assert Encode(p)[0] == src[0] & 0x0F;
    assert Encode(p)[1] == src[1] & 0x0F;
  }

  /** The byte sequence [0, 0x10] decodes to the default payload but does
      not encode back to itself. */
  lemma HighBitsAreDropped()
    ensures Decode([0, 0x10]) == NewPayload()
    ensures Encode(Decode([0, 0x10])) != [0, 0x10]
  {
    EncodeDecode([0, 0x10]);
  }

  /** isQueryTerm: a token takes part in query coordination unless it is a
      negation, assertion or historical trigger; an experiencer trigger
      still counts. */
  predicate IsQueryTerm(p: Payload) {
    !(p.isNegationTrigger || p.isAssertionTrigger || p.isHistoricalTrigger)
  }

  /** The terms the clause loop keeps, in their original order. */
  ghost function QueryTerms(terms: seq<PayloadRef>): seq<PayloadRef>
    requires forall t :: t in terms ==> ValidRef(t)
    decreases |terms|
  {
    if |terms| == 0 then []
    else
      var t := terms[|terms| - 1];
      QueryTerms(terms[..|terms| - 1]) + (if IsQueryTerm(DecodeRef(t)) then [t] else [])
  }

  /** Every occurrence of a query term is kept, and nothing else. */
  lemma {:induction false} QueryTermsCount(terms: seq<PayloadRef>, t: PayloadRef)
    requires forall u :: u in terms ==> ValidRef(u)
    requires ValidRef(t)
    ensures multiset(QueryTerms(terms))[t] == if IsQueryTerm(DecodeRef(t)) then multiset(terms)[t] else 0
    decreases |terms|
  {
    if |terms| > 0 {
      var n := |terms| - 1;
      QueryTermsCount(terms[..n], t);
      assert terms == terms[..n] + [terms[n]];
    }
  }

  /** The kept terms appear in the order of the input. */
  lemma {:induction false} QueryTermsInOrder(terms: seq<PayloadRef>) returns (idx: seq<int>)
    requires forall u :: u in terms ==> ValidRef(u)
    ensures PicksInOrder(QueryTerms(terms), terms, idx)
    ensures forall k :: 0 <= k < |idx| ==> idx[k] < |terms|
    decreases |terms|
  {
    if |terms| == 0 {
      idx := [];
    } else {
      var n := |terms| - 1;
      idx := QueryTermsInOrder(terms[..n]);
      assert forall k :: 0 <= k < |idx| ==> terms[..n][idx[k]] == terms[idx[k]];
      if IsQueryTerm(DecodeRef(terms[n])) {
        idx := idx + [n];
      }
    }
  }

  /** The query builder's clause loop: one clause per analysed term whose
      payload is a query term, in order. Every occurrence of a query term
      gets its own clause, and no other term gets one. */
  method QueryClauses(terms: seq<PayloadRef>) returns (clauses: seq<PayloadRef>)
    requires forall t :: t in terms ==> ValidRef(t)
    ensures forall t :: t in clauses ==> t in terms
    ensures forall t :: t in terms ==>
      multiset(clauses)[t] == if IsQueryTerm(DecodeRef(t)) then multiset(terms)[t] else 0
    ensures exists idx :: PicksInOrder(clauses, terms, idx)
    ensures forall t :: t in terms ==> (t in clauses <==> IsQueryTerm(DecodeRef(t)))
    ensures forall t :: t in terms ==> (t in clauses <==> ValidRef(t) && t.bytes[t.offset + 1] & 0x7 == 0)
    ensures |clauses| <= |terms|
  {
    clauses := [];
    var i := 0;
    while i < |terms|
      invariant 0 <= i <= |terms|
      invariant clauses == QueryTerms(terms[..i])
      invariant |clauses| <= i
    {
      var p := DecodeRef(terms[i]);
      assert terms[..i + 1][..i] == terms[..i];
      if !(p.isHistoricalTrigger || p.isAssertionTrigger || p.isNegationTrigger) {
        clauses := clauses + [terms[i]];
      }
      i := i + 1;
    }
    assert terms[..i] == terms;
    QueryTermsFacts(terms);
  }

  /** What the kept terms are: a sub-sequence of the input in order, with
      every occurrence of a query term and nothing else. */
  lemma QueryTermsFacts(terms: seq<PayloadRef>)
    requires forall t :: t in terms ==> ValidRef(t)
    ensures forall t :: t in QueryTerms(terms) ==> t in terms
    ensures forall t :: t in terms ==>
      multiset(QueryTerms(terms))[t] == if IsQueryTerm(DecodeRef(t)) then multiset(terms)[t] else 0
    ensures exists idx :: PicksInOrder(QueryTerms(terms), terms, idx)
    ensures forall t :: t in terms ==> (t in QueryTerms(terms) <==> IsQueryTerm(DecodeRef(t)))
    ensures forall t :: t in terms ==> (t in QueryTerms(terms) <==> ValidRef(t) && t.bytes[t.offset + 1] & 0x7 == 0)
  {
    var kept := QueryTerms(terms);
    var idx := QueryTermsInOrder(terms);
    forall t | t in terms
      ensures multiset(kept)[t] == if IsQueryTerm(DecodeRef(t)) then multiset(terms)[t] else 0
      ensures t in kept <==> IsQueryTerm(DecodeRef(t))
      ensures IsQueryTerm(DecodeRef(t)) <==> ValidRef(t) && t.bytes[t.offset + 1] & 0x7 == 0
    {
      QueryTermsCount(terms, t);
      QueryTermBits(t.bytes[t.offset..]);
    }
    forall t | t in kept
      ensures t in terms
    {
      var k :| 0 <= k < |kept| && kept[k] == t;
      assert t == terms[idx[k]];
    }
  }

  /** On the wire, a query term is one whose trigger byte has bits 0 to 2
      clear. */
  lemma QueryTermBits(src: seq<byte>)
    requires |src| >= 2
    ensures IsQueryTerm(Decode(src)) <==> src[1] & 0x7 == 0
  {
  }
}
