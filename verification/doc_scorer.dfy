/** The per-document scorer of a query term: it averages the multipliers of
    the term's occurrences in the document, drops the excluded ones from
    the frequency handed to the base scorer, and treats a negated query
    term that matches nowhere as matched once. The base scorer is a
    parameter; its explanation is taken to carry the value of its score
    for the frequency being explained. */
module DocScorer {
  import opened Payload
  import opened Scoring

  /** Number of accepted (strictly positive) multipliers. */
  function Accepted(vals: seq<real>): (n: nat)
    ensures n <= |vals|
  {
    if |vals| == 0 then 0
    else Accepted(vals[..|vals| - 1]) + (if vals[|vals| - 1] > 0.0 then 1 else 0)
  }

  /** Number of excluded (zero or negative) multipliers. */
  function Excluded(vals: seq<real>): (n: nat)
    ensures n <= |vals|
  {
    if |vals| == 0 then 0
    else Excluded(vals[..|vals| - 1]) + (if vals[|vals| - 1] > 0.0 then 0 else 1)
  }

  /** Sum of the accepted multipliers. */
  function AcceptedSum(vals: seq<real>): (s: real)
    ensures s >= 0.0
    ensures s == 0.0 <==> Accepted(vals) == 0
  {
    if |vals| == 0 then 0.0
    else AcceptedSum(vals[..|vals| - 1]) + (if vals[|vals| - 1] > 0.0 then vals[|vals| - 1] else 0.0)
  }

  /** Every occurrence is either accepted or excluded. */
  lemma {:induction false} AcceptedPlusExcluded(vals: seq<real>)
    ensures Accepted(vals) + Excluded(vals) == |vals|
  {
    if |vals| > 0 {
      AcceptedPlusExcluded(vals[..|vals| - 1]);
    }
  }

  /** The multiplier of every occurrence against the query payload. */
  function Multipliers(enabled: bool, w: Weights, query: PayloadRef, postings: seq<PayloadRef>): (vals: seq<real>)
    requires ValidRef(query)
    requires forall p :: p in postings ==> ValidRef(p)
    ensures |vals| == |postings|
    ensures forall i :: 0 <= i < |postings| ==> vals[i] == MultiplierOfRefs(enabled, w, query, postings[i])
  {
    seq(|postings|, i requires 0 <= i < |postings| => MultiplierOfRefs(enabled, w, query, postings[i]))
  }

  /** The detail recorded for an occurrence with multiplier val: its
      explanation when accepted, a match of value 1 recording the removal
      otherwise. Either way the detail reports a match. */
  function DetailOf(val: real): (e: Explanation)
    ensures e.isMatch
    ensures val > 0.0 ==> e.value == val
  {
    if val > 0.0 then Explanation(true, val) else Explanation(true, 1.0)
  }

  /** The detail of a stored occurrence is the one explain builds: the
      multiplier's generateExplanation when accepted, a match of value 1
      otherwise. */
  lemma DetailIsGenerated(enabled: bool, w: Weights, query: PayloadRef, postings: seq<PayloadRef>, i: int)
    requires ValidRef(query)
    requires forall p :: p in postings ==> ValidRef(p)
    requires 0 <= i < |postings|
    ensures DetailOf(Multipliers(enabled, w, query, postings)[i]) ==
      if MultiplierOfRefs(enabled, w, query, postings[i]) > 0.0
      then GenerateExplanation(enabled, w, query, postings[i])
      else Explanation(true, 1.0)
  {
  }

  /** What the scorer hands on: the frequency given to the base scorer and
      the context weight the base score is multiplied by. */
  datatype Outcome = Outcome(count: int, weight: real)

  /** Reference definition: the number of accepted occurrences and their
      mean multiplier (0 when none), replaced by a count and weight of 1
      when the query term is negated and nothing was accepted. */
  function Aggregate(queryPositive: bool, vals: seq<real>): (o: Outcome)
    ensures 0 <= o.count <= |vals| || o.count == 1
    ensures o.weight >= 0.0
    ensures o.count == 0 <==> queryPositive && Accepted(vals) == 0
    ensures o.weight == 0.0 <==> o.count == 0
  {
    var n := Accepted(vals);
    if !queryPositive && n == 0 then Outcome(1, 1.0)
    else if n > 0 then Outcome(n, AcceptedSum(vals) / n as real)
    else Outcome(0, 0.0)
  }

  /** The occurrence loop shared by score and explain, over the
      multipliers of the occurrences in order: counting down from the
      document frequency for every excluded occurrence, summing the
      accepted multipliers, and collecting one detail per occurrence. */
  method Tally(vals: seq<real>) returns (count: int, sum: real, subs: seq<Explanation>)
    ensures count == Accepted(vals)
    ensures sum == AcceptedSum(vals)
    ensures |subs| == |vals|
    ensures forall i :: 0 <= i < |vals| ==> subs[i] == DetailOf(vals[i])
  {
    count := |vals|;
    sum := 0.0;
    subs := [];
    var i := 0;
    while i < |vals|
      invariant 0 <= i <= |vals|
      invariant count == |vals| - Excluded(vals[..i])
      invariant sum == AcceptedSum(vals[..i])
      invariant |subs| == i
      invariant forall k :: 0 <= k < i ==> subs[k] == DetailOf(vals[k])
    {
      var val := vals[i];
      assert vals[..i + 1][..i] == vals[..i];
      if val > 0.0 {
        sum := sum + val;
        subs := subs + [Explanation(true, val)];
      } else {
        subs := subs + [Explanation(true, 1.0)];
        count := count - 1;
      }
      i := i + 1;
    }
    assert vals[..i] == vals;
    AcceptedPlusExcluded(vals);
  }

  /** The mean and the negated-query rule applied to a tally. */
  function Finish(queryPositive: bool, count: int, sum: real): (o: Outcome)
    requires count >= 0
  {
    if !queryPositive && count == 0 then Outcome(1, 1.0)
    else if count > 0 then Outcome(count, sum / count as real)
    else Outcome(count, sum)
  }

  /** The finishing step applied to a tally is the reference definition. */
  lemma FinishIsAggregate(queryPositive: bool, vals: seq<real>)
    ensures Finish(queryPositive, Accepted(vals), AcceptedSum(vals)) == Aggregate(queryPositive, vals)
  {
  }

  /** A base score multiplied by the context weight. */
  function Scaled(baseScore: real, weight: real): real {
    baseScore * weight
  }

  /** score: the tally, the mean, the negated-query rule, and the base
      score for the corrected frequency scaled by the context weight. */
  method Score(enabled: bool, w: Weights, query: PayloadRef, postings: seq<PayloadRef>,
               base: (real, int) -> real, norm: int) returns (count: int, weight: real, score: real)
    requires ValidRef(query)
    requires forall p :: p in postings ==> ValidRef(p)
    ensures Outcome(count, weight) == Aggregate(DecodeRef(query).isPositive, Multipliers(enabled, w, query, postings))
    ensures score == Scaled(base(count as real, norm), weight)
  {
    var vals := Multipliers(enabled, w, query, postings);
    var n, sum, _ := Tally(vals);
    var o := Finish(DecodeRef(query).isPositive, n, sum);
    FinishIsAggregate(DecodeRef(query).isPositive, vals);
    count, weight := o.count, o.weight;
    score := Scaled(base(count as real, norm), weight);
  }

  /** The loop of explain with the mean and the negated-query rule: the
      number of accepted occurrences, the count and weight of score, and
      one detail per occurrence. */
  method Weigh(enabled: bool, w: Weights, query: PayloadRef, postings: seq<PayloadRef>)
    returns (accepted: int, count: int, weight: real, subs: seq<Explanation>)
    requires ValidRef(query)
    requires forall p :: p in postings ==> ValidRef(p)
    ensures accepted == Accepted(Multipliers(enabled, w, query, postings))
    ensures Outcome(count, weight) == Aggregate(DecodeRef(query).isPositive, Multipliers(enabled, w, query, postings))
    ensures |subs| == |postings|
    ensures forall i :: 0 <= i < |postings| ==> subs[i] == DetailOf(Multipliers(enabled, w, query, postings)[i])
    ensures forall e :: e in subs ==> e.isMatch
    ensures !DecodeRef(query).isPositive && accepted == 0 ==> count == 1
  {
    var vals := Multipliers(enabled, w, query, postings);
    var sum;
    accepted, sum, subs := Tally(vals);
    var o := Finish(DecodeRef(query).isPositive, accepted, sum);
    FinishIsAggregate(DecodeRef(query).isPositive, vals);
    count, weight := o.count, o.weight;
  }

  /** The frequency explanation explain hands to the base scorer: one
      match for a negated term found nowhere, the corrected count when the
      incoming frequency is a match, a no-match (of value 0) otherwise. */
  function FreqExplanation(negatedAbsent: bool, freqIsMatch: bool, count: int): (e: Explanation)
    ensures e.isMatch <==> negatedAbsent || freqIsMatch
    ensures negatedAbsent ==> e.value == 1.0
    ensures !negatedAbsent && freqIsMatch ==> e.value == count as real
  {
    if negatedAbsent then Explanation(true, 1.0)
    else if freqIsMatch then Explanation(true, count as real)
    else Explanation(false, 0.0)
  }

  /** The details list with the base explanation added first. */
  function WithBase(baseValue: real, subs: seq<Explanation>): (d: seq<Explanation>)
    ensures |d| == |subs| + 1
    ensures d[0] == Explanation(true, baseValue)
    ensures forall i :: 0 <= i < |subs| ==> d[i + 1] == subs[i]
    ensures (forall e :: e in subs ==> e.isMatch) ==> forall e :: e in d ==> e.isMatch
  {
    [Explanation(true, baseValue)] + subs
  }

  /** The tail of explain once the occurrences are weighed: the frequency
      explanation, which carries the count whenever the incoming frequency
      is a match; the base explanation placed before the details; and the
      base value scaled by the weight. */
  method Report(negatedAbsent: bool, freqIsMatch: bool, count: int, weight: real, subs: seq<Explanation>,
                base: (real, int) -> real, norm: int)
    returns (value: real, freq: Explanation, details: seq<Explanation>)
    requires negatedAbsent ==> count == 1
    ensures freq == FreqExplanation(negatedAbsent, freqIsMatch, count)
    ensures freqIsMatch ==> freq.value == count as real
    ensures value == Scaled(base(freq.value, norm), weight)
    ensures freqIsMatch ==> value == Scaled(base(count as real, norm), weight)
    ensures |details| == |subs| + 1
    ensures details[0] == Explanation(true, base(freq.value, norm))
    ensures forall i :: 0 <= i < |subs| ==> details[i + 1] == subs[i]
    ensures (forall e :: e in subs ==> e.isMatch) ==> forall e :: e in details ==> e.isMatch
  {
    freq := FreqExplanation(negatedAbsent, freqIsMatch, count);
    var baseValue := base(freq.value, norm);
    details := WithBase(baseValue, subs);
    value := Scaled(baseValue, weight);
  }

  /** explain: the same count and weight as score, which the
      explanation's description reports; the frequency explanation handed
      to the base scorer, which, when the incoming frequency is a match,
      carries the count score uses; the base explanation placed before the
      per-occurrence details, every one of which reports a match; and the
      base value scaled by the weight, equal to the score when the
      incoming frequency is a match. */
  method Explain(enabled: bool, w: Weights, query: PayloadRef, postings: seq<PayloadRef>,
                 freqIsMatch: bool, base: (real, int) -> real, norm: int)
    returns (value: real, count: int, weight: real, freq: Explanation, details: seq<Explanation>)
    requires ValidRef(query)
    requires forall p :: p in postings ==> ValidRef(p)
    ensures Outcome(count, weight) == Aggregate(DecodeRef(query).isPositive, Multipliers(enabled, w, query, postings))
    ensures freq == FreqExplanation(!DecodeRef(query).isPositive && Accepted(Multipliers(enabled, w, query, postings)) == 0,
                                    freqIsMatch, count)
    ensures freqIsMatch ==> freq.value == count as real
    ensures value == Scaled(base(freq.value, norm), weight)
    ensures freqIsMatch ==> value == Scaled(base(count as real, norm), weight)
    ensures |details| == |postings| + 1
    ensures details[0] == Explanation(true, base(freq.value, norm))
    ensures forall i :: 0 <= i < |postings| ==> details[i + 1] == DetailOf(Multipliers(enabled, w, query, postings)[i])
    ensures forall e :: e in details ==> e.isMatch
  {
    var n, subs;
    n, count, weight, subs := Weigh(enabled, w, query, postings);
    value, freq, details := Report(!DecodeRef(query).isPositive && n == 0, freqIsMatch, count, weight, subs, base, norm);
  }

  /** A negated query term none of whose occurrences is accepted scores as
      one occurrence with weight 1. */
  lemma {:induction false} NegatedAbsentIsOne(vals: seq<real>)
    requires forall i :: 0 <= i < |vals| ==> vals[i] <= 0.0
    ensures Aggregate(false, vals) == Outcome(1, 1.0)
  {
    NoneAccepted(vals);
  }

  /** A positive query term none of whose occurrences is accepted gets
      count and weight 0, hence a score of 0. */
  lemma PositiveAbsentIsZero(vals: seq<real>, base: (real, int) -> real, norm: int)
    requires forall i :: 0 <= i < |vals| ==> vals[i] <= 0.0
    ensures Aggregate(true, vals) == Outcome(0, 0.0)
    ensures Scaled(base(Aggregate(true, vals).count as real, norm), Aggregate(true, vals).weight) == 0.0
  {
    NoneAccepted(vals);
  }

  lemma {:induction false} NoneAccepted(vals: seq<real>)
    requires forall i :: 0 <= i < |vals| ==> vals[i] <= 0.0
    ensures Accepted(vals) == 0
  {
    if |vals| > 0 {
      NoneAccepted(vals[..|vals| - 1]);
    }
  }

  /** k copies of a added up. */
  function Times(a: real, k: nat): real {
    if k == 0 then 0.0 else Times(a, k - 1) + a
  }
  /** The sum of the accepted multipliers lies between their smallest and
      largest possible value taken once per accepted occurrence. */
  lemma {:induction false} AcceptedSumBounds(vals: seq<real>, lo: real, hi: real)
    requires forall i :: 0 <= i < |vals| && vals[i] > 0.0 ==> lo <= vals[i] <= hi
    ensures Times(lo, Accepted(vals)) <= AcceptedSum(vals) <= Times(hi, Accepted(vals))
  {
    if |vals| > 0 {
      var init := vals[..|vals| - 1];
      assert forall i :: 0 <= i < |init| ==> init[i] == vals[i];
      AcceptedSumBounds(init, lo, hi);
    }
  }
  lemma {:induction false} TimesIsProduct(a: real, k: nat)
    ensures Times(a, k) == a * k as real
  {
    if k > 0 {
      TimesIsProduct(a, k - 1);
      var n := (k - 1) as real;
      assert k as real == n + 1.0;
      MulStep(a, n);
    }
  }
  lemma MulStep(a: real, n: real)
    ensures a * (n + 1.0) == a * n + a
  {
  }
  /** The context weight of a document where something was accepted is a
      mean: it lies between the bounds of the accepted multipliers. */
  lemma WeightIsMean(queryPositive: bool, vals: seq<real>, lo: real, hi: real)
    requires forall i :: 0 <= i < |vals| && vals[i] > 0.0 ==> lo <= vals[i] <= hi
    requires Accepted(vals) > 0
    ensures lo <= Aggregate(queryPositive, vals).weight <= hi
  {
    AcceptedSumBounds(vals, lo, hi);
    MeanBetween(lo, hi, AcceptedSum(vals), Accepted(vals));
  }
  lemma MeanBetween(lo: real, hi: real, s: real, k: nat)
    requires k > 0 && Times(lo, k) <= s <= Times(hi, k)
    ensures lo <= s / k as real <= hi
  {
    TimesIsProduct(lo, k);
    TimesIsProduct(hi, k);
    DivLower(lo, s, k as real);
    DivUpper(hi, s, k as real);
  }
  lemma DivLower(lo: real, s: real, n: real)
    requires n > 0.0 && lo * n <= s
    ensures lo <= s / n
  {
    var q := s / n;
    assert q * n == s;
    if q < lo {
      assert (lo - q) * n > 0.0;
    }
  }
  lemma DivUpper(hi: real, s: real, n: real)
    requires n > 0.0 && s <= hi * n
    ensures s / n <= hi
  {
    var q := s / n;
    assert q * n == s;
    if q > hi {
      assert (q - hi) * n > 0.0;
    }
  }

  /** With ConText support off every occurrence counts with multiplier 1:
      a document where the term occurs gets its plain frequency and
      weight 1. */
  lemma {:induction false} DisabledIsPlainFrequency(w: Weights, query: PayloadRef, postings: seq<PayloadRef>)
    requires ValidRef(query)
    requires forall p :: p in postings ==> ValidRef(p)
    requires |postings| > 0
    ensures Aggregate(DecodeRef(query).isPositive, Multipliers(false, w, query, postings)) == Outcome(|postings|, 1.0)
  {
    var vals := Multipliers(false, w, query, postings);
    forall i | 0 <= i < |vals| ensures vals[i] == 1.0 {
      assert vals[i] == MultiplierOfRefs(false, w, query, postings[i]);
    }
    OnesAggregate(DecodeRef(query).isPositive, vals);
  }

  lemma OnesAggregate(queryPositive: bool, vals: seq<real>)
    requires |vals| > 0
    requires forall i :: 0 <= i < |vals| ==> vals[i] == 1.0
    ensures Aggregate(queryPositive, vals) == Outcome(|vals|, 1.0)
  {
    AllOnes(vals);
    var n := |vals| as real;
    assert n / n == 1.0;
  }

  lemma {:induction false} AllOnes(vals: seq<real>)
    requires forall i :: 0 <= i < |vals| ==> vals[i] == 1.0
    ensures Accepted(vals) == |vals| && AcceptedSum(vals) == |vals| as real
  {
    if |vals| > 0 {
      var init := vals[..|vals| - 1];
      assert forall i :: 0 <= i < |init| ==> init[i] == vals[i];
      AllOnes(init);
    }
  }
}
