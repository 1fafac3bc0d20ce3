/** Payload assignment: each token takes the status of its first character
    and turns it into a payload by applying setters to the default one. */
module PayloadAssignor {
  import opened ConTexT
  import opened Propagation
  import opened Payload

  /** A token of the document: the character span [start, end). */
  datatype Token = Token(start: int, end: int)

  /** The first four setter calls of the token loop: a context value is
      cleared when the status has it false. */
  function ClearValues(p: Payload, st: Status): (r: Payload)
    ensures r.isPositive == (p.isPositive && st.isPositive)
    ensures r.isAsserted == (p.isAsserted && st.isAsserted)
    ensures r.isPresent == (p.isPresent && st.isPresent)
    ensures r.patientIsSubject == (p.patientIsSubject && st.experiencerIsPatient)
    ensures r.isNegationTrigger == p.isNegationTrigger && r.isAssertionTrigger == p.isAssertionTrigger
    ensures r.isHistoricalTrigger == p.isHistoricalTrigger && r.isExperiencerTrigger == p.isExperiencerTrigger
  {
    var p1 := if !st.isPositive then p.(isPositive := false) else p;
    var p2 := if !st.isAsserted then p1.(isAsserted := false) else p1;
    var p3 := if !st.isPresent then p2.(isPresent := false) else p2;
    if !st.experiencerIsPatient then p3.(patientIsSubject := false) else p3
  }

  /** The last four setter calls: a trigger bit is raised when the status
      has a terminal or trigger flag of its axis; the assertion bit listens
      to both POSSIBLE and HYPOTHETICAL. */
  function RaiseTriggers(p: Payload, st: Status): (r: Payload)
    ensures r.isNegationTrigger == (p.isNegationTrigger || IsTerminal(st, Negated) || IsTrigger(st, Negated))
    ensures r.isAssertionTrigger ==
      (p.isAssertionTrigger || IsTerminal(st, Possible) || IsTrigger(st, Possible) ||
       IsTerminal(st, Hypothetical) || IsTrigger(st, Hypothetical))
    ensures r.isHistoricalTrigger == (p.isHistoricalTrigger || IsTerminal(st, Historical) || IsTrigger(st, Historical))
    ensures r.isExperiencerTrigger == (p.isExperiencerTrigger || IsTerminal(st, Experiencer) || IsTrigger(st, Experiencer))
    ensures r.isPositive == p.isPositive && r.isAsserted == p.isAsserted
    ensures r.isPresent == p.isPresent && r.patientIsSubject == p.patientIsSubject
  {
    var negation := IsTerminal(st, Negated) || IsTrigger(st, Negated);
    var assertion := IsTerminal(st, Possible) || IsTrigger(st, Possible) ||
                     IsTerminal(st, Hypothetical) || IsTrigger(st, Hypothetical);
    var historical := IsTerminal(st, Historical) || IsTrigger(st, Historical);
    var experiencer := IsTerminal(st, Experiencer) || IsTrigger(st, Experiencer);
    var p5 := if negation then p.(isNegationTrigger := true) else p;
    var p6 := if assertion then p5.(isAssertionTrigger := true) else p5;
    var p7 := if historical then p6.(isHistoricalTrigger := true) else p6;
    if experiencer then p7.(isExperiencerTrigger := true) else p7
  }

  /** The payload of a character status: the setters applied to the
      default payload. Every context value is copied, and each trigger bit
      is the OR of the terminal and trigger flags of its axis. */
  function PayloadOf(st: Status): (p: Payload)
    ensures p.isPositive == st.isPositive
    ensures p.isAsserted == st.isAsserted
    ensures p.isPresent == st.isPresent
    ensures p.patientIsSubject == st.experiencerIsPatient
    ensures p.isNegationTrigger == (IsTerminal(st, Negated) || IsTrigger(st, Negated))
    ensures p.isAssertionTrigger ==
      (IsTerminal(st, Possible) || IsTrigger(st, Possible) ||
       IsTerminal(st, Hypothetical) || IsTrigger(st, Hypothetical))
    ensures p.isHistoricalTrigger == (IsTerminal(st, Historical) || IsTrigger(st, Historical))
    ensures p.isExperiencerTrigger == (IsTerminal(st, Experiencer) || IsTrigger(st, Experiencer))
  {
    RaiseTriggers(ClearValues(NewPayload(), st), st)
  }

  /** A trigger bit is set exactly when a scan on that axis would stop at
      the character: the assertion bit is the POSSIBLE exit test. */
  lemma TriggerBitsAreExits(st: Status)
    ensures PayloadOf(st).isNegationTrigger == Exit(st, Negated)
    ensures PayloadOf(st).isAssertionTrigger == Exit(st, Possible)
    ensures PayloadOf(st).isHistoricalTrigger == Exit(st, Historical)
    ensures PayloadOf(st).isExperiencerTrigger == Exit(st, Experiencer)
  {
  }

  /** A token is left out of query coordination exactly when a NEGATED,
      POSSIBLE or HISTORICAL scan would stop at its first character. */
  lemma QueryTermIffNoExit(st: Status)
    ensures IsQueryTerm(PayloadOf(st)) <==> !(Exit(st, Negated) || Exit(st, Possible) || Exit(st, Historical))
  {
    TriggerBitsAreExits(st);
  }

  /** The token loop: each token paired with the payload of the status at
      its first character. */
  method AssignPayloads(statuses: seq<Status>, tokens: seq<Token>) returns (pairs: seq<(Token, Payload)>)
    requires forall tok :: tok in tokens ==> 0 <= tok.start < |statuses|
    ensures |pairs| == |tokens|
    ensures forall i :: 0 <= i < |tokens| ==>
      pairs[i].0 == tokens[i] && pairs[i].1 == PayloadOf(statuses[tokens[i].start])
  {
    pairs := [];
    var i := 0;
    while i < |tokens|
      invariant 0 <= i <= |tokens|
      invariant |pairs| == i
      invariant forall k :: 0 <= k < i ==>
        pairs[k].0 == tokens[k] && pairs[k].1 == PayloadOf(statuses[tokens[k].start])
    {
      var context := statuses[tokens[i].start];
      pairs := pairs + [(tokens[i], PayloadOf(context))];
      i := i + 1;
    }
  }

  /** Payloads of a whole sentence: the statuses under the flattened
      triggers, sampled at each token's first character. */
  method SentencePayloads(m: Triggers, text: string, tokens: seq<Token>) returns (pairs: seq<(Token, Payload)>)
    requires WellFormedTriggers(m, |text|)
    requires forall tok :: tok in tokens ==> 0 <= tok.start < |text|
    ensures |pairs| == |tokens|
    ensures forall i :: 0 <= i < |tokens| ==>
      pairs[i].1 == PayloadOf(Annotation(m, |text|)[tokens[i].start])
    ensures forall i :: 0 <= i < |tokens| ==>
      (pairs[i].1.isNegationTrigger <==> InSomeOf(Get(m, Terminal), tokens[i].start, Negated) ||
                                         IsTrigger(Annotation(m, |text|)[tokens[i].start], Negated))
  {
    var statuses := AnnotateStatuses(m, text);
    pairs := AssignPayloads(statuses, tokens);
  }
}
