/** The ConText propagation engine: turns one sentence's triggers into a
    status per character. Pseudo spans are marked first, then terminal
    spans; then every rightward trigger, in order, tags its own span and
    scans to the right until an exit test fires; then every leftward trigger
    does the same scanning to the left. A later trigger sees the trigger
    flags earlier ones left behind, so the order matters.

    The pure functions below are the reference semantics; the method
    `AnnotateStatuses` performs the same steps on an array and is proved to
    compute exactly the reference result. */
module Propagation {
  import opened Wrappers
  import opened ConTexT

  /** The word-window bound of a scan; -1 disables it. */
  const MaxWinSize: int := -1

  /** The window part of the exit test: more than MaxWinSize spaces passed,
      unless the window is disabled. */
  predicate WindowExit(spaces: int) {
    spaces > MaxWinSize && MaxWinSize != -1
  }

  /** With the window disabled, the window never ends a scan. */
  lemma WindowNeverExits(spaces: int)
    ensures !WindowExit(spaces)
  {
  }

  /** The axis part of the exit test of a scan step. */
  predicate Exit(st: Status, c: ConText) {
    match c
    case Possible => IsTerminal(st, Possible) || IsTrigger(st, Possible) ||
                     IsTerminal(st, Hypothetical) || IsTrigger(st, Hypothetical)
    case _ => IsTerminal(st, c) || IsTrigger(st, c)
  }

  /** A scan stops on its own axis's terminal or trigger; a POSSIBLE scan
      also stops on HYPOTHETICAL ones, but not the other way round. */
  lemma ExitByAxis(st: Status, c: ConText)
    ensures Exit(st, c) <==>
      IsTerminal(st, c) || IsTrigger(st, c) ||
      (c == Possible && (IsTerminal(st, Hypothetical) || IsTrigger(st, Hypothetical)))
    ensures c == Hypothetical && Exit(st, c) ==> Exit(st, Possible)
  {
  }

  /** The effect of a scan step on a character it does not stop at. */
  function Mutate(st: Status, c: ConText): (r: Status)
    ensures OnlyValuesDiffer(r, st)
    ensures r.isPositive == (st.isPositive && c != Negated)
    ensures r.isAsserted == (st.isAsserted && c != Possible && c != Hypothetical)
    ensures r.isPresent == (c == Hypothetical || (st.isPresent && c != Historical))
    ensures r.experiencerIsPatient == (st.experiencerIsPatient && c != Experiencer)
  {
    match c
    case Negated => st.(isPositive := false)
    case Possible => st.(isAsserted := false)
    case Historical => st.(isPresent := false)
    case Hypothetical => st.(isAsserted := false, isPresent := true)
    case Experiencer => st.(experiencerIsPatient := false)
  }

  /** Mutation never changes the outcome of any exit test. */
  lemma MutateKeepsExit(st: Status, c: ConText, c': ConText)
    ensures Exit(Mutate(st, c), c') == Exit(st, c')
  {
  }

  // ---------------------------------------------------------------------
  // Triggers the engine can process

  /** The character loops over a trigger's span stay inside a sentence of
      length n: an empty or reversed span touches nothing. */
  predicate Fits(t: Trigger, n: int) {
    t.start < t.end ==> 0 <= t.start && t.end <= n
  }

  predicate AllFit(ts: seq<Trigger>, n: int, needsContext: bool) {
    forall t :: t in ts ==> Fits(t, n) && (needsContext ==> t.ctx.Some?)
  }

  /** A directional trigger also has its first and last characters read by
      the pseudo test, and needs a context type to tag and scan with. */
  predicate Anchored(t: Trigger, n: int) {
    0 <= t.start < n && 0 < t.end <= n && t.ctx.Some?
  }

  predicate AllAnchored(ts: seq<Trigger>, n: int) {
    forall t :: t in ts ==> Anchored(t, n)
  }

  /** The triggers the engine reads can be processed without an index out
      of range, and every non-pseudo trigger has a context type. */
  predicate WellFormedTriggers(m: Triggers, n: int) {
    && AllFit(Get(m, Pseudo), n, false)
    && AllFit(Get(m, Terminal), n, true)
    && AllAnchored(Get(m, StartRight), n)
    && AllAnchored(Get(m, StartLeft), n)
  }

  predicate Covers(t: Trigger, k: int) {
    t.start <= k < t.end
  }

  /** Some trigger of `ts` covers character k. */
  predicate InSome(ts: seq<Trigger>, k: int) {
    exists t :: t in ts && Covers(t, k)
  }

  /** Some trigger of `ts` with context c covers character k. */
  predicate InSomeOf(ts: seq<Trigger>, k: int, c: ConText) {
    exists t :: t in ts && t.ctx == Some(c) && Covers(t, k)
  }

  // ---------------------------------------------------------------------
  // Reference semantics

  function Blank(n: nat): (r: seq<Status>)
    ensures |r| == n && forall k :: 0 <= k < n ==> r[k] == Default
  {
    seq(n, _ => Default)
  }

  /** Marks the span of one pseudo trigger. */
  function MarkPseudo(s: seq<Status>, t: Trigger): (r: seq<Status>)
    ensures |r| == |s|
  {
    seq(|s|, k requires 0 <= k < |s| => if Covers(t, k) then s[k].(isPseudo := true) else s[k])
  }

  function PseudoAll(s: seq<Status>, ts: seq<Trigger>): (r: seq<Status>)
    ensures |r| == |s|
    decreases |ts|
  {
    if |ts| == 0 then s else PseudoAll(MarkPseudo(s, ts[0]), ts[1..])
  }

  /** Marks the span of one terminal trigger with its axis's terminal flag. */
  function MarkTerminal(s: seq<Status>, t: Trigger): (r: seq<Status>)
    requires t.ctx.Some?
    ensures |r| == |s|
  {
    seq(|s|, k requires 0 <= k < |s| => if Covers(t, k) then WithTerminal(s[k], t.ctx.value) else s[k])
  }

  function TerminalAll(s: seq<Status>, ts: seq<Trigger>): (r: seq<Status>)
    requires forall t :: t in ts ==> t.ctx.Some?
    ensures |r| == |s|
    decreases |ts|
  {
    if |ts| == 0 then s else TerminalAll(MarkTerminal(s, ts[0]), ts[1..])
  }

  /** Tags the span of a directional trigger with its axis's trigger flag. */
  function TagSpan(s: seq<Status>, t: Trigger, c: ConText): (r: seq<Status>)
    ensures |r| == |s|
  {
    seq(|s|, k requires 0 <= k < |s| => if Covers(t, k) then WithTrigger(s[k], c) else s[k])
  }

  /** The rightward scan from character i, step by step. */
  function ScanRight(s: seq<Status>, i: int, c: ConText): (r: seq<Status>)
    requires 0 <= i
    ensures |r| == |s|
    decreases |s| - i
  {
    if i >= |s| then s
    else if Exit(s[i], c) then s
    else ScanRight(s[i := Mutate(s[i], c)], i + 1, c)
  }

  /** The leftward scan from character i down to 0, step by step. */
  function ScanLeft(s: seq<Status>, i: int, c: ConText): (r: seq<Status>)
    requires i < |s|
    ensures |r| == |s|
    decreases i + 1
  {
    if i < 0 then s
    else if Exit(s[i], c) then s
    else ScanLeft(s[i := Mutate(s[i], c)], i - 1, c)
  }

  /** A directional trigger is skipped when its first or last character is
      pseudo. */
  predicate Skipped(s: seq<Status>, t: Trigger)
    requires Anchored(t, |s|)
  {
    s[t.start].isPseudo || s[t.end - 1].isPseudo
  }

  /** One directional trigger: unless skipped, tag its span, then scan
      right from its end or left from the character before its start. */
  function Directional(s: seq<Status>, t: Trigger, forward: bool): (r: seq<Status>)
    requires Anchored(t, |s|)
    ensures |r| == |s|
    ensures Skipped(s, t) ==> r == s
  {
    if Skipped(s, t) then s
    else
      var tagged := TagSpan(s, t, t.ctx.value);
      if forward then ScanRight(tagged, t.end, t.ctx.value)
      else ScanLeft(tagged, t.start - 1, t.ctx.value)
  }

  function DirectionalAll(s: seq<Status>, ts: seq<Trigger>, forward: bool): (r: seq<Status>)
    requires AllAnchored(ts, |s|)
    ensures |r| == |s|
    decreases |ts|
  {
    if |ts| == 0 then s else DirectionalAll(Directional(s, ts[0], forward), ts[1..], forward)
  }

  /** The transposed sentence: pseudo spans, then terminal spans. */
  function Transposed(m: Triggers, n: nat): (r: seq<Status>)
    requires WellFormedTriggers(m, n)
    ensures |r| == n
  {
    TerminalAll(PseudoAll(Blank(n), Get(m, Pseudo)), Get(m, Terminal))
  }

  /** The statuses of a sentence of length n under triggers m. */
  function Annotation(m: Triggers, n: nat): (r: seq<Status>)
    requires WellFormedTriggers(m, n)
    ensures |r| == n
  {
    var afterRight := DirectionalAll(Transposed(m, n), Get(m, StartRight), true);
    DirectionalAll(afterRight, Get(m, StartLeft), false)
  }

  // ---------------------------------------------------------------------
  // Where a scan stops

  /** The first character at or after i where a rightward scan on axis c
      stops, or |s| when it runs to the end of the sentence. */
  function FirstExitRight(s: seq<Status>, i: int, c: ConText): (j: int)
    requires 0 <= i <= |s|
    ensures i <= j <= |s|
    ensures j < |s| ==> Exit(s[j], c)
    ensures forall k :: i <= k < j ==> !Exit(s[k], c)
    decreases |s| - i
  {
    if i == |s| then |s|
    else if Exit(s[i], c) then i
    else FirstExitRight(s, i + 1, c)
  }

  /** The first character at or before i where a leftward scan on axis c
      stops, or -1 when it runs to the start of the sentence. */
  function LastExitLeft(s: seq<Status>, i: int, c: ConText): (j: int)
    requires -1 <= i < |s|
    ensures -1 <= j <= i
    ensures j >= 0 ==> Exit(s[j], c)
    ensures forall k :: j < k <= i ==> !Exit(s[k], c)
    decreases i + 1
  {
    if i < 0 then -1
    else if Exit(s[i], c) then i
    else LastExitLeft(s, i - 1, c)
  }

  /** The stopping point depends only on the exit tests of the characters
      scanned. */
  lemma FirstExitRightSame(s: seq<Status>, s': seq<Status>, i: int, c: ConText)
    requires |s| == |s'| && 0 <= i <= |s|
    requires forall k :: i <= k < |s| ==> Exit(s[k], c) == Exit(s'[k], c)
    ensures FirstExitRight(s, i, c) == FirstExitRight(s', i, c)
  {
  }

  lemma LastExitLeftSame(s: seq<Status>, s': seq<Status>, i: int, c: ConText)
    requires |s| == |s'| && -1 <= i < |s|
    requires forall k :: 0 <= k <= i ==> Exit(s[k], c) == Exit(s'[k], c)
    ensures LastExitLeft(s, i, c) == LastExitLeft(s', i, c)
  {
  }

  /** A rightward scan from i mutates exactly the characters from i up to,
      not including, the first one that meets the exit test; nothing at or
      after that character changes, nor anything before i. */
  lemma {:induction false} ScanRightShape(s: seq<Status>, i: int, c: ConText)
    requires 0 <= i <= |s|
    ensures var r := ScanRight(s, i, c);
            var j := FirstExitRight(s, i, c);
            forall k :: 0 <= k < |s| ==> r[k] == if i <= k < j then Mutate(s[k], c) else s[k]
    decreases |s| - i
  {
    if i < |s| && !Exit(s[i], c) {
      var s' := s[i := Mutate(s[i], c)];
      ScanRightShape(s', i + 1, c);
      forall k | i + 1 <= k < |s| ensures Exit(s[k], c) == Exit(s'[k], c) {}
      FirstExitRightSame(s, s', i + 1, c);
    }
  }

  /** The mirror image of `ScanRightShape` for a leftward scan from i. */
  lemma {:induction false} ScanLeftShape(s: seq<Status>, i: int, c: ConText)
    requires -1 <= i < |s|
    ensures var r := ScanLeft(s, i, c);
            var j := LastExitLeft(s, i, c);
            forall k :: 0 <= k < |s| ==> r[k] == if j < k <= i then Mutate(s[k], c) else s[k]
    decreases i + 1
  {
    if i >= 0 && !Exit(s[i], c) {
      var s' := s[i := Mutate(s[i], c)];
      ScanLeftShape(s', i - 1, c);
      forall k | 0 <= k <= i - 1 ensures Exit(s[k], c) == Exit(s'[k], c) {}
      LastExitLeftSame(s, s', i - 1, c);
    }
  }

  /** A rightward trigger that is not skipped sets its axis's trigger flag on
      exactly its own span, then mutates the characters from its end up to
      the first one (in the sentence before the trigger ran) that meets the
      exit test; every other character is unchanged. */
  lemma ForwardShape(s: seq<Status>, t: Trigger)
    requires Anchored(t, |s|) && !Skipped(s, t)
    ensures var c := t.ctx.value;
            var j := FirstExitRight(s, t.end, c);
            var r := Directional(s, t, true);
            forall k :: 0 <= k < |s| ==>
              r[k] == if Covers(t, k) then WithTrigger(s[k], c)
                      else if t.end <= k < j then Mutate(s[k], c)
                      else s[k]
  {
    var c := t.ctx.value;
    var tagged := TagSpan(s, t, c);
    ScanRightShape(tagged, t.end, c);
    FirstExitRightSame(tagged, s, t.end, c);
  }

  /** The mirror image of `ForwardShape` for a leftward trigger: the scan
      runs from start - 1 down to the first character that meets the exit
      test. */
  lemma BackwardShape(s: seq<Status>, t: Trigger)
    requires Anchored(t, |s|) && !Skipped(s, t)
    ensures var c := t.ctx.value;
            var j := LastExitLeft(s, t.start - 1, c);
            var r := Directional(s, t, false);
            forall k :: 0 <= k < |s| ==>
              r[k] == if Covers(t, k) then WithTrigger(s[k], c)
                      else if j < k < t.start then Mutate(s[k], c)
                      else s[k]
  {
    var c := t.ctx.value;
    var tagged := TagSpan(s, t, c);
    ScanLeftShape(tagged, t.start - 1, c);
    LastExitLeftSame(tagged, s, t.start - 1, c);
    var j := LastExitLeft(s, t.start - 1, c);
    var r := ScanLeft(tagged, t.start - 1, c);
    forall k | 0 <= k < |s|
      ensures r[k] == if Covers(t, k) then WithTrigger(s[k], c)
                      else if j < k < t.start then Mutate(s[k], c)
                      else s[k]
    {
      if Covers(t, k) {
        assert r[k] == tagged[k];
      } else {
        assert tagged[k] == s[k];
      }
    }
  }

  /** Two triggers on either side of a terminal, facing it: neither changes
      the terminal character or anything beyond it. */
  lemma TerminalBlocksBothWays(s: seq<Status>, right: Trigger, left: Trigger, k: int)
    requires 0 <= k < |s|
    requires Anchored(right, |s|) && right.end <= k
    requires Anchored(left, |s|) && k < left.start
    requires IsTerminal(s[k], right.ctx.value) && IsTerminal(s[k], left.ctx.value)
    ensures var r := Directional(s, right, true);
            forall i :: k <= i < |s| ==> r[i] == s[i]
    ensures var r := Directional(s, left, false);
            forall i :: 0 <= i <= k ==> r[i] == s[i]
  {
    ExitByAxis(s[k], right.ctx.value);
    ExitByAxis(s[k], left.ctx.value);
    if !Skipped(s, right) { ForwardShape(s, right); }
    if !Skipped(s, left) { BackwardShape(s, left); }
  }

  // ---------------------------------------------------------------------
  // Pseudo and terminal flags are exactly the transposed spans

  /** Two statuses agree on everything except possibly the pseudo flag. */
  predicate AgreeButPseudo(a: Status, b: Status) {
    a.(isPseudo := false) == b.(isPseudo := false)
  }

  lemma InSomeCons(ts: seq<Trigger>, k: int)
    requires |ts| > 0
    ensures InSome(ts, k) <==> Covers(ts[0], k) || InSome(ts[1..], k)
    ensures forall c :: InSomeOf(ts, k, c) <==> (ts[0].ctx == Some(c) && Covers(ts[0], k)) || InSomeOf(ts[1..], k, c)
  {
    assert ts == [ts[0]] + ts[1..];
    assert forall t :: t in ts <==> t == ts[0] || t in ts[1..];
  }

  lemma MarkPseudoAt(s: seq<Status>, t: Trigger, k: int)
    requires 0 <= k < |s|
    ensures MarkPseudo(s, t)[k].isPseudo == (s[k].isPseudo || Covers(t, k))
    ensures AgreeButPseudo(MarkPseudo(s, t)[k], s[k])
  {
  }

  lemma {:induction false} PseudoAllExact(s: seq<Status>, ts: seq<Trigger>, k: int)
    requires 0 <= k < |s|
    ensures PseudoAll(s, ts)[k].isPseudo == (s[k].isPseudo || InSome(ts, k))
    ensures AgreeButPseudo(PseudoAll(s, ts)[k], s[k])
    decreases |ts|
  {
    if |ts| > 0 {
      var m := MarkPseudo(s, ts[0]);
      PseudoAllExact(m, ts[1..], k);
      InSomeCons(ts, k);
      MarkPseudoAt(s, ts[0], k);
    }
  }

  /** The terminal flags of `r` are those of `s` plus the axes of the
      triggers of `ts` that cover k; nothing else differs. */
  predicate TerminalsAdded(r: Status, s: Status, ts: seq<Trigger>, k: int) {
    && ValuesOf(r) == ValuesOf(s) && r.isPseudo == s.isPseudo && r.triggers == s.triggers
    && (forall c :: IsTerminal(r, c) == (IsTerminal(s, c) || InSomeOf(ts, k, c)))
  }

  lemma {:induction false} TerminalAllExact(s: seq<Status>, ts: seq<Trigger>, k: int)
    requires 0 <= k < |s|
    requires forall t :: t in ts ==> t.ctx.Some?
    ensures TerminalsAdded(TerminalAll(s, ts)[k], s[k], ts, k)
    decreases |ts|
  {
    if |ts| > 0 {
      var m := MarkTerminal(s, ts[0]);
      assert forall t :: t in ts[1..] ==> t in ts;
      TerminalAllExact(m, ts[1..], k);
      InSomeCons(ts, k);
    }
  }

  /** Directional triggers never change pseudo or terminal flags. */
  predicate SameMarks(a: Status, b: Status) {
    a.isPseudo == b.isPseudo && a.terminals == b.terminals
  }

  lemma DirectionalKeepsMarks(s: seq<Status>, t: Trigger, forward: bool)
    requires Anchored(t, |s|)
    ensures forall k :: 0 <= k < |s| ==> SameMarks(Directional(s, t, forward)[k], s[k])
  {
    if !Skipped(s, t) {
      if forward { ForwardShape(s, t); } else { BackwardShape(s, t); }
    }
  }

  lemma {:induction false} DirectionalAllKeepsMarks(s: seq<Status>, ts: seq<Trigger>, forward: bool)
    requires AllAnchored(ts, |s|)
    ensures forall k :: 0 <= k < |s| ==> SameMarks(DirectionalAll(s, ts, forward)[k], s[k])
    decreases |ts|
  {
    if |ts| > 0 {
      var s' := Directional(s, ts[0], forward);
      DirectionalKeepsMarks(s, ts[0], forward);
      assert forall t :: t in ts[1..] ==> t in ts;
      DirectionalAllKeepsMarks(s', ts[1..], forward);
    }
  }

  /** In the finished sentence a character is pseudo exactly when a pseudo
      trigger covers it, and carries the terminal flag of axis c exactly
      when a terminal trigger of context c covers it. */
  lemma AnnotationMarks(m: Triggers, n: nat, k: int, c: ConText)
    requires WellFormedTriggers(m, n) && 0 <= k < n
    ensures Annotation(m, n)[k].isPseudo <==> InSome(Get(m, Pseudo), k)
    ensures IsTerminal(Annotation(m, n)[k], c) <==> InSomeOf(Get(m, Terminal), k, c)
  {
    var p := PseudoAll(Blank(n), Get(m, Pseudo));
    PseudoAllExact(Blank(n), Get(m, Pseudo), k);
    TerminalAllExact(p, Get(m, Terminal), k);
    var tr := Transposed(m, n);
    var afterRight := DirectionalAll(tr, Get(m, StartRight), true);
    DirectionalAllKeepsMarks(tr, Get(m, StartRight), true);
    DirectionalAllKeepsMarks(afterRight, Get(m, StartLeft), false);
  }

  // ---------------------------------------------------------------------
  // The imperative engine

  method MarkPseudoSpan(a: array<Status>, t: Trigger)
    requires Fits(t, a.Length)
    modifies a
    ensures a[..] == MarkPseudo(old(a[..]), t)
  {
    ghost var s0 := a[..];
    var i := t.start;
    while i < t.end
      invariant t.start <= i && (i <= t.end || i == t.start)
      invariant forall k :: 0 <= k < a.Length ==>
        a[k] == if t.start <= k < i then s0[k].(isPseudo := true) else s0[k]
    {
      a[i] := a[i].(isPseudo := true);
      i := i + 1;
    }
  }

  method MarkTerminalSpan(a: array<Status>, t: Trigger)
    requires Fits(t, a.Length) && t.ctx.Some?
    modifies a
    ensures a[..] == MarkTerminal(old(a[..]), t)
  {
    ghost var s0 := a[..];
    var i := t.start;
    while i < t.end
      invariant t.start <= i && (i <= t.end || i == t.start)
      invariant forall k :: 0 <= k < a.Length ==>
        a[k] == if t.start <= k < i then WithTerminal(s0[k], t.ctx.value) else s0[k]
    {
      a[i] := WithTerminal(a[i], t.ctx.value);
      i := i + 1;
    }
  }

  method TagTriggerSpan(a: array<Status>, t: Trigger, c: ConText)
    requires Fits(t, a.Length)
    modifies a
    ensures a[..] == TagSpan(old(a[..]), t, c)
  {
    ghost var s0 := a[..];
    var i := t.start;
    while i < t.end
      invariant t.start <= i && (i <= t.end || i == t.start)
      invariant forall k :: 0 <= k < a.Length ==>
        a[k] == if t.start <= k < i then WithTrigger(s0[k], c) else s0[k]
    {
      a[i] := WithTrigger(a[i], c);
      i := i + 1;
    }
  }

  /** The rightward scan loop, counting spaces for the word window. */
  method ScanForward(a: array<Status>, text: string, from: int, c: ConText)
    requires a.Length == |text| && 0 <= from <= a.Length
    modifies a
    ensures a[..] == ScanRight(old(a[..]), from, c)
  {
    ghost var s0 := a[..];
    var spaces := 0;
    var i := from;
    while i < a.Length
      invariant from <= i <= a.Length
      invariant ScanRight(a[..], i, c) == ScanRight(s0, from, c)
    {
      if text[i] == ' ' {
        spaces := spaces + 1;
      }
      if WindowExit(spaces) || Exit(a[i], c) {
        break;
      }
      a[i] := Mutate(a[i], c);
      i := i + 1;
    }
  }

  /** The leftward scan loop, counting spaces for the word window. */
  method ScanBackward(a: array<Status>, text: string, from: int, c: ConText)
    requires a.Length == |text| && -1 <= from < a.Length
    modifies a
    ensures a[..] == ScanLeft(old(a[..]), from, c)
  {
    ghost var s0 := a[..];
    var spaces := 0;
    var i := from;
    while i >= 0
      invariant -1 <= i <= from
      invariant ScanLeft(a[..], i, c) == ScanLeft(s0, from, c)
    {
      if text[i] == ' ' {
        spaces := spaces + 1;
      }
      if WindowExit(spaces) || Exit(a[i], c) {
        break;
      }
      a[i] := Mutate(a[i], c);
      i := i - 1;
    }
  }

  /** The transpose phase: pseudo spans, then terminal spans, marked on a
      fresh sentence. */
  method Transpose(m: Triggers, n: nat) returns (sentence: seq<Status>)
    requires WellFormedTriggers(m, n)
    ensures sentence == Transposed(m, n)
  {
    var a := new Status[n](_ => Default);
    assert a[..] == Blank(n);

    var pseudos := Get(m, Pseudo);
    var k := 0;
    while k < |pseudos|
      invariant 0 <= k <= |pseudos|
      invariant PseudoAll(a[..], pseudos[k..]) == PseudoAll(Blank(n), pseudos)
    {
      MarkPseudoSpan(a, pseudos[k]);
      assert pseudos[k..][1..] == pseudos[k + 1..];
      k := k + 1;
    }

    var terminals := Get(m, Terminal);
    k := 0;
    while k < |terminals|
      invariant 0 <= k <= |terminals|
      invariant forall t :: t in terminals[k..] ==> t.ctx.Some?
      invariant TerminalAll(a[..], terminals[k..]) == Transposed(m, n)
    {
      MarkTerminalSpan(a, terminals[k]);
      assert terminals[k..][1..] == terminals[k + 1..];
      k := k + 1;
    }
    sentence := a[..];
  }

  /** The propagation phase of one direction: every trigger of `ts` in
      order, skipped when pseudo, else tagged and scanned. */
  method Propagate(s: seq<Status>, ts: seq<Trigger>, text: string, forward: bool) returns (sentence: seq<Status>)
    requires |s| == |text| && AllAnchored(ts, |s|)
    ensures sentence == DirectionalAll(s, ts, forward)
  {
    var a := new Status[|s|](i requires 0 <= i < |s| => s[i]);
    assert a[..] == s;
    var k := 0;
    while k < |ts|
      invariant 0 <= k <= |ts|
      invariant AllAnchored(ts[k..], a.Length)
      invariant DirectionalAll(a[..], ts[k..], forward) == DirectionalAll(s, ts, forward)
    {
      var t := ts[k];
      assert t in ts[k..];
      ghost var before := a[..];
      if !(a[t.start].isPseudo || a[t.end - 1].isPseudo) {
        TagTriggerSpan(a, t, t.ctx.value);
        if forward {
          ScanForward(a, text, t.end, t.ctx.value);
        } else {
          ScanBackward(a, text, t.start - 1, t.ctx.value);
        }
      }
      assert a[..] == Directional(before, t, forward);
      assert ts[k..][1..] == ts[k + 1..];
      k := k + 1;
    }
    sentence := a[..];
  }

  /** annotateConTextStatuses: the status of every character of `text`
      under the given triggers. */
  method AnnotateStatuses(m: Triggers, text: string) returns (sentence: seq<Status>)
    requires WellFormedTriggers(m, |text|)
    ensures sentence == Annotation(m, |text|)
    ensures forall k :: 0 <= k < |text| ==> (sentence[k].isPseudo <==> InSome(Get(m, Pseudo), k))
    ensures forall k, c :: 0 <= k < |text| ==>
      (IsTerminal(sentence[k], c) <==> InSomeOf(Get(m, Terminal), k, c))
  {
    var n := |text|;
    sentence := Transpose(m, n);
    sentence := Propagate(sentence, Get(m, StartRight), text, true);
    sentence := Propagate(sentence, Get(m, StartLeft), text, false);
    forall k | 0 <= k < n
      ensures sentence[k].isPseudo <==> InSome(Get(m, Pseudo), k)
    {
      AnnotationMarks(m, n, k, Negated);
    }
    forall k, c | 0 <= k < n
      ensures IsTerminal(sentence[k], c) <==> InSomeOf(Get(m, Terminal), k, c)
    {
      AnnotationMarks(m, n, k, c);
    }
  }
}
