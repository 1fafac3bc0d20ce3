/** The ConText vocabulary shared by the priority resolver, the propagation
    engine and the payload assignor: the five context axes, the four trigger
    categories, triggers, and the per-character status record. */
module ConTexT {
  import opened Wrappers

  /** The context axes a trigger can start or terminate. */
  datatype ConText = Negated | Possible | Hypothetical | Historical | Experiencer

  /** How a trigger acts: excluded from triggering, terminating, propagating
      rightwards (to the end of the sentence) or leftwards (to its start). */
  datatype Category = Pseudo | Terminal | StartRight | StartLeft

  /** A trigger over the half-open character span [start, end). Pseudo
      triggers carry no context type. The category is the key under which
      a trigger is filed, not a field of the trigger. */
  datatype Trigger = Trigger(ctx: Option<ConText>, start: int, end: int)

  /** Triggers of one sentence grouped by category. */
  type Triggers = map<Category, seq<Trigger>>

  /** The triggers filed under a category; an absent key means none. */
  function Get(m: Triggers, c: Category): seq<Trigger> {
    if c in m then m[c] else []
  }

  /** The status of one character: four context values (true unless a
      trigger's scope reaches the character), whether it lies in a pseudo
      span, and the axes whose terminal or trigger spans cover it. The
      source keeps one boolean per axis for terminals and for triggers; a
      set of axes holds the same information. */
  datatype Status = Status(
    isPositive: bool,
    isAsserted: bool,
    isPresent: bool,
    experiencerIsPatient: bool,
    isPseudo: bool,
    terminals: set<ConText>,
    triggers: set<ConText>)

  /** A fresh status: positive, asserted, present, about the patient, and
      in no span. */
  const Default: Status := Status(true, true, true, true, false, {}, {})

  predicate IsTerminal(st: Status, c: ConText) {
    c in st.terminals
  }

  predicate IsTrigger(st: Status, c: ConText) {
    c in st.triggers
  }

  /** Two statuses agree on everything except possibly the four context
      values. */
  predicate OnlyValuesDiffer(a: Status, b: Status) {
    a.isPseudo == b.isPseudo && a.terminals == b.terminals && a.triggers == b.triggers
  }

  /** Sets the terminal flag of one axis (the terminal transpose). */
  function WithTerminal(st: Status, c: ConText): (r: Status)
    ensures r.terminals == st.terminals + {c}
    ensures r.triggers == st.triggers && r.isPseudo == st.isPseudo
    ensures ValuesOf(r) == ValuesOf(st)
  {
    st.(terminals := st.terminals + {c})
  }

  /** Sets the trigger flag of one axis (tagStatusAsTrigger). */
  function WithTrigger(st: Status, c: ConText): (r: Status)
    ensures r.triggers == st.triggers + {c}
    ensures r.terminals == st.terminals && r.isPseudo == st.isPseudo
    ensures ValuesOf(r) == ValuesOf(st)
  {
    st.(triggers := st.triggers + {c})
  }

  /** The four context values of a status, which propagation changes. */
  datatype Values = Values(positive: bool, asserted: bool, present: bool, patient: bool)

  function ValuesOf(st: Status): Values {
    Values(st.isPositive, st.isAsserted, st.isPresent, st.experiencerIsPatient)
  }
}
