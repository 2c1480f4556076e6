/** The state of `CartaNatalApp` (src/App.tsx:97-122, 227-246) and its handlers. Each handler is
    first given as a function on a `State` value, the reference the class methods below are
    proved against; React's state batching is not modelled, each handler runs atomically. */
module Wizard {
  import opened Wrappers
  import opened JsStrings
  import opened Answers
  import opened Schema
  import opened Validation
  import opened Email
  import opened Report

  datatype State = State(
    started: bool,                          // the landing page has been left
    step: nat,                              // index of the current question; Total is the gate
    answers: map<string, Answer>,
    errors: map<string, Option<string>>,    // last validation outcome per question id
    email: string,
    unlocked: bool)

  function Initial(): State
  {
    State(false, 0, map[], map[], "", false)
  }

  /** The question card, with its inputs and its two buttons, is on screen (src/App.tsx:227). */
  predicate InQuestions(s: State)
  {
    s.started && s.step < Total
  }

  /** The email gate is on screen (src/App.tsx:241). */
  predicate AtGate(s: State)
  {
    s.started && s.step == Total && !s.unlocked
  }

  /** The current question's stored answer passes validation. */
  predicate StepValid(answers: map<string, Answer>, j: nat)
    requires j < Total
  {
    ValidateAnswer(QuestionSet[j], Get(answers, QuestionSet[j].id)) == None
  }

  /** What every reachable state satisfies: the step stays within 0..Total, every question
      before the current one holds an answer that validates, and the report is unlocked only
      at the gate with a well-formed address. */
  ghost predicate Inv(s: State)
  {
    && s.step <= Total
    && (!s.started ==> s.step == 0 && !s.unlocked)
    && (s.unlocked ==> s.step == Total && RegexMatches(s.email))
    && forall j :: 0 <= j < s.step ==> StepValid(s.answers, j)
  }

  /** "Comenzar test": leaves the landing page; from the initial state it shows the first
      question. */
  function AfterStart(s: State): (r: State)
    requires !s.started
    ensures r.started && r.step == s.step && r.answers == s.answers && r.unlocked == s.unlocked
    ensures r.errors == s.errors && r.email == s.email
    ensures Inv(s) ==> InQuestions(r) && r.step == 0
  {
    s.(started := true)
  }

  /** `setValue(id, value)`: the value is stored under `id`, every other id keeps its answer,
      the error shown for `id` becomes the current question's verdict on the value, and the
      step does not move. */
  function AfterSetValue(s: State, id: string, v: Answer): (r: State)
    requires InQuestions(s)
    ensures InQuestions(r) && r.step == s.step && r.email == s.email && r.unlocked == s.unlocked
    ensures Get(r.answers, id) == v
    ensures forall k :: k != id ==> Get(r.answers, k) == Get(s.answers, k)
    ensures id in r.errors && r.errors[id] == ValidateAnswer(QuestionSet[s.step], v)
    ensures forall k :: k != id ==> (k in r.errors <==> k in s.errors)
    ensures forall k :: k != id && k in s.errors ==> r.errors[k] == s.errors[k]
  {
    s.(answers := s.answers[id := v], errors := s.errors[id := ValidateAnswer(QuestionSet[s.step], v)])
  }

  /** `onNext`: validates the current question's stored answer and records the outcome under its
      id; the step moves forward by one (reaching Total after the last question) exactly when
      the answer is valid. The answers are never touched. */
  function AfterNext(s: State): (r: State)
    requires InQuestions(s)
    ensures r.started && r.answers == s.answers && r.email == s.email && r.unlocked == s.unlocked
    ensures StepValid(s.answers, s.step) ==> r.step == s.step + 1
    ensures !StepValid(s.answers, s.step) ==> r.step == s.step
    ensures QuestionSet[s.step].id in r.errors
    ensures r.errors[QuestionSet[s.step].id] == None <==> StepValid(s.answers, s.step)
    ensures r.errors == s.errors[QuestionSet[s.step].id :=
                                   ValidateAnswer(QuestionSet[s.step], Get(s.answers, QuestionSet[s.step].id))]
  {
    var q := QuestionSet[s.step];
    var err := ValidateAnswer(q, Get(s.answers, q.id));
    s.(errors := s.errors[q.id := err],
       step := if err == None then (if s.step + 1 < Total then s.step + 1 else Total) else s.step)
  }

  /** `onPrev`: one step back, never below 0, with nothing validated or cleared; the question
      card stays on screen. */
  function AfterPrev(s: State): (r: State)
    requires InQuestions(s)
    ensures InQuestions(r) && r.answers == s.answers && r.errors == s.errors
    ensures r.email == s.email && r.unlocked == s.unlocked
    ensures s.step > 0 ==> r.step + 1 == s.step
    ensures s.step == 0 ==> r == s
  {
    s.(step := if s.step == 0 then 0 else s.step - 1)
  }

  /** Typing into the email field of the gate: only the address changes, the gate stays. */
  function AfterEmail(s: State, e: string): (r: State)
    requires AtGate(s)
    ensures AtGate(r) && r.email == e && r.answers == s.answers && r.errors == s.errors
  {
    s.(email := e)
  }

  /** Clicking the unlock button: it is disabled, so the click does nothing, unless the address
      passes the email test. The report unlocks exactly when the regular expression matches. */
  function AfterUnlockClick(s: State): (r: State)
    requires AtGate(s)
    ensures r.unlocked <==> RegexMatches(s.email)
    ensures r.step == s.step && r.answers == s.answers && r.email == s.email
    ensures r.started == s.started && r.errors == s.errors
  {
    EmailShapedIffRegex(s.email);
    if EmailShaped(s.email) then s.(unlocked := true) else s
  }

  lemma InitialInv()
    ensures Inv(Initial())
  {
  }

  /** Storing an answer under another question's id does not change whether step `j` validates. */
  lemma StepValidUnaffected(answers: map<string, Answer>, id: string, v: Answer, j: nat)
    requires j < Total && QuestionSet[j].id != id
    ensures StepValid(answers[id := v], j) == StepValid(answers, j)
  {
    assert Get(answers[id := v], QuestionSet[j].id) == Get(answers, QuestionSet[j].id);
  }

  /** Editing the current question leaves every earlier question's answer untouched, because
      ids are distinct. */
  lemma SetValuePreservesInv(s: State, v: Answer)
    requires Inv(s) && InQuestions(s)
    ensures Inv(AfterSetValue(s, QuestionSet[s.step].id, v))
  {
    var id := QuestionSet[s.step].id;
    var edited := s.answers[id := v];
    IdsDistinct();
    forall j | 0 <= j < s.step ensures StepValid(edited, j) {
      StepValidUnaffected(s.answers, id, v, j);
    }
  }

  lemma NextPreservesInv(s: State)
    requires Inv(s) && InQuestions(s)
    ensures Inv(AfterNext(s))
  {
    if StepValid(s.answers, s.step) {
      ValidPrefixExtends(s.answers, s.step);
    }
  }

  /** A valid prefix of the questionnaire followed by a valid question is a longer valid prefix. */
  lemma ValidPrefixExtends(answers: map<string, Answer>, n: nat)
    requires n < Total && StepValid(answers, n)
    requires forall j :: 0 <= j < n ==> StepValid(answers, j)
    ensures forall j :: 0 <= j < n + 1 ==> StepValid(answers, j)
  {
  }

  lemma UnlockPreservesInv(s: State)
    requires Inv(s) && AtGate(s)
    ensures Inv(AfterUnlockClick(s))
  {
    EmailShapedIffRegex(s.email);
  }

  /** A failed `onNext` changes only the error entry, so trying again changes nothing more. */
  lemma FailedNextIsIdempotent(s: State)
    requires InQuestions(s)
    requires ValidateAnswer(QuestionSet[s.step], Get(s.answers, QuestionSet[s.step].id)) != None
    ensures AfterNext(s).step == s.step && AfterNext(s).answers == s.answers
    ensures AfterNext(AfterNext(s)) == AfterNext(s)
  {
  }

  /** A successful `onNext` advances exactly one step; from the last question it reaches the gate. */
  lemma SuccessfulNextAdvances(s: State)
    requires Inv(s) && InQuestions(s)
    requires ValidateAnswer(QuestionSet[s.step], Get(s.answers, QuestionSet[s.step].id)) == None
    ensures AfterNext(s).step == s.step + 1 && AfterNext(s).answers == s.answers
    ensures s.step == Total - 1 ==> AtGate(AfterNext(s))
  {
  }

  /** Going back and then forward again, with no edit in between, returns to the same step
      with the same answers: the earlier answer was valid when it was left. */
  lemma PrevThenNextReturns(s: State)
    requires Inv(s) && InQuestions(s) && s.step > 0
    ensures AfterNext(AfterPrev(s)).step == s.step
    ensures AfterNext(AfterPrev(s)).answers == s.answers
  {
    assert StepValid(s.answers, s.step - 1);
  }

  /** At the gate every question has passed validation, so every required question is
      answered and no text answer is shorter than its minimum. */
  lemma GateMeansComplete(s: State)
    requires Inv(s) && s.started && s.step == Total
    ensures forall j :: 0 <= j < Total ==>
      var q := QuestionSet[j];
      !(q.required && Missing(q.kind, Get(s.answers, q.id))) && !TooShort(q.kind, Get(s.answers, q.id))
  {
    forall j | 0 <= j < Total
      ensures !(QuestionSet[j].required && Missing(QuestionSet[j].kind, Get(s.answers, QuestionSet[j].id)))
      ensures !TooShort(QuestionSet[j].kind, Get(s.answers, QuestionSet[j].id))
    {
      assert StepValid(s.answers, j);
    }
  }

  /** What the user can do on each screen. */
  datatype Event =
    | StartTest
    | Type(v: Answer)       // an input of the current question calls onChange(v)
    | Next
    | Prev
    | TypeEmail(e: string)
    | ClickUnlock

  /** The control for `ev` is on screen. */
  predicate Enabled(s: State, ev: Event)
  {
    match ev
    case StartTest => !s.started
    case Type(_) => InQuestions(s)
    case Next => InQuestions(s)
    case Prev => InQuestions(s)
    case TypeEmail(_) => AtGate(s)
    case ClickUnlock => AtGate(s)
  }

  function Apply(s: State, ev: Event): State
    requires Enabled(s, ev)
  {
    match ev
    case StartTest => AfterStart(s)
    case Type(v) => AfterSetValue(s, QuestionSet[s.step].id, v)
    case Next => AfterNext(s)
    case Prev => AfterPrev(s)
    case TypeEmail(e) => AfterEmail(s, e)
    case ClickUnlock => AfterUnlockClick(s)
  }

  /** A session: the events in order, each one that has no control on screen having no effect. */
  function Run(s: State, evs: seq<Event>): State
    decreases |evs|
  {
    if evs == [] then s
    else Run(if Enabled(s, evs[0]) then Apply(s, evs[0]) else s, evs[1..])
  }

  lemma ApplyPreservesInv(s: State, ev: Event)
    requires Inv(s) && Enabled(s, ev)
    ensures Inv(Apply(s, ev))
  {
    match ev
    case StartTest =>
    case Type(v) => SetValuePreservesInv(s, v);
    case Next => NextPreservesInv(s);
    case Prev =>
    case TypeEmail(_) =>
    case ClickUnlock => UnlockPreservesInv(s);
  }

  lemma {:induction false} RunPreservesInv(s: State, evs: seq<Event>)
    requires Inv(s)
    ensures Inv(Run(s, evs))
    decreases |evs|
  {
    if evs != [] {
      var t := if Enabled(s, evs[0]) then Apply(s, evs[0]) else s;
      if Enabled(s, evs[0]) { ApplyPreservesInv(s, evs[0]); }
      RunPreservesInv(t, evs[1..]);
    }
  }

  /** Whatever the user does from the landing page: the step stays within 0..Total, and the
      report is only ever shown at the gate, for a well-formed address and answers that all
      validate. */
  lemma SessionSafety(evs: seq<Event>)
    ensures var s := Run(Initial(), evs);
      && s.step <= Total
      && (s.unlocked ==> s.step == Total && RegexMatches(s.email))
      && (s.unlocked ==> forall j :: 0 <= j < Total ==> StepValid(s.answers, j))
  {
    InitialInv();
    RunPreservesInv(Initial(), evs);
  }

  /** Once unlocked no control is left on screen, so the answers the report was computed from
      can no longer change. */
  lemma UnlockedIsFinal(s: State, evs: seq<Event>)
    requires Inv(s) && s.unlocked
    ensures Run(s, evs) == s
    decreases |evs|
  {
    if evs != [] {
      assert !Enabled(s, evs[0]);
      UnlockedIsFinal(s, evs[1..]);
    }
  }

  /** The first question ("nombre", at least 2 characters): "a" is refused with the
      minimum-length message and the step stays; "ab" is accepted and the wizard moves on. */
  lemma NameScenario()
    ensures var s0 := AfterStart(Initial());
      var s1 := AfterNext(AfterSetValue(s0, "nombre", Str("a")));
      var s2 := AfterNext(AfterSetValue(s1, "nombre", Str("ab")));
      && s1.step == 0 && s1.errors["nombre"] == Some(MinLenError(2))
      && s2.step == 1 && s2.errors["nombre"] == None
  {
    var s0 := AfterStart(Initial());
    assert QuestionSet[0] == Question("nombre", true, Text(2));
    assert NoSpace("a") by { assert !IsSpace("a"[0]); }
    assert NoSpace("ab") by { assert !IsSpace("ab"[0]) && !IsSpace("ab"[1]); }
    TrimNoSpace("a");
    TrimNoSpace("ab");
  }

  /** The wizard as the component holds it: six pieces of state and the handlers that change
      them. Each handler is proved to do what the matching function above does. */
  class CartaNatalApp {
    var started: bool
    var step: nat
    var answers: map<string, Answer>
    var errors: map<string, Option<string>>
    var email: string
    var unlocked: bool

    function Snapshot(): State
      reads this
    {
      State(started, step, answers, errors, email, unlocked)
    }

    ghost predicate Valid()
      reads this
    {
      Inv(Snapshot())
    }

    constructor ()
      ensures Valid() && Snapshot() == Initial()
    {
      started, step, answers, errors, email, unlocked := false, 0, map[], map[], "", false;
    }

    method StartTest()
      requires Valid() && !started
      modifies this
      ensures Valid() && Snapshot() == AfterStart(old(Snapshot()))
    {
      started := true;
    }

    /** `setValue`; its only caller passes the current question's id (src/App.tsx:229). */
    method SetValue(id: string, value: Answer)
      requires Valid() && started && step < Total && id == QuestionSet[step].id
      modifies this
      ensures Valid() && Snapshot() == AfterSetValue(old(Snapshot()), id, value)
      ensures answers == old(answers)[id := value] && step == old(step)
      ensures errors == old(errors)[id := ValidateAnswer(QuestionSet[old(step)], value)]
    {
      SetValuePreservesInv(Snapshot(), value);
      answers := answers[id := value];
      var err := ValidateAnswer(QuestionSet[step], value);
      errors := errors[id := err];
    }

    method OnNext() returns (err: Option<string>)
      requires Valid() && started && step < Total
      modifies this
      ensures Valid() && Snapshot() == AfterNext(old(Snapshot()))
      ensures err == ValidateAnswer(QuestionSet[old(step)], Get(answers, QuestionSet[old(step)].id))
      ensures errors == old(errors)[QuestionSet[old(step)].id := err] && answers == old(answers)
      ensures step == if err == None then old(step) + 1 else old(step)
    {
      NextPreservesInv(Snapshot());
      var current := QuestionSet[step];
      err := ValidateAnswer(current, Get(answers, current.id));
      errors := errors[current.id := err];
      if err == None {
        step := if step + 1 < Total then step + 1 else Total;
      }
    }

    method OnPrev()
      requires Valid() && started && step < Total
      modifies this
      ensures Valid() && Snapshot() == AfterPrev(old(Snapshot()))
      ensures step == if old(step) == 0 then 0 else old(step) - 1
    {
      if step > 0 {
        step := step - 1;
      }
    }

    method SetEmail(e: string)
      requires Valid() && started && step == Total && !unlocked
      modifies this
      ensures Valid() && Snapshot() == AfterEmail(old(Snapshot()), e)
    {
      email := e;
    }

    /** The unlock button; a click while it is disabled has no effect. */
    method ClickUnlock()
      requires Valid() && started && step == Total && !unlocked
      modifies this
      ensures Valid() && Snapshot() == AfterUnlockClick(old(Snapshot()))
      ensures unlocked <==> EmailShaped(email)
    {
      UnlockPreservesInv(Snapshot());
      if EmailShaped(email) {
        unlocked := true;
      }
    }

    /** `result` (src/App.tsx:108): the report of the current answers once unlocked, nothing
        before. A report is only ever produced at the gate, for a matching address and answers
        that all validate. */
    function Result(): (r: Option<Advice>)
      requires Valid()
      reads this
      ensures r.Some? ==> step == Total && RegexMatches(email)
      ensures r.Some? ==> forall j :: 0 <= j < Total ==> StepValid(answers, j)
      ensures r.Some? <==> unlocked
      ensures unlocked ==> r.value == GenerateAstroAdvice(answers)
    {
      if unlocked then Some(GenerateAstroAdvice(answers)) else None
    }
  }
}
