/** The LDAP form: edits, tests and late responses, and when Continue is enabled. */
module LdapFormModel {
  import opened Options

  datatype Stage = Untested | Invalid | Valid | Updating

  /** The contents of the form are opaque. */
  type Values = int

  /** A test in flight remembers the nonce and the values it was started with. */
  datatype Test = Test(version: nat, values: Values)

  datatype Reply = Accepted | Refused | Failed

  /** `error` is the nonce that redux-form's validate bumps (0 before its first call); `successes`
      records the tests whose reply accepted the configuration. */
  datatype Form = Form(
    values: Values, error: nat, stage: Stage, validated: Option<nat>, pending: seq<Test>, successes: set<Test>)

  datatype Input =
    | Edit(values: Values, badFields: nat)
    | TestClicked
    | Replied(test: nat, reply: Reply)
    | ContinueClicked

  /** validate: a fresh nonce, one more for each field with outer spaces. */
  function NextNonce(error: nat, badFields: nat): nat {
    (if error != 0 then error + 1 else 1) + badFields
  }

  /** componentWillReceiveProps: a changed nonce invalidates an earlier validation. */
  function Received(f: Form, error: nat): Form {
    if f.validated.Some? && f.validated.value != 0 && f.validated.value != error
    then f.(error := error, stage := Untested) else f.(error := error)
  }

  function Answered(f: Form, t: Test, reply: Reply): Form {
    match reply
    case Accepted => f.(stage := Valid, validated := Some(t.version), successes := f.successes + {t})
    case Refused => f.(stage := Invalid)
    case Failed => f.(stage := Invalid)
  }

  function Step(f: Form, i: Input): Form {
    match i
    case Edit(values, badFields) => Received(f.(values := values), NextNonce(f.error, badFields))
    case TestClicked => f.(stage := Untested, pending := f.pending + [Test(f.error, f.values)])
    case Replied(n, reply) =>
      if n < |f.pending| then Answered(f.(pending := f.pending[..n] + f.pending[n + 1..]), f.pending[n], reply) else f
    case ContinueClicked => if ContinueEnabled(f) then f.(stage := Updating) else f
  }

  function Run(f: Form, inputs: seq<Input>): Form
    decreases |inputs|
  {
    if inputs == [] then f else Run(Step(f, inputs[0]), inputs[1..])
  }

  /** The form as first shown: validated once. */
  function Opened(values: Values, badFields: nat): Form {
    Form(values, NextNonce(0, badFields), Untested, None, [], {})
  }

  /** The button is shown in the valid stage and disabled unless the validated version is current. */
  predicate ContinueEnabled(f: Form) {
    f.stage == Valid && f.validated.Some? && f.validated.value != 0 && f.validated.value == f.error
  }

  /** Every test carries the values that the form had at its nonce; older nonces are smaller. */
  ghost predicate FormInv(f: Form) {
    && f.error > 0
    && (forall t :: t in f.pending || t in f.successes ==>
          0 < t.version <= f.error && (t.version == f.error ==> t.values == f.values))
    && (forall v :: f.validated == Some(v) ==> exists t :: t in f.successes && t.version == v)
    && (f.stage in {Valid, Updating} ==> f.validated.Some?)
    && (f.stage == Updating ==> f.validated == Some(f.error))
  }

  lemma StepKeepsInv(f: Form, i: Input)
    requires FormInv(f)
    ensures FormInv(Step(f, i))
    ensures f.error <= Step(f, i).error
    ensures i.Edit? <==> f.error < Step(f, i).error
  {
    match i
    case Edit(values, badFields) =>
    case TestClicked =>
      var f' := Step(f, i);
      forall t | t in f'.pending ensures t in f.pending || t == Test(f.error, f.values) {}
    case Replied(n, reply) =>
      if n < |f.pending| {
        var t := f.pending[n];
        var f' := Step(f, i);
        assert t in f.pending;
        forall u | u in f'.pending ensures u in f.pending {}
        assert reply.Accepted? ==> t in f'.successes;
      }
    case ContinueClicked =>
  }

  lemma {:induction false} RunKeepsInv(f: Form, inputs: seq<Input>)
    requires FormInv(f)
    ensures FormInv(Run(f, inputs))
    decreases |inputs|
  {
    if inputs != [] {
      StepKeepsInv(f, inputs[0]);
      RunKeepsInv(Step(f, inputs[0]), inputs[1..]);
    }
  }

  /** The values entered last. */
  function LastValues(values: Values, inputs: seq<Input>): Values
    decreases |inputs|
  {
    if inputs == [] then values
    else LastValues(if inputs[0].Edit? then inputs[0].values else values, inputs[1..])
  }

  /** One for every edit, and one for every field with outer spaces in it. */
  function Bumps(inputs: seq<Input>): nat {
    if inputs == [] then 0 else (if inputs[0].Edit? then 1 + inputs[0].badFields else 0) + Bumps(inputs[1..])
  }

  lemma {:induction false} RunCounts(f: Form, inputs: seq<Input>)
    requires f.error > 0
    ensures Run(f, inputs).error == f.error + Bumps(inputs) && Run(f, inputs).values == LastValues(f.values, inputs)
    decreases |inputs|
  {
    if inputs != [] {
      RunCounts(Step(f, inputs[0]), inputs[1..]);
    }
  }

  /** After every run the form has the values entered last, and the nonce has counted the edits and the
      fields with outer spaces, from the first validation on. */
  lemma NonceCounts(values: Values, badFields: nat, inputs: seq<Input>)
    ensures var f := Run(Opened(values, badFields), inputs);
      f.error == 1 + badFields + Bumps(inputs) && f.values == LastValues(values, inputs)
  {
    RunCounts(Opened(values, badFields), inputs);
  }

  /** Over every interleaving of edits, tests and late replies: Continue is enabled, and the update
      stage shown, only if a test of exactly the current values was accepted at the current version. */
  lemma ContinueOnlyAfterTest(values: Values, badFields: nat, inputs: seq<Input>)
    ensures var f := Run(Opened(values, badFields), inputs);
      ContinueEnabled(f) || f.stage == Updating ==> Test(f.error, f.values) in f.successes
  {
    RunKeepsInv(Opened(values, badFields), inputs);
  }

  /** After any input Continue is enabled if and only if the input was the accepted reply to a test of the
      current version; a reply that belongs to no test changes nothing. The update stage is reached by
      clicking it while it is enabled, and in no other way. */
  lemma EnabledExactly(f: Form, i: Input)
    requires FormInv(f)
    ensures ContinueEnabled(Step(f, i)) <==>
            && i.Replied?
            && if i.test < |f.pending| then i.reply == Accepted && f.pending[i.test].version == f.error
               else ContinueEnabled(f)
    ensures Step(f, i).stage == Updating <==> (i.ContinueClicked? && ContinueEnabled(f)) ||
                                              (f.stage == Updating && Idle(f, i))
  {
    if i.Replied? && i.test < |f.pending| {
      assert f.pending[i.test] in f.pending;
    }
  }

  /** An input that does nothing. */
  predicate Idle(f: Form, i: Input) {
    i.ContinueClicked? || (i.Replied? && i.test >= |f.pending|)
  }

  /** The good case: after any history, a test that is accepted before anything else happens enables
      Continue, for the values on the form, and a click then starts the update. */
  lemma AcceptedTestEnables(values: Values, badFields: nat, past: seq<Input>)
    ensures var f := Run(Opened(values, badFields), past);
      var tested := Run(f, [TestClicked, Replied(|f.pending|, Accepted)]);
      && ContinueEnabled(tested) && tested.values == f.values && Test(f.error, f.values) in tested.successes
      && Step(tested, ContinueClicked).stage == Updating
  {
    var f := Run(Opened(values, badFields), past);
    RunKeepsInv(Opened(values, badFields), past);
    var n := |f.pending|;
    var asked := Step(f, TestClicked);
    StepKeepsInv(f, TestClicked);
    assert asked.pending[n] == Test(f.error, f.values);
    EnabledExactly(asked, Replied(n, Accepted));
    var inputs := [TestClicked, Replied(n, Accepted)];
    assert inputs[1..] == [Replied(n, Accepted)] && inputs[1..][1..] == [];
    assert Run(asked, [Replied(n, Accepted)]) == Step(asked, Replied(n, Accepted));
  }

  /** A late reply after an edit shows the stale result but cannot enable the button. */
  lemma LateReplyStaysDisabled(f: Form, n: nat, values: Values, badFields: nat)
    requires FormInv(f) && n < |f.pending|
    ensures !ContinueEnabled(Step(Step(f, Edit(values, badFields)), Replied(n, Accepted)))
  {
    assert f.pending[n] in f.pending;
  }
}

/** The form component: the same steps on fields. */
module LdapFormComponent {
  import opened Options
  import opened LdapFormModel

  class LDAPs {
    var values: Values
    var error: nat
    var stateMachine: Stage
    var validatedVersion: Option<nat>
    var pending: seq<Test>
    ghost var successes: set<Test>

    ghost function State(): Form
      reads this
    {
      Form(values, error, stateMachine, validatedVersion, pending, successes)
    }

    constructor (values: Values, badFields: nat)
      ensures State() == Opened(values, badFields)
    {
      this.values, error := values, 1 + badFields;
      stateMachine, validatedVersion, pending, successes := Untested, None, [], {};
    }

    method OnEdit(next: Values, badFields: nat)
      modifies this
      ensures State() == Step(old(State()), Edit(next, badFields))
    {
      values := next;
      error := (if error != 0 then error + 1 else 1) + badFields;
      if validatedVersion.Some? && validatedVersion.value != 0 && validatedVersion.value != error {
        stateMachine := Untested;
      }
    }

    method OnTest()
      modifies this
      ensures State() == Step(old(State()), TestClicked)
    {
      stateMachine := Untested;
      pending := pending + [Test(error, values)];
    }

    method OnReply(n: nat, reply: Reply)
      requires n < |pending|
      modifies this
      ensures State() == Step(old(State()), Replied(n, reply))
    {
      var test := pending[n];
      pending := pending[..n] + pending[n + 1..];
      match reply
      case Accepted =>
        stateMachine, validatedVersion := Valid, Some(test.version);
        successes := successes + {test};
      case _ =>
        stateMachine := Invalid;
    }

    method OnContinue()
      requires ContinueEnabled(State())
      modifies this
      ensures State() == Step(old(State()), ContinueClicked)
    {
      stateMachine := Updating;
    }
  }
}
