/**
 What one agent answers, said of the answers themselves: which response a directive gets and
 when, what it leaves behind, and which verifier has the say.
 */
module AgentLaws {
  import opened Wrappers
  import P = Ports
  import opened AgentMachine
  import opened AgentTraces

  // ----- which verifier judges a run -----

  predicate NamesVerifier(run: RunPayload) {
    run.verifier.Some? && run.verifier.value != ""
  }

  /** A callable is registered under the name, and this is what it makes of the value. */
  predicate JudgedAs(world: World, s: State, name: string, value: Value, verdict: Verdict) {
    name in s.registry && s.registry[name].callable.Some?
    && world.judge(s.registry[name].callable.value, value) == verdict
  }

  predicate NotRegistered(s: State, name: string) {
    name in s.registry ==> s.registry[name].callable.None?
  }

  /** The value passes: under the name the directive gives, else under the agent's default, if it has one. */
  predicate Passes(world: World, s: State, run: RunPayload, value: Value) {
    if NamesVerifier(run) then JudgedAs(world, s, run.verifier.value, value, Accepts)
    else s.verifier.Some? ==> JudgedAs(world, s, s.verifier.value, value, Accepts)
  }

  predicate Fails(world: World, s: State, run: RunPayload, value: Value, verdict: Verdict) {
    if NamesVerifier(run) then JudgedAs(world, s, run.verifier.value, value, verdict)
    else s.verifier.Some? && JudgedAs(world, s, s.verifier.value, value, verdict)
  }

  predicate HasNoJudge(s: State, run: RunPayload) {
    if NamesVerifier(run) then NotRegistered(s, run.verifier.value)
    else s.verifier.Some? && NotRegistered(s, s.verifier.value)
  }

  lemma AnswerIgnoresDefault(
      world: World, s: State, d: Directive, name: string, value: Value, other: Option<string>)
    requires d.body.Run? && NamesVerifier(d.body.run)
    ensures Answer(world, s.(verifier := other), d, name, value)
      == Answer(world, s, d, name, value).(state := Answer(world, s, d, name, value).state.(verifier := other))
  {
    assert Verify(world, s.registry, d.body.run.verifier, value)
      == Verify(world, s.(verifier := other).registry, d.body.run.verifier, value);
  }

  /** A directive that names a verifier is answered alike under every default. */
  lemma NamedVerifierHasTheSay(world: World, s: State, d: Directive, other: Option<string>)
    requires d.body.Run? && NamesVerifier(d.body.run)
    ensures RunStep(world, s.(verifier := other), d).effects == RunStep(world, s, d).effects
    ensures RunStep(world, s.(verifier := other), d).state == RunStep(world, s, d).state.(verifier := other)
  {
    if Invokes(world, s, d) {
      var name, charged := d.body.run.task.value, Charged(s, false);
      assert Charged(s.(verifier := other), false) == charged.(verifier := other);
      var outcome := world.run(ResolveCallable(s.registry, name).value, d.body.run.args);
      if outcome.Returned? { AnswerIgnoresDefault(world, charged, d, name, outcome.value, other); }
    }
  }

  /** What was done for one directive is what was done for the other. */
  ghost predicate DoneAlike(effects: seq<Effect>, d: Directive, others: seq<Effect>, d': Directive) {
    |effects| == |others| && forall i :: 0 <= i < |effects| ==>
      if effects[i].Invoked? then effects[i].fingerprint == d && others[i] == Invoked(d', effects[i].answered)
      else others[i] == effects[i]
  }

  /** A directive that names no verifier is answered as the same one that names the default. */
  lemma DefaultVerifierStandsIn(world: World, s: State, d: Directive, d': Directive)
    requires d.body.Run? && !NamesVerifier(d.body.run)
    requires d' == d.(body := Run(d.body.run.(verifier := s.verifier)))
    requires d !in s.results && d' !in s.results
    ensures DoneAlike(RunStep(world, s, d).effects, d, RunStep(world, s, d').effects, d')
  {
    if Invokes(world, s, d) {
      var name := d.body.run.task.value;
      var outcome := world.run(ResolveCallable(s.registry, name).value, d.body.run.args);
      if outcome.Returned? { AnswersAlike(world, Charged(s, false), d, d', name, outcome.value); }
    }
  }

  lemma AnswersAlike(world: World, s: State, d: Directive, d': Directive, name: string, value: Value)
    requires d.body.Run? && !NamesVerifier(d.body.run)
    requires d' == d.(body := Run(d.body.run.(verifier := s.verifier)))
    ensures DoneAlike(Answer(world, s, d, name, value).effects, d, Answer(world, s, d', name, value).effects, d')
  {
    match Verify(world, s.registry, s.verifier, value)
    case VerifierRaised(message) =>
    case VerifierCrashed =>
    case Accepts =>
    case Rejects =>
  }

  // ----- what a run is answered -----

  /** The guard lets a run or a spawn through. */
  predicate HasRoom(s: State, spawn: bool) {
    s.guard.Some? && s.guard.value.envelope.Some? ==>
      var e := s.guard.value.envelope.value;
      (e.stepLimit.Some? ==> s.guard.value.steps < e.stepLimit.value)
      && (spawn && e.childLimit.Some? ==> s.guard.value.children < e.childLimit.value)
  }

  /** The bound that is used up; the step limit is named first. */
  predicate UsedUp(s: State, spawn: bool, reason: Reason) {
    s.guard.Some? && s.guard.value.envelope.Some?
    && var e, g := s.guard.value.envelope.value, s.guard.value;
      match reason
      case StepLimit(n) => e.stepLimit == Some(n) && n <= g.steps
      case ChildLimit(n) =>
        spawn && e.childLimit == Some(n) && n <= g.children && (e.stepLimit.Some? ==> g.steps < e.stepLimit.value)
      case _ => false
  }

  /** Nothing stands between the directive and its task. */
  predicate Reaches(s: State, d: Directive, callable: Callable)
    requires d.body.Run?
  {
    d.cid !in s.usedKeys && HasRoom(s, false) && d.body.run.task.Some?
    && d.body.run.task.value in s.registry && s.registry[d.body.run.task.value].callable == Some(callable)
  }

  /** The task is run on the directive's arguments and returns the value. */
  ghost predicate Returns(world: World, s: State, d: Directive, value: Value)
    requires d.body.Run?
  {
    exists callable :: Reaches(s, d, callable) && world.run(callable, d.body.run.args) == Returned(value)
  }

  ghost predicate Raises(world: World, s: State, d: Directive, message: string)
    requires d.body.Run?
  {
    exists callable :: Reaches(s, d, callable) && world.run(callable, d.body.run.args) == TaskRaised(message)
  }

  /** Why a run that is new here is answered with an error. */
  ghost predicate RunFailsWith(world: World, s: State, d: Directive, reason: Reason)
    requires d.body.Run?
  {
    match reason
    case ReusedId => d.cid in s.usedKeys
    case NoTask => d.cid !in s.usedKeys && d.body.run.task.None?
    case StepLimit(_) => d.cid !in s.usedKeys && d.body.run.task.Some? && UsedUp(s, false, reason)
    case UnknownTask(name) =>
      d.cid !in s.usedKeys && HasRoom(s, false) && d.body.run.task == Some(name) && NotRegistered(s, name)
    case TaskFailed(name, message) => d.body.run.task == Some(name) && Raises(world, s, d, message)
    case VerificationFailed(name) =>
      d.body.run.task == Some(name) && exists value ::
        Returns(world, s, d, value) && (HasNoJudge(s, d.body.run) || Fails(world, s, d.body.run, value, Rejects))
    case VerifierError(message) =>
      exists value :: Returns(world, s, d, value) && Fails(world, s, d.body.run, value, VerifierRaised(message))
    case _ => false
  }

  /**
   A run that is new here is answered with a value, verified, exactly when its task returned
   it and it passes, and with an error exactly for these reasons; it gets no other answer.
   */
  lemma RunAnswersExactly(world: World, s: State, d: Directive, r: Response)
    requires d.body.Run? && d !in s.results
    ensures Sent(r) in RunStep(world, s, d).effects <==> IsValueOfRun(world, s, d, r) || IsErrorOfRun(world, s, d, r)
    ensures (forall callable :: !Reaches(s, d, callable)) ==> RunStep(world, s, d).state == s
  {
    if Invokes(world, s, d) {
      var callable := ResolveCallable(s.registry, d.body.run.task.value).value;
      assert Reaches(s, d, callable);
      InvokedRunAnswers(world, s, d, r, callable);
    } else {
      RefusedRunAnswers(world, s, d, r);
    }
  }

  ghost predicate IsValueOfRun(world: World, s: State, d: Directive, r: Response)
    requires d.body.Run?
  {
    r == Response(d.cid, ResultResponse, r.value, true, s.identity, None)
    && Returns(world, s, d, r.value) && Passes(world, s, d.body.run, r.value)
  }

  ghost predicate IsErrorOfRun(world: World, s: State, d: Directive, r: Response)
    requires d.body.Run?
  {
    r.error.Some? && r == Response(d.cid, ErrorResponse, P.Null, false, s.identity, r.error)
    && RunFailsWith(world, s, d, r.error.value)
  }

  lemma RefusedRunAnswers(world: World, s: State, d: Directive, r: Response)
    requires d.body.Run? && d !in s.results && !Invokes(world, s, d)
    ensures Sent(r) in RunStep(world, s, d).effects <==> IsValueOfRun(world, s, d, r) || IsErrorOfRun(world, s, d, r)
  {
    forall callable
      ensures !Reaches(s, d, callable)
    {
    }
  }

  lemma InvokedRunAnswers(world: World, s: State, d: Directive, r: Response, callable: Callable)
    requires d.body.Run? && Invokes(world, s, d)
    requires ResolveCallable(s.registry, d.body.run.task.value) == Some(callable)
    ensures Sent(r) in RunStep(world, s, d).effects <==> IsValueOfRun(world, s, d, r) || IsErrorOfRun(world, s, d, r)
  {
    assert Reaches(s, d, callable);
    var outcome := world.run(callable, d.body.run.args);
    match outcome
    case TaskRaised(message) =>
      assert Raises(world, s, d, message);
      assert forall value :: !Returns(world, s, d, value);
      assert forall m :: Raises(world, s, d, m) ==> m == message;
    case Returned(value) =>
      assert Returns(world, s, d, value);
      assert forall v :: Returns(world, s, d, v) ==> v == value;
      assert forall m :: !Raises(world, s, d, m);
      ReturnedRunAnswers(world, s, d, d.body.run.task.value, value, r);
  }

  lemma ReturnedRunAnswers(world: World, s: State, d: Directive, name: string, value: Value, r: Response)
    requires d.body.Run?
    ensures Sent(r) in Answer(world, Charged(s, false), d, name, value).effects <==>
      || (r == Response(d.cid, ResultResponse, value, true, s.identity, None) && Passes(world, s, d.body.run, value))
      || (r.error.Some? && r == Response(d.cid, ErrorResponse, P.Null, false, s.identity, r.error)
          && match r.error.value
             case VerificationFailed(n) =>
               n == name && (HasNoJudge(s, d.body.run) || Fails(world, s, d.body.run, value, Rejects))
             case VerifierError(message) => Fails(world, s, d.body.run, value, VerifierRaised(message))
             case _ => false)
  {
    VerdictSays(world, s, d.body.run, value);
    match Verify(world, Charged(s, false).registry, VerifierFor(Charged(s, false), d.body.run), value)
    case VerifierRaised(message) =>
    case VerifierCrashed =>
    case Accepts =>
    case Rejects =>
  }

  lemma VerdictSays(world: World, s: State, run: RunPayload, value: Value)
    ensures var verdict := Verify(world, s.registry, VerifierFor(s, run), value);
      && (verdict == Accepts <==> Passes(world, s, run, value))
      && (verdict == Rejects <==> HasNoJudge(s, run) || Fails(world, s, run, value, Rejects))
      && forall message ::
        verdict == VerifierRaised(message) <==> Fails(world, s, run, value, VerifierRaised(message))
  {
  }

  /** The response is an answer to keep: a value, or the verifier's rejection of one. */
  predicate IsVerdict(r: Response) {
    r.kind == ResultResponse || (r.error.Some? && r.error.value.VerificationFailed?)
  }

  /**
   A run that reaches its task costs one step, and its answer is kept under the directive when
   it is a verdict; any other answer, or none, leaves nothing behind.
   */
  lemma RunLeaves(world: World, s: State, d: Directive, callable: Callable)
    requires d.body.Run? && d !in s.results && Reaches(s, d, callable)
    ensures var step := RunStep(world, s, d);
      && step.state.(guard := s.guard, results := s.results, usedKeys := s.usedKeys) == s
      && step.state.guard ==
        (if s.guard.Some? then Some(s.guard.value.(steps := s.guard.value.steps + 1)) else None)
      && (forall r :: Sent(r) in step.effects && IsVerdict(r) ==>
            step.state.results == s.results[d := r] && step.state.usedKeys == s.usedKeys + {d.cid})
      && ((forall r :: Sent(r) in step.effects ==> !IsVerdict(r)) ==>
            step.state.results == s.results && step.state.usedKeys == s.usedKeys)
  {
    var name, charged := d.body.run.task.value, Charged(s, false);
    assert Invokes(world, s, d);
    var outcome := world.run(callable, d.body.run.args);
    if outcome.Returned? { AnswerLeaves(world, charged, d, name, outcome.value); }
  }

  lemma AnswerLeaves(world: World, s: State, d: Directive, name: string, value: Value)
    requires d.body.Run?
    ensures var step := Answer(world, s, d, name, value);
      && step.state.(results := s.results, usedKeys := s.usedKeys) == s
      && (forall r :: Sent(r) in step.effects && IsVerdict(r) ==>
            step.state.results == s.results[d := r] && step.state.usedKeys == s.usedKeys + {d.cid})
      && ((forall r :: Sent(r) in step.effects ==> !IsVerdict(r)) ==>
            step.state.results == s.results && step.state.usedKeys == s.usedKeys)
  {
    match Verify(world, s.registry, VerifierFor(s, d.body.run), value)
    case VerifierRaised(message) =>
    case VerifierCrashed =>
    case Accepts => assert Sent(Produced(s, d.cid, value)) in Answer(world, s, d, name, value).effects;
    case Rejects =>
      assert Sent(Error(s, d.cid, VerificationFailed(name))) in Answer(world, s, d, name, value).effects;
  }

  // ----- what a spawn is answered -----

  predicate MayBecomeChild(world: World, s: State, d: Directive)
    requires d.body.Spawn?
  {
    (d.body.kind.Some? ==> d.body.kind.value in s.childKinds) && world.mayBind(d.body.endpoint)
  }

  predicate SpawnFailsWith(world: World, s: State, d: Directive, reason: Reason)
    requires d.body.Spawn?
  {
    if d.body.identity == "" || d.body.endpoint == "" then reason == BadSpawn
    else if !HasRoom(s, true) then UsedUp(s, true, reason)
    else
      d.body.identity !in s.children
      && match reason
         case UndeclaredKind(kind) => d.body.kind == Some(kind) && kind !in s.childKinds
         case EndpointRefused(endpoint) =>
           (d.body.kind.Some? ==> d.body.kind.value in s.childKinds) && endpoint == d.body.endpoint
           && !world.mayBind(endpoint)
         case _ => false
  }

  /**
   A spawn makes a child exactly when there is room, the name is new and nothing refuses it;
   a name that is there already is answered ok and costs nothing; a refusal that comes after
   the guard was charged keeps the charge.
   */
  lemma SpawnAnswersExactly(world: World, s: State, d: Directive, r: Response)
    requires d.body.Spawn?
    ensures var step, child := SpawnStep(world, s, d), d.body.identity;
      var isOpen := child != "" && d.body.endpoint != "" && HasRoom(s, true);
      && (Sent(r) in step.effects <==>
           || (r == Response(d.cid, OkResponse, P.Null, true, s.identity, None)
               && isOpen && (child in s.children || MayBecomeChild(world, s, d)))
           || (r.error.Some? && r == Response(d.cid, ErrorResponse, P.Null, false, s.identity, r.error)
               && SpawnFailsWith(world, s, d, r.error.value)))
      && (Spawned(child) in step.effects <==> isOpen && child !in s.children && MayBecomeChild(world, s, d))
      && step.state.children == s.children + (if Spawned(child) in step.effects then {child} else {})
      && step.state.(guard := s.guard, children := s.children) == s
      && step.state.guard == if s.guard.Some? && isOpen && child !in s.children
           then Some(s.guard.value.(steps := s.guard.value.steps + 1, children := s.guard.value.children + 1))
           else s.guard
  {
  }

  // ----- what a configure sets -----

  /** The registry holds the catalog's entries under these names, and what it held under all others. */
  ghost predicate CopiesOver(
      after: map<string, Entry>, before: map<string, Entry>, names: seq<string>, catalog: map<string, Entry>)
  {
    forall name :: if name in names then name in after && name in catalog && after[name] == catalog[name]
      else (name in after <==> name in before) && (name in after ==> after[name] == before[name])
  }

  /** The names before the first that the catalog does not have are copied over. */
  lemma {:induction false} RegistersUpTo(registry: map<string, Entry>, names: seq<string>, catalog: map<string, Entry>)
    returns (n: nat)
    ensures var (after, failure) := RegisterAll(registry, names, catalog);
      && n <= |names| && (forall i :: 0 <= i < n ==> names[i] in catalog)
      && CopiesOver(after, registry, names[..n], catalog)
      && (if n == |names| then failure.None?
          else names[n] !in catalog && failure == Some(UnknownName(names[n])))
    decreases |names|
  {
    n := 0;
    if names != [] && names[0] in catalog {
      var m := RegistersUpTo(registry[names[0] := catalog[names[0]]], names[1..], catalog);
      n := m + 1;
      assert names[..n] == [names[0]] + names[1..][..m];
    }
  }

  /** Both lists registered one after the other, as _configure does. */
  function RegisterBoth(registry: map<string, Entry>, c: ConfigurePayload, catalog: map<string, Entry>)
      : (map<string, Entry>, Option<Reason>)
  {
    var (after, failure) := RegisterAll(registry, c.tasks, catalog);
    if failure.None? then RegisterAll(after, c.verifiers, catalog) else (after, failure)
  }

  /** The names up to n are registered, and n is the end or the first that the catalog does not have. */
  ghost predicate RegisteredUpTo(
      after: map<string, Entry>, failure: Option<Reason>, before: map<string, Entry>, names: seq<string>,
      catalog: map<string, Entry>, n: nat)
  {
    && n <= |names| && (forall i :: 0 <= i < n ==> names[i] in catalog)
    && CopiesOver(after, before, names[..n], catalog)
    && (if n == |names| then failure == None else names[n] !in catalog && failure == Some(UnknownName(names[n])))
  }

  lemma BothAreRegistered(registry: map<string, Entry>, c: ConfigurePayload, catalog: map<string, Entry>)
    returns (n: nat)
    ensures var (after, failure) := RegisterBoth(registry, c, catalog);
      RegisteredUpTo(after, failure, registry, c.tasks + c.verifiers, catalog, n)
  {
    var names := c.tasks + c.verifiers;
    n := RegistersUpTo(registry, c.tasks, catalog);
    if n == |c.tasks| {
      var m := RegistersUpTo(RegisterAll(registry, c.tasks, catalog).0, c.verifiers, catalog);
      n := n + m;
      assert names[..n] == c.tasks[..|c.tasks|] + c.verifiers[..m];
    } else {
      assert names[..n] == c.tasks[..n];
    }
  }

  /**
   A configure with negative bounds changes nothing. Any other grants its bounds afresh, or
   keeps the guard if it brings none; clears, sets or keeps the verifier; and registers the
   tasks and then the verifiers, up to the first name that the catalog does not have.
   */
  lemma ConfigureSets(s: State, c: ConfigurePayload, catalog: map<string, Entry>) returns (n: nat)
    ensures var (step, failure) := ConfigureStep(s, c, catalog);
      if HasNegativeBound(c) then step == Step(s, []) && failure == Some(BadEnvelope)
      else
        && RegisteredUpTo(step.state.registry, failure, s.registry, c.tasks + c.verifiers, catalog, n)
        && step.state.guard == (if c.envelope.Some? then Some(Guard(c.envelope.value, 0, 0)) else s.guard)
        && (c.clearVerifier ==> step.state.verifier == None)
        && (!c.clearVerifier && c.verifier.Some? ==> step.state.verifier == c.verifier)
        && (!c.clearVerifier && c.verifier.None? ==> step.state.verifier == s.verifier)
        && step.state.(registry := s.registry, guard := s.guard, verifier := s.verifier) == s
        && step.effects == if c.envelope.Some? then [Granted] else []
  {
    n := BothAreRegistered(s.registry, c, catalog);
    if !HasNegativeBound(c) { ConfigureParts(s, c, catalog); }
  }

  lemma ConfigureParts(s: State, c: ConfigurePayload, catalog: map<string, Entry>)
    requires !HasNegativeBound(c)
    ensures var (step, failure) := ConfigureStep(s, c, catalog);
      && (step.state.registry, failure) == RegisterBoth(s.registry, c, catalog)
      && step.state.guard == (if c.envelope.Some? then Some(Guard(c.envelope.value, 0, 0)) else s.guard)
      && step.state.verifier == (if c.clearVerifier then None else if c.verifier.Some? then c.verifier else s.verifier)
      && step.state.(registry := s.registry, guard := s.guard, verifier := s.verifier) == s
      && step.effects == if c.envelope.Some? then [Granted] else []
  {
    GrantSays(s, c);
  }

  lemma GrantSays(s: State, c: ConfigurePayload)
    requires !HasNegativeBound(c)
    ensures Grant(s, c) ==
      if c.envelope.None? then Some(Step(s, []))
      else Some(Step(s.(guard := Some(Guard(c.envelope.value, 0, 0))), [Granted]))
  {
    if c.envelope.Some? && c.envelope.value.Some? { assert ValidEnvelope(c.envelope.value.value); }
  }

  predicate HasNegativeBound(c: ConfigurePayload) {
    c.envelope.Some? && c.envelope.value.Some?
    && var e := c.envelope.value.value;
      (e.stepLimit.Some? && e.stepLimit.value < 0) || (e.childLimit.Some? && e.childLimit.value < 0)
  }

  // ----- what is registered resolves -----

  /** What a directive is answered here, and the agent after it. */
  ghost predicate Answers(world: World, s: State, body: Body, after: State, r: Response) {
    forall cid, catalog :: EventStep(world, s, FromParent(Directive(cid, body), catalog))
      == Step(after, [Sent(r.(cid := cid))])
  }

  /**
   A name that was registered with a source resolves to it, without one to an error, and can
   no longer be run; every other name resolves, and can be run, as before.
   */
  lemma RegisteredResolves(world: World, s: State, name: string, url: string, other: string)
    requires s.alive && name != "" && other != name
    ensures var ok := Response("", OkResponse, P.Null, true, s.identity, None);
      exists t :: Answers(world, s, Register(name, url), t, ok)
        && ResolvesTo(world, t, name, if url == "" then None else Some(url))
        && (other in s.registry && other != "" ==>
             ResolvesTo(world, t, other,
               if s.registry[other].sourceUrl == "" then None else Some(s.registry[other].sourceUrl)))
        && NotRegistered(t, name) && t.registry - {name} == s.registry - {name} && t.(registry := s.registry) == s
  {
    var ok := Response("", OkResponse, P.Null, true, s.identity, None);
    var t := s.(registry := s.registry[name := Entry(None, url)]);
    assert Answers(world, s, Register(name, url), t, ok);
  }

  /** Asking for the name changes nothing, and is answered with its source location or the lack of one. */
  ghost predicate ResolvesTo(world: World, s: State, name: string, url: Option<string>) {
    Answers(world, s, Resolve(name), s,
      match url
      case Some(location) => Response("", ResultResponse, P.Str(location), true, s.identity, None)
      case None => Response("", ErrorResponse, P.Null, false, s.identity, Some(NoSource(name))))
  }

  function ErrorOf(s: State, reason: Reason): Response {
    Response("", ErrorResponse, P.Null, false, s.identity, Some(reason))
  }

  /** An empty name is refused, an unknown one does not resolve; neither changes anything. */
  lemma UnknownDoesNotResolve(world: World, s: State, name: string, url: string)
    requires s.alive && name !in s.registry
    ensures Answers(world, s, Register("", url), s, ErrorOf(s, NoName))
    ensures Answers(world, s, Resolve(""), s, ErrorOf(s, NoName))
    ensures name != "" ==> Answers(world, s, Resolve(name), s, ErrorOf(s, UnknownCapability(name)))
  {
  }

  // ----- pings, garbage and kills -----

  lemma PingChangesNothing(world: World, s: State)
    requires s.alive
    ensures Answers(world, s, Ping, s, Response("", OkResponse, P.Null, true, s.identity, None))
    ensures EventStep(world, s, Malformed) == Step(s, [Sent(ErrorOf(s, MalformedDirective).(cid := "malformed"))])
  {
  }

  /** After a kill, from its parent or in a directive, an agent answers nothing, ever. */
  lemma {:induction false} KilledIsSilent(world: World, s: State, kill: Event, events: seq<Event>)
    requires kill == KilledByParent || (kill.FromParent? && kill.directive.body.Kill?)
    ensures var dead := EventStep(world, s, kill);
      && dead.effects == [] && !dead.state.alive
      && Runs(world, dead.state, events) == Step(dead.state, [])
      && (s.alive ==> dead.state.children == {})
    decreases |events|
  {
    if events != [] { KilledIsSilent(world, s, kill, events[..|events| - 1]); }
  }

  // ----- what goes down and what comes up -----

  /**
   A run that names a child goes to that child, whole but for the name, and is owed an answer;
   if there is no such child it is refused, and not done here either.
   */
  lemma NamedChildGetsTheRun(
      world: World, s: State, cid: string, run: RunPayload, child: string, catalog: map<string, Entry>)
    requires s.alive && run.child == Some(child) && child != ""
    ensures EventStep(world, s, FromParent(Directive(cid, Run(run)), catalog)) ==
      if child in s.children then
        Step(s.(delegated := s.delegated[cid := child]),
          [Forwarded(child, Directive(cid, Run(RunPayload(run.task, run.args, run.verifier, None))))])
      else Step(s, [Sent(ErrorOf(s, UnknownChild(child)).(cid := cid))])
  {
  }

  /** A run that names no child, or "", is answered here, as it stands. */
  lemma OthersAreAnsweredHere(world: World, s: State, d: Directive, catalog: map<string, Entry>)
    requires s.alive && d.body.Run? && (d.body.run.child == None || d.body.run.child == Some(""))
    ensures EventStep(world, s, FromParent(d, catalog)) == RunStep(world, s, d)
  {
  }

  /** What the protocol allows a response to say. */
  predicate WellFormed(r: Response) {
    r.cid != "" && (r.kind == ResultResponse ==> r.verified) && (r.kind == ErrorResponse ==> !r.verified)
  }

  /** What the agent takes a child to have said. */
  function Heard(s: State, child: string, r: Response): Response {
    if WellFormed(r) then r else ErrorOf(s, InvalidResponse(child)).(cid := r.cid)
  }

  /**
   A child's response goes up once for each directive it is owed for. A verified value goes up
   unchanged if there is no default verifier or it accepts the value; a failing one goes up as
   an error; and nothing goes up when the verifier raises.
   */
  lemma ResponsesGoUp(world: World, s: State, child: string, r: Response)
    requires s.alive
    ensures var step, heard := EventStep(world, s, FromChild(child, Message(r))), Heard(s, child, r);
      if r.cid !in s.delegated then step == Step(s, [])
      else
        && step.state == s.(delegated := s.delegated - {r.cid})
        && (!heard.verified || s.verifier == None ==> step.effects == [Relayed(heard)])
        && (heard.verified && s.verifier.Some? ==>
             var name := s.verifier.value;
             && (JudgedAs(world, s, name, r.value, Accepts) ==> step.effects == [Relayed(r)])
             && (NotRegistered(s, name) || JudgedAs(world, s, name, r.value, Rejects) ==>
                  step.effects == [Relayed(ErrorOf(s, Demoted(child)).(cid := r.cid))])
             && (NotRegistered(s, name) || JudgedAs(world, s, name, r.value, Accepts)
                 || JudgedAs(world, s, name, r.value, Rejects) || step.effects == []))
  {
  }

  lemma AcksCarryNothing(world: World, s: State, child: string)
    requires s.alive && "" !in s.delegated
    ensures EventStep(world, s, FromChild(child, Ack)) == Step(s, []) == EventStep(world, s, FromChild(child, Garbage))
  {
  }
}
