/**
 One agent of the directive/response tree as a step machine: what it does with a
 directive from its parent, a message from a child, or a configure its parent applies
 in-process. The environment is arbitrary. The objects of module Agents do these steps.
 */
module AgentMachine {
  import opened Wrappers
  import P = Ports

  type Value = P.Value

  type Args = map<string, Value>

  // A registered callable; entries recorded by a register directive carry none.
  type Callable = string

  datatype TaskResult = Returned(value: Value) | TaskRaised(message: string)

  // A verifier that raises one of the errors that dispatch catches ends the directive in an
  // error response; any other error leaves the poll, and nothing is sent.
  datatype Verdict = Accepts | Rejects | VerifierRaised(message: string) | VerifierCrashed

  datatype World = World(
    run: (Callable, Args) -> TaskResult, judge: (Callable, Value) -> Verdict, mayBind: string -> bool)

  datatype Entry = Entry(callable: Option<Callable>, sourceUrl: string)

  /** None bounds are unbounded. */
  datatype Envelope = Envelope(stepLimit: Option<int>, childLimit: Option<int>)

  /** EnvelopeGuard: the granted envelope, if any, and what was used of it. */
  datatype Guard = Guard(envelope: Option<Envelope>, steps: nat, children: nat)

  datatype ResponseKind = OkResponse | ResultResponse | ErrorResponse | TelemetryResponse

  /** What an error text says, up to its wording. */
  datatype Reason =
    | MalformedDirective | BadEnvelope | UnknownName(name: string) | VerifierError(message: string)
    | ReusedId | NoTask | UnknownTask(name: string) | TaskFailed(name: string, message: string)
    | VerificationFailed(name: string) | StepLimit(limit: int) | ChildLimit(limit: int)
    | UnknownChild(name: string) | Demoted(child: string) | MalformedChild | InvalidResponse(child: string)
    | BadSpawn | UndeclaredKind(kind: string) | EndpointRefused(endpoint: string)
    | NoName | UnknownCapability(name: string) | NoSource(name: string)

  datatype Response = Response(
    cid: string, kind: ResponseKind, value: Value, verified: bool, node: string, error: Option<Reason>)

  datatype RunPayload = RunPayload(
    task: Option<string>, args: Args, verifier: Option<string>, child: Option<string>)

  // envelope: absent, an empty grant, or bounds.
  datatype ConfigurePayload = ConfigurePayload(
    envelope: Option<Option<Envelope>>, clearVerifier: bool, verifier: Option<string>,
    tasks: seq<string>, verifiers: seq<string>)

  datatype Body =
    | Configure(configure: ConfigurePayload)
    | Run(run: RunPayload)
    | Spawn(identity: string, endpoint: string, kind: Option<string>)
    | Register(name: string, sourceUrl: string)
    | Resolve(name: string)
    | Ping
    | Kill

  datatype Directive = Directive(cid: string, body: Body)

  // Correlation id, kind and canonical payload; only run directives are cached.
  type Fingerprint = Directive

  datatype ChildMessage = Ack | Message(response: Response) | Garbage

  datatype State = State(
    identity: string, alive: bool, registry: map<string, Entry>, verifier: Option<string>, guard: Option<Guard>,
    results: map<Fingerprint, Response>, usedKeys: set<string>, children: set<string>, childKinds: set<string>,
    delegated: map<string, string>)

  datatype Event =
    | FromParent(directive: Directive, catalog: map<string, Entry>)
    | Malformed
    | FromChild(child: string, message: ChildMessage)
    | ConfiguredByParent(configure: ConfigurePayload, catalog: map<string, Entry>)
    | KilledByParent

  /** What an agent does, in order: messages sent, tasks invoked, children made, envelopes granted. */
  datatype Effect =
    | Sent(response: Response)
    | Relayed(response: Response)
    | Forwarded(child: string, directive: Directive)
    | Invoked(fingerprint: Fingerprint, answered: bool)
    | Spawned(identity: string)
    | Granted

  datatype Step = Step(state: State, effects: seq<Effect>)

  function Initial(identity: string, childKinds: set<string>): State {
    State(identity, true, map[], None, None, map[], {}, {}, childKinds, map[])
  }

  function Error(s: State, cid: string, reason: Reason): Response {
    Response(cid, ErrorResponse, P.Null, false, s.identity, Some(reason))
  }

  function Okay(s: State, cid: string): Response {
    Response(cid, OkResponse, P.Null, true, s.identity, None)
  }

  function Produced(s: State, cid: string, value: Value): Response {
    Response(cid, ResultResponse, value, true, s.identity, None)
  }

  // ----- envelopes -----

  predicate ValidEnvelope(e: Envelope) {
    (e.stepLimit.Some? ==> e.stepLimit.value >= 0) && (e.childLimit.Some? ==> e.childLimit.value >= 0)
  }

  /** check_directive for a run or a spawn: the bound that refuses it, the step limit first. */
  function Violation(guard: Guard, spawn: bool): Option<Reason> {
    if guard.envelope.None? then None
    else
      var e := guard.envelope.value;
      if e.stepLimit.Some? && guard.steps >= e.stepLimit.value then Some(StepLimit(e.stepLimit.value))
      else if spawn && e.childLimit.Some? && guard.children >= e.childLimit.value then
        Some(ChildLimit(e.childLimit.value))
      else None
  }

  function RecordStep(guard: Guard, spawn: bool): Guard {
    Guard(guard.envelope, guard.steps + 1, guard.children + if spawn then 1 else 0)
  }

  function Refusal(s: State, spawn: bool): Option<Reason> {
    if s.guard.None? then None else Violation(s.guard.value, spawn)
  }

  function Charged(s: State, spawn: bool): State {
    if s.guard.None? then s else s.(guard := Some(RecordStep(s.guard.value, spawn)))
  }

  // ----- verification -----

  function ResolveCallable(registry: map<string, Entry>, name: string): Option<Callable> {
    if name in registry then registry[name].callable else None
  }

  /** _verify: no verifier accepts everything, an unknown one nothing. */
  function Verify(world: World, registry: map<string, Entry>, verifier: Option<string>, value: Value): Verdict {
    match verifier
    case None => Accepts
    case Some(name) =>
      match ResolveCallable(registry, name)
      case None => Rejects
      case Some(callable) => world.judge(callable, value)
  }

  // ----- configure -----

  /** The registry with the catalog's entries copied in, up to the first unknown name. */
  function RegisterAll(registry: map<string, Entry>, names: seq<string>, catalog: map<string, Entry>)
      : (map<string, Entry>, Option<Reason>)
    decreases |names|
  {
    if names == [] then (registry, None)
    else if names[0] !in catalog then (registry, Some(UnknownName(names[0])))
    else RegisterAll(registry[names[0] := catalog[names[0]]], names[1..], catalog)
  }

  function Grant(s: State, c: ConfigurePayload): Option<Step> {
    match c.envelope
    case None => Some(Step(s, []))
    case Some(None) => Some(Step(s.(guard := Some(Guard(None, 0, 0))), [Granted]))
    case Some(Some(e)) =>
      if ValidEnvelope(e) then Some(Step(s.(guard := Some(Guard(Some(e), 0, 0))), [Granted])) else None
  }

  /** _configure: grant, verifier, then names; a bad envelope or an unknown name stops it there. */
  function ConfigureStep(s: State, c: ConfigurePayload, catalog: map<string, Entry>): (Step, Option<Reason>) {
    match Grant(s, c)
    case None => (Step(s, []), Some(BadEnvelope))
    case Some(granted) =>
      var verifier :=
        if c.clearVerifier then None else if c.verifier.Some? then c.verifier else s.verifier;
      var (registry, missing) := RegisterAll(s.registry, c.tasks, catalog);
      var (registry', missing') :=
        if missing.None? then RegisterAll(registry, c.verifiers, catalog) else (registry, missing);
      (Step(granted.state.(verifier := verifier, registry := registry'), granted.effects), missing')
  }

  function ConfigureAnswer(s: State, cid: string, failure: Option<Reason>): Response {
    if failure.None? then Okay(s, cid) else Error(s, cid, failure.value)
  }

  // ----- run -----

  /** payload.get("verifier") or self._verifier */
  function VerifierFor(s: State, run: RunPayload): Option<string> {
    if run.verifier.Some? && run.verifier.value != "" then run.verifier else s.verifier
  }

  /** The task's value judged: an answer is cached, a raising verifier leaves nothing. */
  function Answer(world: World, s: State, d: Directive, name: string, value: Value): Step
    requires d.body.Run?
  {
    match Verify(world, s.registry, VerifierFor(s, d.body.run), value)
    case VerifierRaised(message) => Step(s, [Invoked(d, false), Sent(Error(s, d.cid, VerifierError(message)))])
    case VerifierCrashed => Step(s, [Invoked(d, false)])
    case verdict =>
      var response :=
        if verdict.Accepts? then Produced(s, d.cid, value) else Error(s, d.cid, VerificationFailed(name));
      var cached := s.(results := s.results[d := response], usedKeys := s.usedKeys + {d.cid});
      Step(cached, [Invoked(d, true), Sent(response)])
  }

  /** Why _run_task refuses before it looks the callable up. */
  function RunRefusal(s: State, d: Directive): Option<Reason>
    requires d.body.Run?
  {
    if d.cid in s.usedKeys then Some(ReusedId)
    else if d.body.run.task.None? then Some(NoTask)
    else Refusal(s, false)
  }

  /** _run_task */
  function RunStep(world: World, s: State, d: Directive): Step
    requires d.body.Run?
  {
    if d in s.results then Step(s, [Sent(s.results[d])])
    else if RunRefusal(s, d).Some? then Step(s, [Sent(Error(s, d.cid, RunRefusal(s, d).value))])
    else
      var name := d.body.run.task.value;
      match ResolveCallable(s.registry, name)
      case None => Step(s, [Sent(Error(s, d.cid, UnknownTask(name)))])
      case Some(callable) =>
        var charged := Charged(s, false);
        match world.run(callable, d.body.run.args)
        case TaskRaised(message) => Step(charged, [Invoked(d, false), Sent(Error(s, d.cid, TaskFailed(name, message)))])
        case Returned(value) => Answer(world, charged, d, name, value)
  }

  // ----- spawn -----

  /** Why _spawn refuses once it has charged the envelope. */
  function SpawnRefusal(world: World, s: State, d: Directive): Option<Reason>
    requires d.body.Spawn?
  {
    if d.body.kind.Some? && d.body.kind.value !in s.childKinds then Some(UndeclaredKind(d.body.kind.value))
    else if !world.mayBind(d.body.endpoint) then Some(EndpointRefused(d.body.endpoint))
    else None
  }

  function SpawnStep(world: World, s: State, d: Directive): Step
    requires d.body.Spawn?
  {
    var child := d.body.identity;
    if child == "" || d.body.endpoint == "" then Step(s, [Sent(Error(s, d.cid, BadSpawn))])
    else if Refusal(s, true).Some? then Step(s, [Sent(Error(s, d.cid, Refusal(s, true).value))])
    else if child in s.children then Step(s, [Sent(Okay(s, d.cid))])
    else
      var charged := Charged(s, true);
      match SpawnRefusal(world, s, d)
      case Some(reason) => Step(charged, [Sent(Error(s, d.cid, reason))])
      case None => Step(charged.(children := s.children + {child}), [Spawned(child), Sent(Okay(s, d.cid))])
  }

  // ----- dispatch -----

  function Killed(s: State): State {
    s.(alive := false, children := {})
  }

  function Stripped(d: Directive): Directive
    requires d.body.Run?
  {
    d.(body := Run(d.body.run.(child := None)))
  }

  /** _maybe_delegate: the non-empty child a run directive names. */
  function NamedChild(d: Directive): Option<string> {
    if d.body.Run? && d.body.run.child.Some? && d.body.run.child.value != "" then d.body.run.child else None
  }

  /** _resolve_capability: only an entry with a source location resolves. */
  function Resolved(s: State, cid: string, name: string): Response {
    if name == "" then Error(s, cid, NoName)
    else if name !in s.registry then Error(s, cid, UnknownCapability(name))
    else if s.registry[name].sourceUrl == "" then Error(s, cid, NoSource(name))
    else Produced(s, cid, P.Str(s.registry[name].sourceUrl))
  }

  function HandleStep(world: World, s: State, d: Directive, catalog: map<string, Entry>): Step {
    match d.body
    case Configure(c) =>
      var (step, failure) := ConfigureStep(s, c, catalog);
      Step(step.state, step.effects + [Sent(ConfigureAnswer(s, d.cid, failure))])
    case Run(_) => RunStep(world, s, d)
    case Spawn(_, _, _) => SpawnStep(world, s, d)
    case Register(name, url) =>
      if name == "" then Step(s, [Sent(Error(s, d.cid, NoName))])
      else Step(s.(registry := s.registry[name := Entry(None, url)]), [Sent(Okay(s, d.cid))])
    case Resolve(name) => Step(s, [Sent(Resolved(s, d.cid, name))])
    case Ping => Step(s, [Sent(Okay(s, d.cid))])
    // Killing closes the parent channel before the answer could be sent.
    case Kill => Step(Killed(s), [])
  }

  /** _dispatch_inner: delegate down to a named child, or handle locally. */
  function DispatchStep(world: World, s: State, d: Directive, catalog: map<string, Entry>): Step {
    match NamedChild(d)
    case None => HandleStep(world, s, d, catalog)
    case Some(child) =>
      if child in s.children then
        Step(s.(delegated := s.delegated[d.cid := child]), [Forwarded(child, Stripped(d))])
      else Step(s, [Sent(Error(s, d.cid, UnknownChild(child)))])
  }

  // ----- the upward path -----

  predicate ValidResponse(r: Response) {
    && r.cid != ""
    && (r.kind.ResultResponse? ==> r.verified)
    && (r.kind.ErrorResponse? ==> !r.verified)
  }

  /** _handle_child: an ack carries nothing; an invalid response becomes an error. */
  function ReadChild(s: State, child: string, m: ChildMessage): Option<Response> {
    match m
    case Ack => None
    case Garbage => Some(Error(s, "", MalformedChild))
    case Message(r) => Some(if ValidResponse(r) then r else Error(s, r.cid, InvalidResponse(child)))
  }

  /** _relay_verified: re-verify before accepting responsibility; a failing value is demoted. */
  function RelayStep(world: World, s: State, child: string, r: Response): Step {
    if r.verified && s.verifier.Some? then
      match Verify(world, s.registry, s.verifier, r.value)
      case Accepts => Step(s, [Relayed(r)])
      case Rejects => Step(s, [Relayed(Error(s, r.cid, Demoted(child)))])
      // Nothing catches what the verifier raises here: the delegation is gone and nothing is sent.
      case _ => Step(s, [])
    else Step(s, [Relayed(r)])
  }

  /** One message of _drain_child: only a response to an outstanding delegation is relayed. */
  function DrainStep(world: World, s: State, child: string, m: ChildMessage): Step {
    match ReadChild(s, child, m)
    case None => Step(s, [])
    case Some(r) =>
      if r.cid in s.delegated then RelayStep(world, s.(delegated := s.delegated - {r.cid}), child, r)
      else Step(s, [])
  }

  /** A dead agent services nothing. */
  function EventStep(world: World, s: State, e: Event): Step {
    if !s.alive then Step(s, [])
    else
      match e
      case FromParent(d, catalog) => DispatchStep(world, s, d, catalog)
      case Malformed => Step(s, [Sent(Error(s, "malformed", MalformedDirective))])
      case FromChild(child, m) => DrainStep(world, s, child, m)
      case ConfiguredByParent(c, catalog) => ConfigureStep(s, c, catalog).0
      case KilledByParent => Step(Killed(s), [])
  }

  /** A whole run: the state reached and everything done, in order. */
  function Runs(world: World, s: State, events: seq<Event>): Step {
    if events == [] then Step(s, [])
    else
      var before := Runs(world, s, events[..|events| - 1]);
      var last := EventStep(world, before.state, events[|events| - 1]);
      Step(last.state, before.effects + last.effects)
  }
}
