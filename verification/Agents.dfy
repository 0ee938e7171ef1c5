/**
 The agent and its envelope guard as objects updated in place. Each method is proved
 against the pure step of AgentMachine, so what AgentTraces proves of every run of steps
 holds of every sequence of events an agent object services.
 */
module Agents {
  import opened Wrappers
  import opened AgentMachine

  class EnvelopeGuard {
    const envelope: Option<Envelope>
    var steps: nat
    var children: nat

    function Value(): Guard
      reads this
    {
      Guard(envelope, steps, children)
    }

    constructor (envelope: Option<Envelope>)
      requires envelope.Some? ==> ValidEnvelope(envelope.value)
      ensures Value() == Guard(envelope, 0, 0)
    {
      this.envelope := envelope;
      steps, children := 0, 0;
    }

    /** Refuses a run or a spawn exactly when recording it would leave the bounds it is held to. */
    method CheckDirective(spawn: bool) returns (violation: Option<Reason>)
      ensures violation == Violation(Value(), spawn)
    {
      if envelope.None? { return None; }
      var bounds := envelope.value;
      if bounds.stepLimit.Some? && steps >= bounds.stepLimit.value { return Some(StepLimit(bounds.stepLimit.value)); }
      if spawn && bounds.childLimit.Some? && children >= bounds.childLimit.value {
        return Some(ChildLimit(bounds.childLimit.value));
      }
      return None;
    }

    method RecordStep(spawn: bool)
      modifies this
      ensures Value() == AgentMachine.RecordStep(old(Value()), spawn)
    {
      steps := steps + 1;
      if spawn { children := children + 1; }
    }
  }

  predicate Within(guard: Guard) {
    guard.envelope.Some? ==>
      && (guard.envelope.value.stepLimit.Some? ==> guard.steps <= guard.envelope.value.stepLimit.value)
      && (guard.envelope.value.childLimit.Some? ==> guard.children <= guard.envelope.value.childLimit.value)
  }

  /** From within the bounds, the check refuses exactly what would leave them once recorded. */
  lemma CheckIsExact(guard: Guard, spawn: bool)
    requires Within(guard)
    ensures Violation(guard, spawn).Some? <==> !Within(AgentMachine.RecordStep(guard, spawn))
  {
  }

  /** A longer prefix's run does one more step, after what was done before. */
  lemma RunsExtend(world: World, s: State, before: seq<Effect>, events: seq<Event>, i: nat)
    requires i < |events|
    ensures var run := Runs(world, s, events[..i]);
      var last := EventStep(world, run.state, events[i]);
      && Runs(world, s, events[..i + 1]).state == last.state
      && before + Runs(world, s, events[..i + 1]).effects == before + run.effects + last.effects
  {
    assert events[..i + 1][..i] == events[..i];
    var run := Runs(world, s, events[..i]);
    var last := EventStep(world, run.state, events[i]);
    assert before + (run.effects + last.effects) == before + run.effects + last.effects;
  }

  class Agent {
    const identity: string
    const world: World
    const childKinds: set<string>
    var alive: bool
    var registry: map<string, Entry>
    var verifier: Option<string>
    var guard: EnvelopeGuard?
    var results: map<Fingerprint, Response>
    var usedKeys: set<string>
    var children: set<string>
    var delegated: map<string, string>
    // Everything sent on a channel or done, in order.
    var effects: seq<Effect>

    function State(): State
      reads this, guard
    {
      AgentMachine.State(identity, alive, registry, verifier, if guard == null then None else Some(guard.Value()),
        results, usedKeys, children, childKinds, delegated)
    }

    /** The guard is this agent's own: the one it had, or one it made since. */
    twostate predicate OwnGuard()
      reads this
    {
      guard == old(guard) || (guard != null && fresh(guard))
    }

    constructor (identity: string, world: World, childKinds: set<string>)
      ensures State() == Initial(identity, childKinds) && effects == [] && this.world == world && guard == null
    {
      this.identity, this.world, this.childKinds := identity, world, childKinds;
      alive, registry, verifier, guard := true, map[], None, null;
      results, usedKeys, children, delegated, effects := map[], {}, {}, map[], [];
    }

    /** Once killed there is no channel to send on. */
    method Send(response: Response)
      modifies `effects
      ensures effects == if alive then old(effects) + [Sent(response)] else old(effects)
    {
      if alive { effects := effects + [Sent(response)]; }
    }

    // ----- configure -----

    /** Copy the named catalog entries into the registry, up to the first unknown name. */
    method RegisterGranted(names: seq<string>, catalog: map<string, Entry>) returns (failure: Option<Reason>)
      modifies `registry
      ensures (registry, failure) == RegisterAll(old(registry), names, catalog)
    {
      for i := 0 to |names|
        invariant RegisterAll(registry, names[i..], catalog) == RegisterAll(old(registry), names, catalog)
      {
        if names[i] !in catalog { return Some(UnknownName(names[i])); }
        registry := registry[names[i] := catalog[names[i]]];
        assert names[i..][1..] == names[i + 1..];
      }
      return None;
    }

    method GrantEnvelope(c: ConfigurePayload) returns (ok: bool)
      modifies `guard, `effects
      ensures OwnGuard()
      ensures ok <==> Grant(old(State()), c).Some?
      ensures State() == if ok then Grant(old(State()), c).value.state else old(State())
      ensures effects == if ok then old(effects) + Grant(old(State()), c).value.effects else old(effects)
    {
      if c.envelope.None? { return true; }
      var bounds := c.envelope.value;
      if bounds.Some? && !ValidEnvelope(bounds.value) { return false; }
      guard := new EnvelopeGuard(bounds);
      effects := effects + [Granted];
      return true;
    }

    method SetVerifier(c: ConfigurePayload)
      modifies `verifier
      ensures verifier == if c.clearVerifier then None else if c.verifier.Some? then c.verifier else old(verifier)
    {
      if c.clearVerifier {
        verifier := None;
      } else if c.verifier.Some? {
        verifier := c.verifier;
      }
    }

    method Configure(c: ConfigurePayload, catalog: map<string, Entry>) returns (failure: Option<Reason>)
      modifies `guard, `effects, `verifier, `registry
      ensures OwnGuard()
      ensures State() == ConfigureStep(old(State()), c, catalog).0.state
      ensures effects == old(effects) + ConfigureStep(old(State()), c, catalog).0.effects
      ensures failure == ConfigureStep(old(State()), c, catalog).1
    {
      var granted := GrantEnvelope(c);
      if !granted { return Some(BadEnvelope); }
      SetVerifier(c);
      failure := RegisterGranted(c.tasks, catalog);
      if failure.None? { failure := RegisterGranted(c.verifiers, catalog); }
    }

    // ----- run -----

    /** Charge the envelope for a run or a spawn it does not refuse. */
    method Charge(spawn: bool)
      modifies guard
      ensures State() == Charged(old(State()), spawn)
    {
      if guard != null { guard.RecordStep(spawn); }
    }

    method CheckEnvelope(spawn: bool) returns (violation: Option<Reason>)
      ensures violation == Refusal(State(), spawn)
    {
      if guard == null { return None; }
      violation := guard.CheckDirective(spawn);
    }

    /** What a handler did, with the response it returned for the caller to send. */
    ghost predicate Did(before: seq<Effect>, response: Option<Response>, step: Step)
      reads this, guard
    {
      && State() == step.state
      && effects + (if response.Some? then [Sent(response.value)] else []) == before + step.effects
    }

    /** Judge a returned value and cache the answer; a verifier that raises leaves the cache alone. */
    method Conclude(d: Directive, name: string, value: Value) returns (response: Option<Response>)
      requires d.body.Run?
      modifies `effects, `results, `usedKeys
      ensures Did(old(effects), response, Answer(world, old(State()), d, name, value))
    {
      var verdict := Verify(world, registry, VerifierFor(State(), d.body.run), value);
      effects := effects + [Invoked(d, verdict.Accepts? || verdict.Rejects?)];
      if verdict.VerifierCrashed? { return None; }
      if verdict.VerifierRaised? { return Some(Error(State(), d.cid, VerifierError(verdict.message))); }
      var answer :=
        if verdict.Accepts? then Produced(State(), d.cid, value) else Error(State(), d.cid, VerificationFailed(name));
      results := results[d := answer];
      usedKeys := usedKeys + {d.cid};
      return Some(answer);
    }

    method CheckRun(d: Directive) returns (refusal: Option<Reason>)
      requires d.body.Run?
      ensures refusal == RunRefusal(State(), d)
    {
      if d.cid in usedKeys { return Some(ReusedId); }
      if d.body.run.task.None? { return Some(NoTask); }
      refusal := CheckEnvelope(false);
    }

    /** None stands for an error that leaves the poll: no response is sent. */
    method RunTask(d: Directive) returns (response: Option<Response>)
      requires d.body.Run?
      modifies `effects, `results, `usedKeys, guard
      ensures Did(old(effects), response, RunStep(world, old(State()), d))
    {
      if d in results { return Some(results[d]); }
      var refusal := CheckRun(d);
      if refusal.Some? { return Some(Error(State(), d.cid, refusal.value)); }
      var name := d.body.run.task.value;
      var callable := ResolveCallable(registry, name);
      if callable.None? { return Some(Error(State(), d.cid, UnknownTask(name))); }
      Charge(false);
      var outcome := world.run(callable.value, d.body.run.args);
      if outcome.TaskRaised? {
        effects := effects + [Invoked(d, false)];
        return Some(Error(State(), d.cid, TaskFailed(name, outcome.message)));
      }
      response := Conclude(d, name, outcome.value);
    }

    // ----- spawn -----

    method Spawn(d: Directive) returns (response: Option<Response>)
      requires d.body.Spawn?
      modifies `effects, `children, guard
      ensures Did(old(effects), response, SpawnStep(world, old(State()), d))
    {
      var child := d.body.identity;
      if child == "" || d.body.endpoint == "" { return Some(Error(State(), d.cid, BadSpawn)); }
      var violation := CheckEnvelope(true);
      if violation.Some? { return Some(Error(State(), d.cid, violation.value)); }
      if child in children { return Some(Okay(State(), d.cid)); }
      Charge(true);
      var kind := d.body.kind;
      if kind.Some? && kind.value !in childKinds { return Some(Error(State(), d.cid, UndeclaredKind(kind.value))); }
      if !world.mayBind(d.body.endpoint) { return Some(Error(State(), d.cid, EndpointRefused(d.body.endpoint))); }
      children := children + {child};
      effects := effects + [Spawned(child)];
      return Some(Okay(State(), d.cid));
    }

    // ----- dispatch -----

    method Kill()
      modifies `alive, `children
      ensures State() == Killed(old(State())) && !alive
    {
      alive := false;
      children := {};
    }

    /** The answer to a directive handled here; after a kill it has nowhere to go. */
    method Handle(d: Directive, catalog: map<string, Entry>) returns (response: Option<Response>)
      requires alive
      modifies this, guard
      ensures OwnGuard()
      ensures Did(old(effects), if alive then response else None, HandleStep(world, old(State()), d, catalog))
    {
      match d.body
      case Configure(c) =>
        var failure := Configure(c, catalog);
        response := Some(ConfigureAnswer(State(), d.cid, failure));
      case Run(_) =>
        response := RunTask(d);
      case Spawn(_, _, _) =>
        response := Spawn(d);
      case Register(name, url) =>
        if name == "" { return Some(Error(State(), d.cid, NoName)); }
        registry := registry[name := Entry(None, url)];
        response := Some(Okay(State(), d.cid));
      case Resolve(name) =>
        response := Some(Resolved(State(), d.cid, name));
      case Ping =>
        response := Some(Okay(State(), d.cid));
      case Kill =>
        Kill();
        response := Some(Okay(State(), d.cid));
    }

    /** Strip the routing field and put the directive on the child's channel. */
    method Delegate(child: string, d: Directive)
      requires d.body.Run? && child in children
      modifies `effects
      ensures effects == old(effects) + [Forwarded(child, Stripped(d))]
    {
      effects := effects + [Forwarded(child, Stripped(d))];
    }

    method Dispatch(d: Directive, catalog: map<string, Entry>)
      requires alive
      modifies this, guard
      ensures OwnGuard()
      ensures var step := DispatchStep(world, old(State()), d, catalog);
        State() == step.state && effects == old(effects) + step.effects
    {
      var child := NamedChild(d);
      if child.Some? && child.value in children {
        Delegate(child.value, d);
        delegated := delegated[d.cid := child.value];
      } else if child.Some? {
        Send(Error(State(), d.cid, UnknownChild(child.value)));
      } else {
        var response := Handle(d, catalog);
        if response.Some? { Send(response.value); }
      }
    }

    // ----- the upward path -----

    method RelayVerified(child: string, r: Response)
      modifies `effects
      ensures State() == old(State())
      ensures effects == old(effects) + RelayStep(world, State(), child, r).effects
    {
      if r.verified && verifier.Some? {
        var verdict := Verify(world, registry, verifier, r.value);
        if verdict.VerifierRaised? || verdict.VerifierCrashed? { return; }
        effects := effects + [Relayed(if verdict.Accepts? then r else Error(State(), r.cid, Demoted(child)))];
      } else {
        effects := effects + [Relayed(r)];
      }
    }

    /** Relay the response up if it answers an outstanding delegation, which it takes off. */
    method DrainChild(child: string, m: ChildMessage)
      modifies `effects, `delegated
      ensures var step := DrainStep(world, old(State()), child, m);
        State() == step.state && effects == old(effects) + step.effects
    {
      var r := ReadChild(State(), child, m);
      if r.Some? && r.value.cid in delegated {
        delegated := delegated - {r.value.cid};
        RelayVerified(child, r.value);
      }
    }

    // ----- runs -----

    method Service(e: Event)
      modifies this, guard
      ensures OwnGuard()
      ensures var step := EventStep(world, old(State()), e);
        State() == step.state && effects == old(effects) + step.effects
    {
      if !alive { return; }
      match e
      case FromParent(d, catalog) => Dispatch(d, catalog);
      case Malformed => Send(Error(State(), "malformed", MalformedDirective));
      case FromChild(child, m) => DrainChild(child, m);
      case ConfiguredByParent(c, catalog) => var _ := Configure(c, catalog);
      case KilledByParent => Kill();
    }

    /** The object has done, on top of what was done before, exactly the machine's run. */
    ghost predicate HasRun(s: AgentMachine.State, before: seq<Effect>, events: seq<Event>)
      reads this, guard
    {
      State() == Runs(world, s, events).state && effects == before + Runs(world, s, events).effects
    }

    method ServiceNext(ghost s: AgentMachine.State, ghost before: seq<Effect>, events: seq<Event>, i: nat)
      requires i < |events| && HasRun(s, before, events[..i])
      modifies this, guard
      ensures OwnGuard() && HasRun(s, before, events[..i + 1])
    {
      RunsExtend(world, s, before, events, i);
      Service(events[i]);
    }

    /**
     Service any sequence of events: the object ends in the state, and has done the
     effects, of the machine's run, so every theorem about runs holds of it.
     */
    method ServiceAll(events: seq<Event>)
      modifies this, guard
      ensures OwnGuard()
      ensures HasRun(old(State()), old(effects), events)
    {
      for i := 0 to |events|
        invariant OwnGuard()
        invariant HasRun(old(State()), old(effects), events[..i])
      {
        ServiceNext(old(State()), old(effects), events, i);
      }
      assert events[..|events|] == events;
    }
  }
}
