/** What holds of one agent over every run, whatever its parent and children send. */
module AgentTraces {
  import opened Wrappers
  import P = Ports
  import opened AgentMachine

  // ----- counting effects -----

  predicate Forwards(effect: Effect, cid: string) {
    effect.Forwarded? && effect.directive.cid == cid
  }

  predicate Relays(effect: Effect, cid: string) {
    effect.Relayed? && effect.response.cid == cid
  }

  function ForwardedCount(effects: seq<Effect>, cid: string): nat {
    if effects == [] then 0
    else ForwardedCount(effects[1..], cid) + if Forwards(effects[0], cid) then 1 else 0
  }

  function RelayedCount(effects: seq<Effect>, cid: string): nat {
    if effects == [] then 0
    else RelayedCount(effects[1..], cid) + if Relays(effects[0], cid) then 1 else 0
  }

  lemma {:induction false} CountsAppend(a: seq<Effect>, b: seq<Effect>, cid: string)
    ensures ForwardedCount(a + b, cid) == ForwardedCount(a, cid) + ForwardedCount(b, cid)
    ensures RelayedCount(a + b, cid) == RelayedCount(a, cid) + RelayedCount(b, cid)
    decreases |a|
  {
    if a == [] {
      assert a + b == b;
    } else {
      assert (a + b)[1..] == a[1..] + b;
      CountsAppend(a[1..], b, cid);
    }
  }

  predicate Quiet(effect: Effect) {
    !effect.Forwarded? && !effect.Relayed?
  }

  lemma {:induction false} QuietCounts(effects: seq<Effect>, cid: string)
    requires forall i :: 0 <= i < |effects| ==> Quiet(effects[i])
    ensures ForwardedCount(effects, cid) == 0 == RelayedCount(effects, cid)
  {
    if effects != [] { QuietCounts(effects[1..], cid); }
  }

  ghost predicate QuietStep(s: State, step: Step) {
    step.state.delegated == s.delegated && forall i :: 0 <= i < |step.effects| ==> Quiet(step.effects[i])
  }

  lemma RunIsQuiet(world: World, s: State, d: Directive)
    requires d.body.Run?
    ensures QuietStep(s, RunStep(world, s, d))
  {
  }

  lemma ConfigureIsQuiet(s: State, c: ConfigurePayload, catalog: map<string, Entry>)
    ensures QuietStep(s, ConfigureStep(s, c, catalog).0)
  {
  }

  lemma SpawnIsQuiet(world: World, s: State, d: Directive)
    requires d.body.Spawn?
    ensures QuietStep(s, SpawnStep(world, s, d))
  {
  }

  lemma HandlingIsQuiet(world: World, s: State, d: Directive, catalog: map<string, Entry>)
    ensures QuietStep(s, HandleStep(world, s, d, catalog))
  {
    match d.body
    case Run(_) => RunIsQuiet(world, s, d);
    case Configure(c) => ConfigureIsQuiet(s, c, catalog);
    case Spawn(_, _, _) => SpawnIsQuiet(world, s, d);
    case _ =>
  }

  /** Draining changes nothing but the outstanding delegations. */
  lemma DrainLeaves(world: World, s: State, child: string, m: ChildMessage)
    ensures DrainStep(world, s, child, m).state == s.(delegated := DrainStep(world, s, child, m).state.delegated)
  {
  }

  // ----- relays answer delegations -----

  function Outstanding(s: State, cid: string): nat {
    if cid in s.delegated then 1 else 0
  }

  /** One step relays only what it takes off the outstanding delegations. */
  lemma StepOwes(world: World, s: State, e: Event, cid: string)
    ensures var step := EventStep(world, s, e);
      RelayedCount(step.effects, cid) + Outstanding(step.state, cid)
        <= ForwardedCount(step.effects, cid) + Outstanding(s, cid)
  {
    var step := EventStep(world, s, e);
    if forall i :: 0 <= i < |step.effects| ==> Quiet(step.effects[i]) { QuietCounts(step.effects, cid); }
    if s.alive && e.FromParent? && (NamedChild(e.directive).None? || NamedChild(e.directive).value !in s.children) {
      HandlingIsQuiet(world, s, e.directive, e.catalog);
      QuietCounts(step.effects, cid);
    }
  }

  /** In every run, the relays for an id never outnumber the delegations for it. */
  lemma {:induction false} RelaysAreOwed(world: World, s: State, events: seq<Event>, cid: string)
    requires s.delegated == map[]
    ensures var run := Runs(world, s, events);
      RelayedCount(run.effects, cid) + Outstanding(run.state, cid) <= ForwardedCount(run.effects, cid)
    decreases |events|
  {
    if events != [] {
      var n := |events| - 1;
      RelaysAreOwed(world, s, events[..n], cid);
      var before := Runs(world, s, events[..n]);
      StepOwes(world, before.state, events[n], cid);
      CountsAppend(before.effects, EventStep(world, before.state, events[n]).effects, cid);
    }
  }

  /** A relay was owed, and if it says verified, the verifier in force accepted its value. */
  ghost predicate Justified(world: World, s: State, r: Response) {
    && s.alive && r.cid in s.delegated
    && (r.verified ==> Verify(world, s.registry, s.verifier, r.value) == Accepts)
  }

  lemma StepJustifies(world: World, s: State, e: Event, i: nat)
    requires i < |EventStep(world, s, e).effects| && EventStep(world, s, e).effects[i].Relayed?
    ensures Justified(world, s, EventStep(world, s, e).effects[i].response)
  {
  }

  /**
   In every run, every relayed response answered a delegation outstanding at that moment,
   and if it claims to be verified its value was accepted by the verifier then in force.
   */
  lemma {:induction false} RelaysAreJustified(world: World, s: State, events: seq<Event>, i: nat) returns (k: nat)
    requires i < |Runs(world, s, events).effects| && Runs(world, s, events).effects[i].Relayed?
    ensures k < |events|
      && Justified(world, Runs(world, s, events[..k]).state, Runs(world, s, events).effects[i].response)
    decreases |events|
  {
    var n := |events| - 1;
    var before := Runs(world, s, events[..n]);
    if i < |before.effects| {
      k := RelaysAreJustified(world, s, events[..n], i);
      assert events[..n][..k] == events[..k];
    } else {
      k := n;
      StepJustifies(world, before.state, events[n], i - |before.effects|);
    }
  }

  // ----- idempotency -----

  /** The cache holds one directive per correlation id, and marks its id as used. */
  ghost predicate CacheOk(s: State) {
    && (forall d :: d in s.results ==> d.cid in s.usedKeys && d.body.Run?)
    && forall d, e :: d in s.results && e in s.results && d.cid == e.cid ==> d == e
  }

  ghost predicate CacheGrew(s: State, t: State) {
    && (forall d :: d in s.results ==> d in t.results && t.results[d] == s.results[d])
    && s.usedKeys <= t.usedKeys
  }

  predicate SameCache(s: State, t: State) {
    t.results == s.results && t.usedKeys == s.usedKeys
  }

  /** Running caches at most its own directive, and then its id was not in use. */
  lemma RunStepCaches(world: World, s: State, d: Directive)
    requires d.body.Run?
    ensures var t := RunStep(world, s, d).state;
      || SameCache(s, t)
      || (&& d.cid !in s.usedKeys && d in t.results
          && t.results == s.results[d := t.results[d]] && t.usedKeys == s.usedKeys + {d.cid})
  {
    if RunRefusal(s, d).None? && ResolveCallable(s.registry, d.body.run.task.value).Some? {
      var callable := ResolveCallable(s.registry, d.body.run.task.value).value;
      if world.run(callable, d.body.run.args).Returned? {
        AnswerCaches(world, Charged(s, false), d, d.body.run.task.value, world.run(callable, d.body.run.args).value);
      }
    }
  }

  lemma AnswerCaches(world: World, s: State, d: Directive, name: string, value: Value)
    requires d.body.Run?
    ensures var t := Answer(world, s, d, name, value).state;
      || SameCache(s, t)
      || (d in t.results && t.results == s.results[d := t.results[d]] && t.usedKeys == s.usedKeys + {d.cid})
  {
  }

  lemma RunStepKeepsCache(world: World, s: State, d: Directive)
    requires d.body.Run? && CacheOk(s)
    ensures CacheOk(RunStep(world, s, d).state) && CacheGrew(s, RunStep(world, s, d).state)
  {
    RunStepCaches(world, s, d);
  }

  lemma ConfigureLeavesCache(s: State, c: ConfigurePayload, catalog: map<string, Entry>)
    ensures SameCache(s, ConfigureStep(s, c, catalog).0.state)
  {
  }

  lemma SpawnLeavesCache(world: World, s: State, d: Directive)
    requires d.body.Spawn?
    ensures SameCache(s, SpawnStep(world, s, d).state)
  {
  }

  lemma HandlingLeavesCache(world: World, s: State, d: Directive, catalog: map<string, Entry>)
    requires !d.body.Run?
    ensures SameCache(s, HandleStep(world, s, d, catalog).state)
  {
    if d.body.Configure? {
      ConfigureLeavesCache(s, d.body.configure, catalog);
    } else if d.body.Spawn? {
      SpawnLeavesCache(world, s, d);
    }
  }

  /** Only handling a run directive touches the cache. */
  lemma OthersLeaveCache(world: World, s: State, e: Event)
    requires !(s.alive && e.FromParent? && NamedChild(e.directive).None? && e.directive.body.Run?)
    ensures SameCache(s, EventStep(world, s, e).state)
  {
    if e.FromParent? && !e.directive.body.Run? { HandlingLeavesCache(world, s, e.directive, e.catalog); }
  }

  lemma StepKeepsCache(world: World, s: State, e: Event)
    requires CacheOk(s)
    ensures CacheOk(EventStep(world, s, e).state) && CacheGrew(s, EventStep(world, s, e).state)
  {
    if s.alive && e.FromParent? && NamedChild(e.directive).None? && e.directive.body.Run? {
      RunStepKeepsCache(world, s, e.directive);
    } else {
      OthersLeaveCache(world, s, e);
    }
  }

  lemma {:induction false} RunKeepsCache(world: World, s: State, events: seq<Event>)
    requires CacheOk(s)
    ensures CacheOk(Runs(world, s, events).state) && CacheGrew(s, Runs(world, s, events).state)
    decreases |events|
  {
    if events != [] {
      var n := |events| - 1;
      RunKeepsCache(world, s, events[..n]);
      StepKeepsCache(world, Runs(world, s, events[..n]).state, events[n]);
    }
  }

  lemma RunInvokes(world: World, s: State, d: Directive, i: nat)
    requires d.body.Run? && i < |RunStep(world, s, d).effects| && RunStep(world, s, d).effects[i].Invoked?
    ensures i == 0 && forall j :: 0 < j < |RunStep(world, s, d).effects| ==> RunStep(world, s, d).effects[j].Sent?
    ensures d.cid !in s.usedKeys && RunStep(world, s, d).effects[i].fingerprint == d
    ensures RunStep(world, s, d).effects[i].answered ==> d.cid in RunStep(world, s, d).state.usedKeys
  {
  }

  /** An invocation is of an unused id; an answered one uses it up; a step invokes at most once. */
  lemma StepInvokes(world: World, s: State, e: Event, i: nat)
    requires i < |EventStep(world, s, e).effects| && EventStep(world, s, e).effects[i].Invoked?
    ensures var x := EventStep(world, s, e).effects[i];
      && x.fingerprint.cid !in s.usedKeys
      && (x.answered ==> x.fingerprint.cid in EventStep(world, s, e).state.usedKeys)
      && forall j :: 0 <= j < |EventStep(world, s, e).effects| && j != i ==> !EventStep(world, s, e).effects[j].Invoked?
  {
    if s.alive && e.FromParent? && NamedChild(e.directive).None? && e.directive.body.Run? {
      RunInvokes(world, s, e.directive, i);
    }
  }

  lemma {:induction false} AnsweredIsUsed(world: World, s: State, events: seq<Event>, i: nat)
    requires CacheOk(s) && i < |Runs(world, s, events).effects|
    requires Runs(world, s, events).effects[i].Invoked? && Runs(world, s, events).effects[i].answered
    ensures Runs(world, s, events).effects[i].fingerprint.cid in Runs(world, s, events).state.usedKeys
    decreases |events|
  {
    var n := |events| - 1;
    var before := Runs(world, s, events[..n]);
    RunKeepsCache(world, s, events[..n]);
    if i < |before.effects| {
      AnsweredIsUsed(world, s, events[..n], i);
      StepKeepsCache(world, before.state, events[n]);
    } else {
      StepInvokes(world, before.state, events[n], i - |before.effects|);
    }
  }

  /** In every run, after an answered invocation its correlation id is never invoked again. */
  lemma {:induction false} AnsweredOnce(world: World, s: State, events: seq<Event>, i: nat, j: nat)
    requires CacheOk(s) && i < j < |Runs(world, s, events).effects|
    requires Runs(world, s, events).effects[i].Invoked? && Runs(world, s, events).effects[i].answered
    requires Runs(world, s, events).effects[j].Invoked?
    ensures Runs(world, s, events).effects[j].fingerprint.cid != Runs(world, s, events).effects[i].fingerprint.cid
    decreases |events|
  {
    var n := |events| - 1;
    var before := Runs(world, s, events[..n]);
    if j < |before.effects| {
      AnsweredOnce(world, s, events[..n], i, j);
    } else {
      LastIsOther(world, s, events, i, j);
    }
  }

  /** The last step invokes no id that was answered. */
  lemma LastIsOther(world: World, s: State, events: seq<Event>, i: nat, j: nat)
    requires CacheOk(s) && events != [] && i < j < |Runs(world, s, events).effects|
    requires |Runs(world, s, events[..|events| - 1]).effects| <= j
    requires Runs(world, s, events).effects[i].Invoked? && Runs(world, s, events).effects[i].answered
    requires Runs(world, s, events).effects[j].Invoked?
    ensures Runs(world, s, events).effects[j].fingerprint.cid != Runs(world, s, events).effects[i].fingerprint.cid
  {
    var n := |events| - 1;
    var before := Runs(world, s, events[..n]);
    StepInvokes(world, before.state, events[n], j - |before.effects|);
    if i < |before.effects| { AnsweredIsUsed(world, s, events[..n], i); }
  }

  /**
   Once cached, a run directive gets the same response after any further run, whatever
   was reconfigured, and a different payload under its id is refused.
   */
  lemma CachedAnswerIsForever(
      world: World, s: State, events: seq<Event>, d: Directive, other: Directive, catalog: map<string, Entry>)
    requires CacheOk(s) && d in s.results && Runs(world, s, events).state.alive
    requires other.body.Run? && other.cid == d.cid && other != d
    requires NamedChild(d).None? && NamedChild(other).None?
    ensures var t := Runs(world, s, events).state;
      && EventStep(world, t, FromParent(d, catalog)) == Step(t, [Sent(s.results[d])])
      && EventStep(world, t, FromParent(other, catalog)) == Step(t, [Sent(Error(t, d.cid, ReusedId))])
  {
    RunKeepsCache(world, s, events);
  }

  /** Some later event of some further run invokes the id again. */
  ghost predicate InvokedLater(world: World, s: State, cid: string) {
    exists events: seq<Event>, i :: InvokesAt(world, s, events, cid, i)
  }

  ghost predicate InvokesAt(world: World, s: State, events: seq<Event>, cid: string, i: int) {
    0 <= i < |Runs(world, s, events).effects| && InvokesId(Runs(world, s, events).effects[i], cid)
  }

  predicate InvokesId(x: Effect, cid: string) {
    x.Invoked? && x.fingerprint.cid == cid
  }

  /** The step invokes the directive's task. */
  predicate Invokes(world: World, s: State, d: Directive)
    requires d.body.Run?
  {
    d !in s.results && RunRefusal(s, d).None? && ResolveCallable(s.registry, d.body.run.task.value).Some?
  }

  /** What a caller knows of an invocation that leaves no answer: the task raised, or its verifier did. */
  predicate LeavesNoAnswer(world: World, s: State, d: Directive)
    requires d.body.Run? && Invokes(world, s, d)
  {
    match world.run(ResolveCallable(s.registry, d.body.run.task.value).value, d.body.run.args)
    case TaskRaised(_) => true
    case Returned(value) =>
      var verdict := Verify(world, s.registry, VerifierFor(s, d.body.run), value);
      verdict.VerifierRaised? || verdict.VerifierCrashed?
  }

  lemma InvocationAnswers(world: World, s: State, d: Directive)
    requires d.body.Run? && Invokes(world, s, d)
    ensures var step := RunStep(world, s, d);
      && step.effects != [] && step.effects[0] == Invoked(d, !LeavesNoAnswer(world, s, d))
      && step.state == (if LeavesNoAnswer(world, s, d) then Charged(s, false)
                        else Charged(s, false).(results := step.state.results, usedKeys := s.usedKeys + {d.cid}))
  {
  }

  lemma {:induction false} UsedIsNeverInvoked(world: World, s: State, events: seq<Event>, cid: string, i: int)
    requires CacheOk(s) && cid in s.usedKeys
    ensures !InvokesAt(world, s, events, cid, i)
    decreases |events|
  {
    if events != [] && InvokesAt(world, s, events, cid, i) {
      var n := |events| - 1;
      var before := Runs(world, s, events[..n]);
      if i < |before.effects| {
        UsedIsNeverInvoked(world, s, events[..n], cid, i);
      } else {
        RunKeepsCache(world, s, events[..n]);
        StepInvokes(world, before.state, events[n], i - |before.effects|);
      }
    }
  }

  function Unbounded(): ConfigurePayload {
    ConfigurePayload(Some(None), false, None, [], [])
  }

  /** Granting no bounds and repeating the directive invokes it again. */
  lemma RegrantedRunInvokes(world: World, s: State, d: Directive, catalog: map<string, Entry>)
    requires s.alive && d.body.Run? && NamedChild(d).None? && d !in s.results && d.cid !in s.usedKeys
    requires d.body.run.task.Some? && ResolveCallable(s.registry, d.body.run.task.value).Some?
    ensures InvokedLater(world, s, d.cid)
  {
    var events := [ConfiguredByParent(Unbounded(), catalog), FromParent(d, catalog)];
    var granted := s.(guard := Some(Guard(None, 0, 0)));
    GrantedState(world, s, catalog);
    assert events[..1] == [events[0]] && events[..1][..0] == [];
    assert Runs(world, s, []) == Step(s, []);
    assert Runs(world, s, events[..1]).state == granted;
    InvocationAnswers(world, granted, d);
    var before := Runs(world, s, events[..1]);
    assert Runs(world, s, events).effects[|before.effects|] == RunStep(world, granted, d).effects[0];
    assert InvokesAt(world, s, events, d.cid, |before.effects|);
  }

  lemma GrantedState(world: World, s: State, catalog: map<string, Entry>)
    requires s.alive
    ensures EventStep(world, s, ConfiguredByParent(Unbounded(), catalog))
      == Step(s.(guard := Some(Guard(None, 0, 0))), [Granted])
  {
  }

  /**
   After an invocation, some further run invokes its correlation id again if and only if the
   task raised, or returned a value on which its verifier raised. So a task that returned is
   invoked once exactly when its verifier gives a verdict.
   */
  lemma InvokedAgainExactly(world: World, s: State, d: Directive, catalog: map<string, Entry>)
    requires s.alive && CacheOk(s) && d.body.Run? && NamedChild(d).None? && Invokes(world, s, d)
    ensures InvokedLater(world, EventStep(world, s, FromParent(d, catalog)).state, d.cid)
      <==> LeavesNoAnswer(world, s, d)
  {
    var t := RunStep(world, s, d).state;
    InvocationAnswers(world, s, d);
    RunStepKeepsCache(world, s, d);
    if LeavesNoAnswer(world, s, d) {
      RegrantedRunInvokes(world, t, d, catalog);
    } else {
      forall events: seq<Event>, i
        ensures !InvokesAt(world, t, events, d.cid, i)
      {
        UsedIsNeverInvoked(world, t, events, d.cid, i);
      }
    }
  }

  /** An invocation without an answer is repeated at once exactly when the envelope still has a step. */
  lemma UnansweredIsInvokedAgain(world: World, s: State, d: Directive)
    requires CacheOk(s) && d.body.Run? && Invokes(world, s, d) && LeavesNoAnswer(world, s, d)
    ensures var t := RunStep(world, s, d).state;
      RunStep(world, t, d).effects[..1] == [Invoked(d, false)] <==> Refusal(t, false).None?
  {
    var t := RunStep(world, s, d).state;
    InvocationAnswers(world, s, d);
    assert t == Charged(s, false);
    if Refusal(t, false).None? { InvocationAnswers(world, t, d); }
  }

  function RaisingWorld(): World {
    World((callable: Callable, args: Args) => Returned(P.Null),
      (callable: Callable, value: Value) => VerifierRaised("bad value"), (endpoint: string) => true)
  }

  function ExampleAgent(): State {
    Initial("root", {}).(registry := map["t" := Entry(Some("t"), "")], verifier := Some("t"))
  }

  function ExampleRun(): Directive {
    Directive("c", Run(RunPayload(Some("t"), map[], None, None)))
  }

  /** A concrete case: a task that returns, under a verifier that raises, runs twice for one id. */
  lemma RaisingVerifierRunsTwice()
    ensures RaisingWorld().run("t", map[]) == Returned(P.Null)
    ensures var once := [Invoked(ExampleRun(), false), Sent(Error(ExampleAgent(), "c", VerifierError("bad value")))];
      var event := FromParent(ExampleRun(), map[]);
      Runs(RaisingWorld(), ExampleAgent(), [event, event]).effects == once + once
  {
    var world, s, event := RaisingWorld(), ExampleAgent(), FromParent(ExampleRun(), map[]);
    var once := [Invoked(ExampleRun(), false), Sent(Error(s, "c", VerifierError("bad value")))];
    assert EventStep(world, s, event) == Step(s, once);
    assert [event][..0] == [];
    assert Runs(world, s, [event]) == Step(s, once);
    assert [event, event][..1] == [event];
  }

  // ----- budgets -----

  /** Task invocations and new children since the last grant. */
  function WorkSinceGrant(effects: seq<Effect>): nat {
    if effects == [] then 0
    else
      var n := |effects| - 1;
      if effects[n].Granted? then 0
      else WorkSinceGrant(effects[..n]) + if effects[n].Invoked? || effects[n].Spawned? then 1 else 0
  }

  function ChildrenSinceGrant(effects: seq<Effect>): nat {
    if effects == [] then 0
    else
      var n := |effects| - 1;
      if effects[n].Granted? then 0
      else ChildrenSinceGrant(effects[..n]) + if effects[n].Spawned? then 1 else 0
  }

  /** The guard has counted all the work since the last grant and is within its bounds. */
  ghost predicate Accounted(s: State, effects: seq<Effect>) {
    s.guard.Some? ==>
      var g := s.guard.value;
      && WorkSinceGrant(effects) <= g.steps && ChildrenSinceGrant(effects) <= g.children
      && (g.envelope.Some? && g.envelope.value.stepLimit.Some? ==> g.steps <= g.envelope.value.stepLimit.value)
      && (g.envelope.Some? && g.envelope.value.childLimit.Some? ==> g.children <= g.envelope.value.childLimit.value)
  }

  lemma SinceGrantAppend(effects: seq<Effect>, x: Effect)
    ensures WorkSinceGrant(effects + [x]) ==
      if x.Granted? then 0 else WorkSinceGrant(effects) + if x.Invoked? || x.Spawned? then 1 else 0
    ensures ChildrenSinceGrant(effects + [x]) ==
      if x.Granted? then 0 else ChildrenSinceGrant(effects) + if x.Spawned? then 1 else 0
  {
    assert (effects + [x])[..|effects|] == effects;
  }

  /** What one effect does to the guard it was accounted under. */
  ghost predicate Charges(s: State, t: State, x: Effect) {
    if x.Granted? then
      && t.guard.Some? && t.guard.value.steps == 0 == t.guard.value.children
      && (t.guard.value.envelope.Some? ==> ValidEnvelope(t.guard.value.envelope.value))
    else if s.guard.None? then t.guard.None?
    else if x.Invoked? then t.guard == Some(RecordStep(s.guard.value, false)) && Violation(s.guard.value, false).None?
    else if x.Spawned? then t.guard == Some(RecordStep(s.guard.value, true)) && Violation(s.guard.value, true).None?
    else
      || t.guard == s.guard
      || (t.guard == Some(RecordStep(s.guard.value, true)) && Violation(s.guard.value, true).None?)
  }

  lemma ChargeIsAccounted(s: State, t: State, effects: seq<Effect>, x: Effect)
    requires Accounted(s, effects) && Charges(s, t, x)
    ensures Accounted(t, effects + [x])
  {
    SinceGrantAppend(effects, x);
  }

  /** A step has at most two effects; the first may charge the guard, the second never does. */
  ghost predicate ChargesOnce(s: State, step: Step) {
    && |step.effects| <= 2
    && (|step.effects| == 0 ==> step.state.guard == s.guard)
    && (|step.effects| > 0 ==> Charges(s, step.state, step.effects[0]))
    && (|step.effects| == 2 ==> step.effects[1].Sent?)
  }

  lemma RunCharges(world: World, s: State, d: Directive)
    requires d.body.Run?
    ensures ChargesOnce(s, RunStep(world, s, d))
  {
  }

  lemma SpawnCharges(world: World, s: State, d: Directive)
    requires d.body.Spawn?
    ensures ChargesOnce(s, SpawnStep(world, s, d))
  {
  }

  lemma ConfigureCharges(s: State, c: ConfigurePayload, catalog: map<string, Entry>)
    ensures var step := ConfigureStep(s, c, catalog).0;
      ChargesOnce(s, step) && |step.effects| <= 1 && (|step.effects| == 1 ==> step.effects[0].Granted?)
  {
  }

  lemma HandleCharges(world: World, s: State, d: Directive, catalog: map<string, Entry>)
    ensures ChargesOnce(s, HandleStep(world, s, d, catalog))
  {
    match d.body
    case Configure(c) => ConfigureCharges(s, c, catalog);
    case Run(_) => RunCharges(world, s, d);
    case Spawn(_, _, _) => SpawnCharges(world, s, d);
    case _ =>
  }

  lemma StepCharges(world: World, s: State, e: Event)
    ensures ChargesOnce(s, EventStep(world, s, e))
  {
    match e
    case FromParent(d, catalog) => HandleCharges(world, s, d, catalog);
    case ConfiguredByParent(c, catalog) => ConfigureCharges(s, c, catalog);
    case _ =>
  }

  lemma StepIsAccounted(world: World, s: State, e: Event, effects: seq<Effect>)
    requires Accounted(s, effects)
    ensures Accounted(EventStep(world, s, e).state, effects + EventStep(world, s, e).effects)
  {
    var step := EventStep(world, s, e);
    StepCharges(world, s, e);
    if |step.effects| == 0 {
      assert effects + step.effects == effects;
    } else {
      ChargeIsAccounted(s, step.state, effects, step.effects[0]);
      if |step.effects| == 1 {
        assert step.effects == [step.effects[0]];
      } else {
        assert effects + step.effects == effects + [step.effects[0]] + [step.effects[1]];
        ChargeIsAccounted(step.state, step.state, effects + [step.effects[0]], step.effects[1]);
      }
    }
  }

  /**
   In every run from an ungranted agent, the work since the last grant is within the step
   limit and the children made since then are within the child limit.
   */
  lemma {:induction false} BudgetsHold(world: World, s: State, events: seq<Event>)
    requires s.guard.None?
    ensures Accounted(Runs(world, s, events).state, Runs(world, s, events).effects)
    decreases |events|
  {
    if events != [] {
      var n := |events| - 1;
      BudgetsHold(world, s, events[..n]);
      var before := Runs(world, s, events[..n]);
      StepIsAccounted(world, before.state, events[n], before.effects);
    }
  }
}
