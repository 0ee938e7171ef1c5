/**
 Where a verified answer comes from. In every interleaving of the tree, a verified value
 relayed by the root was computed by a child of the root, from a directive that the root
 forwarded to that child under the same correlation id.
 */
module AgentRelays {
  import opened Wrappers
  import opened AgentMachine
  import opened AgentTraces
  import opened AgentTree

  // ----- one agent: a verified answer was computed -----

  /** In state s the directive's task returned r's value and the verifier in force accepted it. */
  ghost predicate Computed(world: World, s: State, d: Directive, r: Response) {
    && d.body.Run? && Invokes(world, s, d) && r == Produced(s, d.cid, r.value)
    && world.run(ResolveCallable(s.registry, d.body.run.task.value).value, d.body.run.args) == Returned(r.value)
    && Verify(world, s.registry, VerifierFor(s, d.body.run), r.value) == Accepts
  }

  /** What a parent hands over, never garbled: undelegatable directives and in-process calls. */
  ghost predicate CleanHistory(history: seq<Event>) {
    LeafHistory(history) && Malformed !in history
  }

  lemma RunStepAnswers(world: World, s: State, d: Directive, r: Response)
    requires d.body.Run? && r.verified
    requires var step := RunStep(world, s, d);
      Sent(r) in step.effects || (d in step.state.results && step.state.results[d] == r)
    ensures (d in s.results && s.results[d] == r) || Computed(world, s, d, r)
  {
  }

  lemma StepAnswers(world: World, s: State, e: Event, r: Response)
    requires Handed(e) && e != Malformed && r.verified && Sent(r) in EventStep(world, s, e).effects
    ensures s.alive && e.FromParent? && Undelegatable(e.directive) && Sent(r) in RunStep(world, s, e.directive).effects
  {
    if e.ConfiguredByParent? { ConfigureCharges(s, e.configure, e.catalog); }
  }

  /** A newly cached answer is to the directive just handled. */
  lemma StepCaches(world: World, s: State, e: Event, d: Directive)
    requires d in EventStep(world, s, e).state.results
    ensures (d in s.results && s.results[d] == EventStep(world, s, e).state.results[d])
      || (s.alive && e.FromParent? && e.directive == d && d.body.Run?
          && EventStep(world, s, e).state == RunStep(world, s, d).state)
  {
    if s.alive && e.FromParent? && NamedChild(e.directive).None? && e.directive.body.Run? {
      RunStepCaches(world, s, e.directive);
    } else {
      OthersLeaveCache(world, s, e);
    }
  }

  /** Step k of the run handled d and computed r. */
  ghost predicate ComputedAt(world: World, s: State, history: seq<Event>, k: nat, d: Directive, r: Response) {
    && k < |history| && history[k].FromParent? && history[k].directive == d
    && Computed(world, Runs(world, s, history[..k]).state, d, r)
  }

  lemma ComputedEarlier(world: World, s: State, history: seq<Event>, k: nat, d: Directive, r: Response)
    requires history != [] && ComputedAt(world, s, history[..|history| - 1], k, d, r)
    ensures ComputedAt(world, s, history, k, d, r)
  {
    assert history[..|history| - 1][..k] == history[..k];
  }

  lemma {:induction false} CachedIsComputed(world: World, s: State, history: seq<Event>, d: Directive) returns (k: nat)
    requires s.results == map[] && d in Runs(world, s, history).state.results
    requires Runs(world, s, history).state.results[d].verified
    ensures ComputedAt(world, s, history, k, d, Runs(world, s, history).state.results[d])
    decreases |history|
  {
    var n := |history| - 1;
    var before, r := Runs(world, s, history[..n]).state, Runs(world, s, history).state.results[d];
    StepCaches(world, before, history[n], d);
    if d in before.results && before.results[d] == r {
      k := CachedIsComputed(world, s, history[..n], d);
      ComputedEarlier(world, s, history, k, d, r);
    } else {
      RunStepAnswers(world, before, d, r);
      k := n;
    }
  }

  /** Below the root, every verified answer sent was computed from a directive that was handed over. */
  lemma {:induction false} VerifiedIsComputed(world: World, s: State, history: seq<Event>, r: Response)
    returns (d: Directive, k: nat)
    requires CleanHistory(history) && s.results == map[] && r.verified && Sent(r) in Runs(world, s, history).effects
    ensures ComputedAt(world, s, history, k, d, r)
    decreases |history|
  {
    var n := |history| - 1;
    var before := Runs(world, s, history[..n]);
    if Sent(r) in before.effects {
      d, k := VerifiedIsComputed(world, s, history[..n], r);
      ComputedEarlier(world, s, history, k, d, r);
    } else {
      StepAnswers(world, before.state, history[n], r);
      d := history[n].directive;
      RunStepAnswers(world, before.state, d, r);
      if d in before.state.results && before.state.results[d] == r {
        k := CachedIsComputed(world, s, history[..n], d);
        ComputedEarlier(world, s, history, k, d, r);
      } else {
        k := n;
      }
    }
  }

  lemma {:induction false} IdentityIsKept(world: World, s: State, events: seq<Event>)
    ensures Runs(world, s, events).state.identity == s.identity
    decreases |events|
  {
    if events != [] {
      IdentityIsKept(world, s, events[..|events| - 1]);
      StepKeepsIdentity(world, Runs(world, s, events[..|events| - 1]).state, events[|events| - 1]);
    }
  }

  lemma RunStepKeepsIdentity(world: World, s: State, d: Directive)
    requires d.body.Run?
    ensures RunStep(world, s, d).state.identity == s.identity
  {
  }

  lemma StepKeepsIdentity(world: World, s: State, e: Event)
    ensures EventStep(world, s, e).state.identity == s.identity
  {
    if e.FromParent? && e.directive.body.Run? { RunStepKeepsIdentity(world, s, e.directive); }
  }

  lemma StepRelays(world: World, s: State, e: Event, r: Response)
    requires r.verified && Relayed(r) in EventStep(world, s, e).effects
    ensures e.FromChild? && e.message == Message(r)
  {
  }

  /** A verified relay passes on, unchanged, what some child said. */
  lemma {:induction false} RelayIsHeard(world: World, s: State, history: seq<Event>, r: Response)
    returns (child: string)
    requires r.verified && Relayed(r) in Runs(world, s, history).effects
    ensures FromChild(child, Message(r)) in history
    decreases |history|
  {
    var n := |history| - 1;
    var before := Runs(world, s, history[..n]);
    if Relayed(r) in before.effects {
      child := RelayIsHeard(world, s, history[..n], r);
    } else {
      StepRelays(world, before.state, history[n], r);
      child := history[n].child;
    }
  }

  // ----- the tree: what is on a channel was put there -----

  ghost predicate SentBy(world: World, t: Tree, child: string, r: Response) {
    [child] in t.histories && Sent(r) in RunOf(world, t, [child]).effects
  }

  ghost predicate ForwardedTo(world: World, t: Tree, child: string, d: Directive) {
    [] in t.histories && Forwarded(child, d) in RunOf(world, t, []).effects
  }

  /** An event that its agent could have been given in this tree. */
  ghost predicate Grounded(world: World, t: Tree, p: Path, e: Event) {
    if p == [] then e.FromChild? && e.message.Message? ==> SentBy(world, t, e.child, e.message.response)
    else Handed(e) && e != Malformed && (e.FromParent? ==> ForwardedTo(world, t, NameOf(p), e.directive))
  }

  ghost predicate GroundedEvents(world: World, t: Tree) {
    forall p, e :: p in t.histories && e in t.histories[p] ==> Grounded(world, t, p, e)
  }

  ghost predicate GroundedChannels(world: World, t: Tree) {
    && (forall c, r :: r in Queued(t.up, [c]) ==> SentBy(world, t, c, r))
    && forall c, d :: d in Queued(t.down, [c]) ==> ForwardedTo(world, t, c, d)
  }

  /** While the root lives, every agent below it is one of its children. */
  ghost predicate AllAreChildren(world: World, t: Tree) {
    [] in t.histories && StateOf(world, t, []).alive ==>
      forall c: string :: [c] in t.histories ==> c in StateOf(world, t, []).children
  }

  ghost predicate Traced(world: World, t: Tree) {
    TreeOk(t) && GroundedEvents(world, t) && GroundedChannels(world, t) && AllAreChildren(world, t)
  }

  // ----- growing -----

  /** No agent forgets anything. */
  ghost predicate Grown(t: Tree, u: Tree) {
    u.kinds == t.kinds && forall p :: p in t.histories ==> p in u.histories && t.histories[p] <= u.histories[p]
  }

  lemma {:induction false} EffectsGrow(world: World, s: State, a: seq<Event>, b: seq<Event>)
    requires a <= b
    ensures Runs(world, s, a).effects <= Runs(world, s, b).effects
    decreases |b|
  {
    if a != b {
      assert a <= b[..|b| - 1];
      EffectsGrow(world, s, a, b[..|b| - 1]);
    }
  }

  lemma GrownKeepsSent(world: World, t: Tree, u: Tree, c: string, r: Response)
    requires Grown(t, u) && SentBy(world, t, c, r)
    ensures SentBy(world, u, c, r)
  {
    EffectsGrow(world, Initial(c, t.kinds), t.histories[[c]], u.histories[[c]]);
  }

  lemma GrownKeepsForwarded(world: World, t: Tree, u: Tree, c: string, d: Directive)
    requires Grown(t, u) && ForwardedTo(world, t, c, d)
    ensures ForwardedTo(world, u, c, d)
  {
    EffectsGrow(world, Initial("root", t.kinds), t.histories[[]], u.histories[[]]);
  }

  lemma GrownKeepsGrounded(world: World, t: Tree, u: Tree, p: Path, e: Event)
    requires Grown(t, u) && Grounded(world, t, p, e)
    ensures Grounded(world, u, p, e)
  {
    if p == [] {
      if e.FromChild? && e.message.Message? { GrownKeepsSent(world, t, u, e.child, e.message.response); }
    } else if e.FromParent? {
      GrownKeepsForwarded(world, t, u, NameOf(p), e.directive);
    }
  }

  // ----- routing -----

  predicate MayQueueUp(effects: seq<Effect>, r: Response) {
    Sent(r) in effects || Relayed(r) in effects
  }

  ghost predicate RoutedUp(t: Tree, p: Path, effects: seq<Effect>, u: Tree) {
    forall q, r {:trigger r in Queued(u.up, q)} :: r in Queued(u.up, q) ==>
      r in Queued(t.up, q) || (q == p && MayQueueUp(effects, r))
  }

  ghost predicate RoutedDown(t: Tree, p: Path, effects: seq<Effect>, u: Tree) {
    forall q, d :: d in Queued(u.down, q) ==>
      d in Queued(t.down, q) || (q == p + [NameOf(q)] && Forwarded(NameOf(q), d) in effects)
  }

  ghost predicate RoutedHistories(t: Tree, p: Path, effects: seq<Effect>, u: Tree) {
    && (forall q :: q in t.histories ==> q in u.histories)
    && forall q :: q in u.histories ==>
      || (q in t.histories && u.histories[q] == t.histories[q])
      || (q == p + [NameOf(q)] && Spawned(NameOf(q)) in effects && u.histories[q] == [])
  }

  /** Routing makes only what was spawned, and queues only what was forwarded, sent or relayed. */
  ghost predicate Routed(t: Tree, p: Path, effects: seq<Effect>, u: Tree) {
    && u.kinds == t.kinds && RoutedHistories(t, p, effects, u)
    && RoutedDown(t, p, effects, u) && RoutedUp(t, p, effects, u)
  }

  lemma OneIsRouted(t: Tree, p: Path, x: Effect)
    ensures Routed(t, p, [x], Route(t, p, x))
  {
    var u := Route(t, p, x);
    match x
    case Forwarded(child, d) =>
      assert NameOf(p + [child]) == child;
      assert forall q :: q != p + [child] ==> Queued(u.down, q) == Queued(t.down, q);
    case Spawned(id) => assert NameOf(p + [id]) == id;
    case Sent(r) => assert forall q :: q != p ==> Queued(u.up, q) == Queued(t.up, q);
    case Relayed(r) => assert forall q :: q != p ==> Queued(u.up, q) == Queued(t.up, q);
    case _ =>
  }

  lemma RoutedUpJoins(t: Tree, p: Path, x: Effect, middle: Tree, rest: seq<Effect>, u: Tree)
    requires RoutedUp(t, p, [x], middle) && RoutedUp(middle, p, rest, u)
    ensures RoutedUp(t, p, [x] + rest, u)
  {
    forall q, r | r in Queued(u.up, q)
      ensures r in Queued(t.up, q) || (q == p && MayQueueUp([x] + rest, r))
    {
      assert r in Queued(middle.up, q) || (q == p && MayQueueUp(rest, r));
    }
  }

  lemma RoutedJoins(t: Tree, p: Path, x: Effect, middle: Tree, rest: seq<Effect>, u: Tree)
    requires Routed(t, p, [x], middle) && Routed(middle, p, rest, u)
    ensures Routed(t, p, [x] + rest, u)
  {
    RoutedUpJoins(t, p, x, middle, rest, u);
  }

  lemma {:induction false} AllAreRouted(t: Tree, p: Path, effects: seq<Effect>)
    ensures Routed(t, p, effects, RouteAll(t, p, effects))
    decreases |effects|
  {
    if effects != [] {
      OneIsRouted(t, p, effects[0]);
      AllAreRouted(Route(t, p, effects[0]), p, effects[1..]);
      RoutedJoins(t, p, effects[0], Route(t, p, effects[0]), effects[1..], RouteAll(t, p, effects));
      assert [effects[0]] + effects[1..] == effects;
    }
  }

  // ----- one act -----

  lemma RecordedEffects(world: World, t: Tree, p: Path, e: Event)
    requires p in t.histories
    ensures Grown(t, Recorded(t, p, e))
    ensures RunOf(world, Recorded(t, p, e), p).state == EventStep(world, StateOf(world, t, p), e).state
    ensures RunOf(world, Recorded(t, p, e), p).effects
      == RunOf(world, t, p).effects + EventStep(world, StateOf(world, t, p), e).effects
  {
    assert (t.histories[p] + [e])[..|t.histories[p]|] == t.histories[p];
  }

  /** A spawned child is new. */
  lemma SpawnsAreNew(world: World, s: State, e: Event, id: string)
    requires Spawned(id) in EventStep(world, s, e).effects
    ensures s.alive && id !in s.children && EventStep(world, s, e).state.children == s.children + {id}
  {
  }

  /** A living agent keeps its children. */
  lemma ChildrenAreKept(world: World, s: State, e: Event)
    requires EventStep(world, s, e).state.alive
    ensures s.alive && s.children <= EventStep(world, s, e).state.children
  {
  }

  /** A child that is spawned was not there. */
  lemma SpawnIsNew(world: World, t: Tree, p: Path, e: Event, id: string)
    requires Traced(world, t) && p in t.histories && Grounded(world, t, p, e)
    requires Spawned(id) in EventStep(world, StateOf(world, t, p), e).effects
    ensures p == [] && p + [id] !in t.histories
  {
    assert [] + [id] == [id];
    SpawnsAreNew(world, StateOf(world, t, p), e, id);
    if p != [] { HandedIsLeaf(world, StateOf(world, t, p), e); }
  }

  lemma RoutedGrows(t: Tree, p: Path, effects: seq<Effect>, u: Tree)
    requires Routed(t, p, effects, u)
    requires forall id: string :: Spawned(id) in effects ==> p + [id] !in t.histories
    ensures Grown(t, u)
  {
    forall q | q in t.histories
      ensures q in u.histories && t.histories[q] <= u.histories[q]
    {
      assert Spawned(NameOf(q)) in effects ==> p + [NameOf(q)] !in t.histories;
    }
  }

  /** So an act only adds to histories. */
  lemma DeliveryGrows(world: World, t: Tree, p: Path, e: Event)
    requires Traced(world, t) && p in t.histories && Grounded(world, t, p, e)
    ensures Grown(Recorded(t, p, e), Delivered(world, t, p, e))
  {
    var effects := EventStep(world, StateOf(world, t, p), e).effects;
    AllAreRouted(Recorded(t, p, e), p, effects);
    forall id: string | Spawned(id) in effects
      ensures p + [id] !in Recorded(t, p, e).histories
    {
      SpawnIsNew(world, t, p, e, id);
    }
    RoutedGrows(Recorded(t, p, e), p, effects, Delivered(world, t, p, e));
  }

  lemma KillingGrows(t: Tree, p: Path)
    ensures Grown(t, KillBelow(t, p))
  {
  }

  /** The tree before, the agent and its event, and the tree once the effects reached everyone. */
  ghost predicate Acts(world: World, t: Tree, p: Path, e: Event, u: Tree) {
    && Traced(world, t) && p in t.histories && Grounded(world, t, p, e)
    && Routed(Recorded(t, p, e), p, EventStep(world, StateOf(world, t, p), e).effects, u)
    && Grown(t, u) && Grown(Recorded(t, p, e), u)
  }

  lemma DeliveryActs(world: World, t: Tree, p: Path, e: Event)
    requires Traced(world, t) && p in t.histories && Grounded(world, t, p, e)
    ensures Acts(world, t, p, e, Delivered(world, t, p, e))
  {
    AllAreRouted(Recorded(t, p, e), p, EventStep(world, StateOf(world, t, p), e).effects);
    DeliveryGrows(world, t, p, e);
    RecordedEffects(world, t, p, e);
  }

  lemma EffectsOfAct(world: World, t: Tree, p: Path, e: Event, u: Tree, x: Effect)
    requires Acts(world, t, p, e, u) && x in EventStep(world, StateOf(world, t, p), e).effects
    ensures x in RunOf(world, u, p).effects
  {
    RecordedEffects(world, t, p, e);
    EffectsGrow(world, Initial(NameOf(p), t.kinds), Recorded(t, p, e).histories[p], u.histories[p]);
  }

  lemma ActKeepsEvents(world: World, t: Tree, p: Path, e: Event, u: Tree)
    requires Acts(world, t, p, e, u)
    ensures GroundedEvents(world, u)
  {
    forall q, x | q in u.histories && x in u.histories[q]
      ensures Grounded(world, u, q, x)
    {
      if q != p || x in t.histories[p] {
        GrownKeepsGrounded(world, t, u, q, x);
      } else {
        GrownKeepsGrounded(world, t, u, p, e);
      }
    }
  }

  lemma ActKeepsUp(world: World, t: Tree, p: Path, e: Event, u: Tree, c: string, r: Response)
    requires Acts(world, t, p, e, u) && r in Queued(u.up, [c])
    ensures SentBy(world, u, c, r)
  {
    if r in Queued(t.up, [c]) {
      GrownKeepsSent(world, t, u, c, r);
    } else {
      HandedIsLeaf(world, StateOf(world, t, p), e);
      assert !LeafEffect(Relayed(r));
      EffectsOfAct(world, t, p, e, u, Sent(r));
    }
  }

  lemma ActKeepsDown(world: World, t: Tree, p: Path, e: Event, u: Tree, c: string, d: Directive)
    requires Acts(world, t, p, e, u) && d in Queued(u.down, [c])
    ensures ForwardedTo(world, u, c, d)
  {
    if d in Queued(t.down, [c]) {
      GrownKeepsForwarded(world, t, u, c, d);
    } else {
      assert NameOf([c]) == c;
      EffectsOfAct(world, t, p, e, u, Forwarded(c, d));
    }
  }

  lemma ActKeepsChildren(world: World, t: Tree, p: Path, e: Event, u: Tree)
    requires Acts(world, t, p, e, u)
    ensures AllAreChildren(world, u)
  {
    RecordedEffects(world, t, p, e);
    if p == [] && [] in t.histories && EventStep(world, StateOf(world, t, p), e).state.alive {
      ChildrenAreKept(world, StateOf(world, t, p), e);
      forall c: string | [c] in u.histories
        ensures c in EventStep(world, StateOf(world, t, p), e).state.children
      {
        SpawnedIsChild(world, t, e, u, c);
      }
    }
  }

  lemma SpawnedIsChild(world: World, t: Tree, e: Event, u: Tree, c: string)
    requires Acts(world, t, [], e, u) && [c] in u.histories
    requires EventStep(world, StateOf(world, t, []), e).state.alive
    ensures c in EventStep(world, StateOf(world, t, []), e).state.children
  {
    ChildrenAreKept(world, StateOf(world, t, []), e);
    if [c] !in t.histories {
      assert NameOf([c]) == c;
      SpawnsAreNew(world, StateOf(world, t, []), e, c);
    }
  }

  lemma ActedIsTraced(world: World, t: Tree, p: Path, e: Event, u: Tree)
    requires Acts(world, t, p, e, u) && TreeOk(u)
    ensures Traced(world, u)
  {
    ActKeepsEvents(world, t, p, e, u);
    ActKeepsChildren(world, t, p, e, u);
    forall c, r | r in Queued(u.up, [c])
      ensures SentBy(world, u, c, r)
    {
      ActKeepsUp(world, t, p, e, u, c, r);
    }
    forall c, d | d in Queued(u.down, [c])
      ensures ForwardedTo(world, u, c, d)
    {
      ActKeepsDown(world, t, p, e, u, c, d);
    }
  }

  lemma KillingIsTraced(world: World, t: Tree, p: Path)
    requires Traced(world, t)
    ensures Traced(world, KillBelow(t, p))
  {
    var u := KillBelow(t, p);
    KillKeeps(t, p);
    KillingGrows(t, p);
    forall q, x | q in u.histories && x in u.histories[q]
      ensures Grounded(world, u, q, x)
    {
      if x in t.histories[q] { GrownKeepsGrounded(world, t, u, q, x); }
    }
    forall c, r | r in Queued(u.up, [c])
      ensures SentBy(world, u, c, r)
    {
      GrownKeepsSent(world, t, u, c, r);
    }
    forall c, d | d in Queued(u.down, [c])
      ensures ForwardedTo(world, u, c, d)
    {
      GrownKeepsForwarded(world, t, u, c, d);
    }
  }

  lemma ActIsTraced(world: World, t: Tree, p: Path, e: Event)
    requires Traced(world, t) && p in t.histories && Grounded(world, t, p, e)
    ensures Traced(world, Act(world, t, p, e))
  {
    DeliveryActs(world, t, p, e);
    DeliveryKeeps(world, t, p, e);
    ActedIsTraced(world, t, p, e, Delivered(world, t, p, e));
    KillingIsTraced(world, Delivered(world, t, p, e), p);
  }

  // ----- every reachable tree -----

  lemma PopIsTraced(world: World, t: Tree, p: Path)
    requires Traced(world, t)
    ensures Queued(t.down, p) != [] ==> Traced(world, t.(down := t.down[p := Queued(t.down, p)[1..]]))
    ensures Queued(t.up, p) != [] ==> Traced(world, t.(up := t.up[p := Queued(t.up, p)[1..]]))
  {
    ChannelsKeep(t, p);
    if Queued(t.down, p) != [] { PoppedIsTraced(world, t, t.(down := t.down[p := Queued(t.down, p)[1..]])); }
    if Queued(t.up, p) != [] { PoppedIsTraced(world, t, t.(up := t.up[p := Queued(t.up, p)[1..]])); }
  }

  /** Taking messages off the channels, or handing the root one, keeps the invariant. */
  lemma PoppedIsTraced(world: World, t: Tree, u: Tree)
    requires Traced(world, t) && TreeOk(u) && u.kinds == t.kinds && u.histories == t.histories
    requires forall c, r :: r in Queued(u.up, [c]) ==> r in Queued(t.up, [c])
    requires forall c, d :: d in Queued(u.down, [c]) ==> d in Queued(t.down, [c])
    ensures Traced(world, u)
  {
    forall p, e | p in u.histories && e in u.histories[p]
      ensures Grounded(world, u, p, e)
    {
      GrownKeepsGrounded(world, t, u, p, e);
    }
    forall c, r | r in Queued(u.up, [c])
      ensures SentBy(world, u, c, r)
    {
      GrownKeepsSent(world, t, u, c, r);
    }
    forall c, d | d in Queued(u.down, [c])
      ensures ForwardedTo(world, u, c, d)
    {
      GrownKeepsForwarded(world, t, u, c, d);
    }
  }

  lemma MoveIsTraced(world: World, t: Tree, m: Move)
    requires Traced(world, t)
    ensures Traced(world, MoveStep(world, t, m))
  {
    match m
    case Inject(d) => PoppedIsTraced(world, t, MoveStep(world, t, m));
    case Handle(p, catalog) =>
      var queue := Queued(t.down, p);
      if p in t.histories && queue != [] {
        PopIsTraced(world, t, p);
        HandledIsGrounded(world, t, p, catalog);
        var popped, e := t.(down := t.down[p := queue[1..]]), FromParent(queue[0], catalog);
        GrownKeepsGrounded(world, t, popped, p, e);
        ActIsTraced(world, popped, p, e);
      }
    case Drain(p, child) =>
      var queue := Queued(t.up, p + [child]);
      if p in t.histories && child in StateOf(world, t, p).children && queue != [] {
        if p != [] { LeafHasNoChildren(world, t, p); }
        PopIsTraced(world, t, p + [child]);
        DrainedIsGrounded(world, t, child);
        var popped, e := t.(up := t.up[p + [child] := queue[1..]]), FromChild(child, Message(queue[0]));
        GrownKeepsGrounded(world, t, popped, p, e);
        ActIsTraced(world, popped, p, e);
      }
    case ConfigureChild(p, child, c, catalog) =>
      if p in t.histories && p + [child] in t.histories {
        ActIsTraced(world, t, p + [child], ConfiguredByParent(c, catalog));
      }
  }

  lemma HandledIsGrounded(world: World, t: Tree, p: Path, catalog: map<string, Entry>)
    requires Traced(world, t) && p in t.histories && Queued(t.down, p) != []
    ensures Grounded(world, t, p, FromParent(Queued(t.down, p)[0], catalog))
  {
    if p != [] {
      var c := NameOf(p);
      assert p == [c];
      assert Queued(t.down, [c])[0] in Queued(t.down, [c]);
      assert ForwardedTo(world, t, c, Queued(t.down, [c])[0]);
    }
  }

  lemma DrainedIsGrounded(world: World, t: Tree, child: string)
    requires Traced(world, t) && Queued(t.up, [] + [child]) != []
    ensures Grounded(world, t, [], FromChild(child, Message(Queued(t.up, [] + [child])[0])))
  {
    assert [] + [child] == [child];
    assert Queued(t.up, [child])[0] in Queued(t.up, [child]);
  }

  lemma {:induction false} ReachableIsTraced(world: World, kinds: set<string>, moves: seq<Move>)
    ensures Traced(world, TreeRun(world, InitialTree(kinds), moves))
    decreases |moves|
  {
    if moves != [] {
      ReachableIsTraced(world, kinds, moves[..|moves| - 1]);
      MoveIsTraced(world, TreeRun(world, InitialTree(kinds), moves[..|moves| - 1]), moves[|moves| - 1]);
    }
  }

  lemma ChildComputed(world: World, t: Tree, child: string, r: Response) returns (d: Directive, k: nat)
    requires Traced(world, t) && SentBy(world, t, child, r) && r.verified
    ensures child == r.node && d.cid == r.cid && ForwardedTo(world, t, child, d)
    ensures ComputedAt(world, Initial(child, t.kinds), t.histories[[child]], k, d, r)
  {
    var s, history := Initial(child, t.kinds), t.histories[[child]];
    ChildIsClean(world, t, child);
    d, k := VerifiedIsComputed(world, s, history, r);
    IdentityIsKept(world, s, history[..k]);
    assert Grounded(world, t, [child], history[k]);
  }

  lemma ChildIsClean(world: World, t: Tree, child: string)
    requires Traced(world, t) && [child] in t.histories
    ensures CleanHistory(t.histories[[child]])
  {
    assert forall e :: e in t.histories[[child]] ==> Grounded(world, t, [child], e);
  }
}
