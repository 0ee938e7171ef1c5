/**
 Where the work below the root comes from. In every interleaving of the tree, what a child is
 handed was injected at the root, addressed to that child, and reaches it unchanged but for
 the address; so a verified answer that the root relays was computed from what was injected.
 */
module AgentOrigins {
  import opened Wrappers
  import opened AgentMachine
  import opened AgentTraces
  import opened AgentTree
  import opened AgentLaws
  import opened AgentRelays

  /** The same run under the same id, of which o names the child and d names none. */
  predicate Addressed(o: Directive, child: string, d: Directive) {
    && o.body.Run? && d.body.Run? && o.cid == d.cid
    && o.body.run.task == d.body.run.task && o.body.run.args == d.body.run.args
    && o.body.run.verifier == d.body.run.verifier
    && child != "" && o.body.run.child == Some(child) && d.body.run.child == None
  }

  // ----- one agent: what is forwarded was handed over -----

  lemma StepForwards(world: World, s: State, e: Event, child: string, d: Directive)
    requires Forwarded(child, d) in EventStep(world, s, e).effects
    ensures e.FromParent? && Addressed(e.directive, child, d)
  {
    if s.alive && e.FromParent? && NamedChild(e.directive).None? { HandlingIsQuiet(world, s, e.directive, e.catalog); }
  }

  lemma {:induction false} ForwardedWasHanded(
      world: World, s: State, history: seq<Event>, child: string, d: Directive)
    returns (e: Event)
    requires Forwarded(child, d) in Runs(world, s, history).effects
    ensures e in history && e.FromParent? && Addressed(e.directive, child, d)
    decreases |history|
  {
    var n := |history| - 1;
    var before := Runs(world, s, history[..n]);
    if Forwarded(child, d) in before.effects {
      e := ForwardedWasHanded(world, s, history[..n], child, d);
    } else {
      e := history[n];
      StepForwards(world, before.state, e, child, d);
    }
  }

  // ----- the tree: what the root was handed was injected -----

  ghost predicate RootWasInjected(t: Tree, moves: seq<Move>) {
    && [] in t.histories
    && (forall e :: e in t.histories[[]] && e.FromParent? ==> Inject(e.directive) in moves)
    && forall d :: d in Queued(t.down, []) ==> Inject(d) in moves
  }

  /** The root's history and its channel, before and after. */
  ghost predicate RootGains(t: Tree, u: Tree, gained: seq<Event>) {
    && [] in t.histories && [] in u.histories && u.histories[[]] == t.histories[[]] + gained
    && forall d :: d in Queued(u.down, []) ==> d in Queued(t.down, [])
  }

  lemma RoutingLeavesRoot(t: Tree, p: Path, effects: seq<Effect>)
    requires [] in t.histories
    ensures RootGains(t, RouteAll(t, p, effects), [])
  {
    AllAreRouted(t, p, effects);
  }

  lemma ActLeavesRoot(world: World, t: Tree, p: Path, e: Event)
    requires [] in t.histories && p in t.histories
    ensures RootGains(t, Act(world, t, p, e), if p == [] then [e] else [])
  {
    RoutingLeavesRoot(Recorded(t, p, e), p, EventStep(world, StateOf(world, t, p), e).effects);
  }

  lemma MoveKeepsInjected(world: World, t: Tree, m: Move, moves: seq<Move>)
    requires RootWasInjected(t, moves) && m in moves
    ensures RootWasInjected(MoveStep(world, t, m), moves)
  {
    match m
    case Inject(d) =>
    case Handle(p, catalog) =>
      var queue := Queued(t.down, p);
      if p in t.histories && queue != [] {
        ActLeavesRoot(world, t.(down := t.down[p := queue[1..]]), p, FromParent(queue[0], catalog));
      }
    case Drain(p, child) =>
      var queue := Queued(t.up, p + [child]);
      if p in t.histories && queue != [] {
        ActLeavesRoot(world, t.(up := t.up[p + [child] := queue[1..]]), p, FromChild(child, Message(queue[0])));
      }
    case ConfigureChild(p, child, c, catalog) =>
      if p + [child] in t.histories { ActLeavesRoot(world, t, p + [child], ConfiguredByParent(c, catalog)); }
  }

  lemma MoreMoves(t: Tree, moves: seq<Move>, more: seq<Move>)
    requires RootWasInjected(t, moves) && moves <= more
    ensures RootWasInjected(t, more)
  {
    assert forall m :: m in moves ==> m in more;
  }

  lemma {:induction false} ReachableWasInjected(world: World, kinds: set<string>, moves: seq<Move>)
    ensures RootWasInjected(TreeRun(world, InitialTree(kinds), moves), moves)
    decreases |moves|
  {
    if moves != [] {
      var n := |moves| - 1;
      ReachableWasInjected(world, kinds, moves[..n]);
      MoreMoves(TreeRun(world, InitialTree(kinds), moves[..n]), moves[..n], moves);
      MoveKeepsInjected(world, TreeRun(world, InitialTree(kinds), moves[..n]), moves[n], moves);
    }
  }

  // ----- every directive below the root -----

  ghost predicate WasInjected(moves: seq<Move>, child: string, d: Directive) {
    exists o :: Inject(o) in moves && Addressed(o, child, d)
  }

  lemma ForwardedWasInjected(world: World, kinds: set<string>, moves: seq<Move>, child: string, d: Directive)
    requires ForwardedTo(world, TreeRun(world, InitialTree(kinds), moves), child, d)
    ensures WasInjected(moves, child, d)
  {
    var t := TreeRun(world, InitialTree(kinds), moves);
    ReachableWasInjected(world, kinds, moves);
    var e := ForwardedWasHanded(world, Initial("root", t.kinds), t.histories[[]], child, d);
    assert Inject(e.directive) in moves;
  }

  /**
   In every run and interleaving: a directive that waits on a child's channel, or that a child
   was handed, was injected at the root under the same id, with the same task, arguments and
   verifier, addressed to that child.
   */
  lemma ChildrenDoWhatWasInjected(
      world: World, kinds: set<string>, moves: seq<Move>, child: string, d: Directive, catalog: map<string, Entry>)
    ensures var t := TreeRun(world, InitialTree(kinds), moves);
      d in Queued(t.down, [child]) || ([child] in t.histories && FromParent(d, catalog) in t.histories[[child]])
      ==> WasInjected(moves, child, d)
  {
    var t := TreeRun(world, InitialTree(kinds), moves);
    ReachableIsTraced(world, kinds, moves);
    if d in Queued(t.down, [child]) {
      ForwardedWasInjected(world, kinds, moves, child, d);
    }
    if [child] in t.histories && FromParent(d, catalog) in t.histories[[child]] {
      assert Grounded(world, t, [child], FromParent(d, catalog));
      ForwardedWasInjected(world, kinds, moves, child, d);
    }
  }

  // ----- verified answers -----

  /** In state s the injected run's task returned r's value, and it passed. */
  predicate ComputedFrom(world: World, s: State, o: Directive, r: Response) {
    && o.body.Run? && o.body.run.task.Some? && o.body.run.task.value in s.registry
    && var callable := s.registry[o.body.run.task.value].callable;
    && callable.Some? && world.run(callable.value, o.body.run.args) == Returned(r.value)
    && Passes(world, s, o.body.run, r.value)
  }

  lemma ComputedAsInjected(world: World, s: State, o: Directive, child: string, d: Directive, r: Response)
    requires Addressed(o, child, d) && Computed(world, s, d, r)
    ensures ComputedFrom(world, s, o, r)
  {
    VerdictSays(world, s, d.body.run, r.value);
    assert Passes(world, s, d.body.run, r.value) == Passes(world, s, o.body.run, r.value);
  }

  /**
   In every run and interleaving, a verified response that the root relays answers a directive
   that was injected under its id and addressed to the child it names: that child was handed
   the directive, ran its task on the injected arguments to this value, and the value passed
   the injected verifier, or the child's own if none was named.
   */
  lemma VerifiedRelayIsComputed(world: World, kinds: set<string>, moves: seq<Move>, r: Response)
    returns (o: Directive, d: Directive, k: nat)
    requires r.verified && [] in TreeRun(world, InitialTree(kinds), moves).histories
    requires Relayed(r) in RunOf(world, TreeRun(world, InitialTree(kinds), moves), []).effects
    ensures Inject(o) in moves && o.cid == r.cid && Addressed(o, r.node, d)
    ensures var t := TreeRun(world, InitialTree(kinds), moves);
      && ForwardedTo(world, t, r.node, d) && SentBy(world, t, r.node, r) && k < |t.histories[[r.node]]|
      && t.histories[[r.node]][k].FromParent? && t.histories[[r.node]][k].directive == d
      && ComputedFrom(world, Runs(world, Initial(r.node, kinds), t.histories[[r.node]][..k]).state, o, r)
  {
    var t := TreeRun(world, InitialTree(kinds), moves);
    ReachableIsTraced(world, kinds, moves);
    KindsNeverChange(world, InitialTree(kinds), moves);
    var child := RelayIsHeard(world, Initial("root", kinds), t.histories[[]], r);
    assert Grounded(world, t, [], FromChild(child, Message(r)));
    d, k := ChildComputed(world, t, child, r);
    ForwardedWasInjected(world, kinds, moves, child, d);
    o :| Inject(o) in moves && Addressed(o, child, d);
    ComputedAsInjected(world, Runs(world, Initial(child, kinds), t.histories[[child]][..k]).state, o, child, d, r);
  }
}
