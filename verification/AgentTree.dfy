/**
 The whole tree: agents exchanging directives and responses over FIFO channels, in any
 interleaving. Each agent is its history of events, so what holds of every run of one
 agent holds of every agent in every reachable tree.
 */
module AgentTree {
  import opened Wrappers
  import opened AgentMachine
  import opened AgentTraces

  // The identities from the root down to an agent; the root is [].
  type Path = seq<string>

  datatype Tree = Tree(
    kinds: set<string>, histories: map<Path, seq<Event>>,
    down: map<Path, seq<Directive>>, up: map<Path, seq<Response>>)

  datatype Move =
    | Inject(directive: Directive)
    | Handle(at: Path, catalog: map<string, Entry>)
    | Drain(at: Path, child: string)
    | ConfigureChild(at: Path, child: string, configure: ConfigurePayload, catalog: map<string, Entry>)

  function InitialTree(kinds: set<string>): Tree {
    Tree(kinds, map[[] := []], map[], map[])
  }

  function NameOf(p: Path): string {
    if p == [] then "root" else p[|p| - 1]
  }

  function RunOf(world: World, t: Tree, p: Path): Step
    requires p in t.histories
  {
    Runs(world, Initial(NameOf(p), t.kinds), t.histories[p])
  }

  function StateOf(world: World, t: Tree, p: Path): State
    requires p in t.histories
  {
    RunOf(world, t, p).state
  }

  function Queued<T>(channels: map<Path, seq<T>>, p: Path): seq<T> {
    if p in channels then channels[p] else []
  }

  // ----- moves -----

  /** Put one effect of an agent onto the channels, or make the child it spawned. */
  function Route(t: Tree, p: Path, x: Effect): Tree {
    match x
    case Sent(r) => t.(up := t.up[p := Queued(t.up, p) + [r]])
    case Relayed(r) => t.(up := t.up[p := Queued(t.up, p) + [r]])
    case Forwarded(child, d) => t.(down := t.down[p + [child] := Queued(t.down, p + [child]) + [d]])
    case Spawned(id) => t.(histories := t.histories[p + [id] := []])
    case _ => t
  }

  function RouteAll(t: Tree, p: Path, effects: seq<Effect>): Tree
    decreases |effects|
  {
    if effects == [] then t else RouteAll(Route(t, p, effects[0]), p, effects[1..])
  }

  /** Killing an agent kills everything below it. */
  function KillBelow(t: Tree, p: Path): Tree {
    t.(histories := map q | q in t.histories :: if p < q then t.histories[q] + [KilledByParent] else t.histories[q])
  }

  function Recorded(t: Tree, p: Path, e: Event): Tree
    requires p in t.histories
  {
    t.(histories := t.histories[p := t.histories[p] + [e]])
  }

  /** The tree once everything the agent did has been put on the channels. */
  function Delivered(world: World, t: Tree, p: Path, e: Event): Tree
    requires p in t.histories
  {
    RouteAll(Recorded(t, p, e), p, EventStep(world, StateOf(world, t, p), e).effects)
  }

  function Act(world: World, t: Tree, p: Path, e: Event): Tree
    requires p in t.histories
  {
    var died := StateOf(world, t, p).alive && !EventStep(world, StateOf(world, t, p), e).state.alive;
    if died then KillBelow(Delivered(world, t, p, e), p) else Delivered(world, t, p, e)
  }

  /** A move that is not enabled leaves the tree as it is. */
  function MoveStep(world: World, t: Tree, m: Move): Tree {
    match m
    case Inject(d) => t.(down := t.down[[] := Queued(t.down, []) + [d]])
    case Handle(p, catalog) =>
      var queue := Queued(t.down, p);
      if p !in t.histories || queue == [] then t
      else Act(world, t.(down := t.down[p := queue[1..]]), p, FromParent(queue[0], catalog))
    case Drain(p, child) =>
      var queue := Queued(t.up, p + [child]);
      if p !in t.histories || child !in StateOf(world, t, p).children || queue == [] then t
      else Act(world, t.(up := t.up[p + [child] := queue[1..]]), p, FromChild(child, Message(queue[0])))
    case ConfigureChild(p, child, c, catalog) =>
      if p !in t.histories || child !in StateOf(world, t, p).children || p + [child] !in t.histories then t
      else Act(world, t, p + [child], ConfiguredByParent(c, catalog))
  }

  function TreeRun(world: World, t: Tree, moves: seq<Move>): Tree {
    if moves == [] then t
    else MoveStep(world, TreeRun(world, t, moves[..|moves| - 1]), moves[|moves| - 1])
  }

  // ----- nothing is delegated twice -----

  /** What a parent may put on a child's channel: a run directive that names no child. */
  predicate Undelegatable(d: Directive) {
    d.body.Run? && NamedChild(d).None?
  }

  /** An agent that has only been handed undelegatable work, or acted on by its parent in-process. */
  predicate Handed(e: Event) {
    match e
    case FromParent(d, _) => Undelegatable(d)
    case FromChild(_, _) => false
    case _ => true
  }

  ghost predicate LeafHistory(history: seq<Event>) {
    forall i :: 0 <= i < |history| ==> Handed(history[i])
  }

  /** The invariant: the tree is at most one level deep, and below the root only undelegatable work arrives. */
  ghost predicate TreeOk(t: Tree) {
    && [] in t.histories
    && (forall p :: p in t.histories ==> |p| <= 1)
    && (forall p :: p in t.histories && p != [] ==> LeafHistory(t.histories[p]))
    && (forall p, i :: p in t.down && p != [] && 0 <= i < |t.down[p]| ==> Undelegatable(t.down[p][i]))
  }

  predicate LeafEffect(x: Effect) {
    !x.Forwarded? && !x.Spawned? && !x.Relayed?
  }

  lemma HandedIsLeaf(world: World, s: State, e: Event)
    requires Handed(e)
    ensures var step := EventStep(world, s, e);
      && (forall i :: 0 <= i < |step.effects| ==> LeafEffect(step.effects[i]))
      && (s.children == {} ==> step.state.children == {})
  {
  }

  /** In every run of handed events there are no children, no delegations and no relays. */
  lemma {:induction false} LeafRun(world: World, s: State, history: seq<Event>)
    requires LeafHistory(history) && s.children == {}
    ensures Runs(world, s, history).state.children == {}
    ensures forall i :: 0 <= i < |Runs(world, s, history).effects| ==> LeafEffect(Runs(world, s, history).effects[i])
    decreases |history|
  {
    if history != [] {
      var n := |history| - 1;
      LeafRun(world, s, history[..n]);
      HandedIsLeaf(world, Runs(world, s, history[..n]).state, history[n]);
    }
  }

  lemma LeafRouteKeeps(t: Tree, p: Path, x: Effect)
    requires TreeOk(t) && LeafEffect(x)
    ensures TreeOk(Route(t, p, x)) && Route(t, p, x).histories == t.histories
  {
  }

  lemma {:induction false} LeafRoutesKeep(t: Tree, p: Path, effects: seq<Effect>)
    requires TreeOk(t) && forall i :: 0 <= i < |effects| ==> LeafEffect(effects[i])
    ensures TreeOk(RouteAll(t, p, effects)) && RouteAll(t, p, effects).histories == t.histories
    decreases |effects|
  {
    if effects != [] {
      LeafRouteKeeps(t, p, effects[0]);
      LeafRoutesKeep(Route(t, p, effects[0]), p, effects[1..]);
    }
  }

  predicate ForwardsStripped(x: Effect) {
    x.Forwarded? ==> Undelegatable(x.directive)
  }

  lemma StepForwardsStripped(world: World, s: State, e: Event)
    ensures forall i :: 0 <= i < |EventStep(world, s, e).effects| ==>
      ForwardsStripped(EventStep(world, s, e).effects[i])
  {
  }

  lemma RootRouteKeeps(t: Tree, x: Effect)
    requires TreeOk(t) && ForwardsStripped(x)
    ensures TreeOk(Route(t, [], x))
  {
    assert forall id: string :: |[] + [id]| == 1;
  }

  lemma {:induction false} RootRoutesKeep(t: Tree, effects: seq<Effect>)
    requires TreeOk(t) && forall i :: 0 <= i < |effects| ==> ForwardsStripped(effects[i])
    ensures TreeOk(RouteAll(t, [], effects))
    decreases |effects|
  {
    if effects != [] {
      RootRouteKeeps(t, effects[0]);
      RootRoutesKeep(Route(t, [], effects[0]), effects[1..]);
    }
  }

  lemma KillKeeps(t: Tree, p: Path)
    requires TreeOk(t)
    ensures TreeOk(KillBelow(t, p))
  {
  }

  lemma RecordKeeps(t: Tree, p: Path, e: Event)
    requires TreeOk(t) && p in t.histories && (p != [] ==> Handed(e))
    ensures TreeOk(Recorded(t, p, e))
  {
  }

  lemma DeliveryKeeps(world: World, t: Tree, p: Path, e: Event)
    requires TreeOk(t) && p in t.histories && (p != [] ==> Handed(e))
    ensures TreeOk(Delivered(world, t, p, e))
  {
    var step := EventStep(world, StateOf(world, t, p), e);
    RecordKeeps(t, p, e);
    if p == [] {
      StepForwardsStripped(world, StateOf(world, t, p), e);
      RootRoutesKeep(Recorded(t, p, e), step.effects);
    } else {
      HandedIsLeaf(world, StateOf(world, t, p), e);
      LeafRoutesKeep(Recorded(t, p, e), p, step.effects);
    }
  }

  lemma ActKeeps(world: World, t: Tree, p: Path, e: Event)
    requires TreeOk(t) && p in t.histories && (p != [] ==> Handed(e))
    ensures TreeOk(Act(world, t, p, e))
  {
    DeliveryKeeps(world, t, p, e);
    KillKeeps(Delivered(world, t, p, e), p);
  }

  lemma ChannelsKeep(t: Tree, p: Path)
    requires TreeOk(t)
    ensures Queued(t.down, p) != [] ==> TreeOk(t.(down := t.down[p := Queued(t.down, p)[1..]]))
    ensures Queued(t.up, p) != [] ==> TreeOk(t.(up := t.up[p := Queued(t.up, p)[1..]]))
  {
  }

  /** Below the root there is nothing to drain. */
  lemma LeafHasNoChildren(world: World, t: Tree, p: Path)
    requires TreeOk(t) && p in t.histories && p != []
    ensures StateOf(world, t, p).children == {}
    ensures forall i :: 0 <= i < |RunOf(world, t, p).effects| ==> LeafEffect(RunOf(world, t, p).effects[i])
  {
    LeafRun(world, Initial(NameOf(p), t.kinds), t.histories[p]);
  }

  lemma MoveKeeps(world: World, t: Tree, m: Move)
    requires TreeOk(t)
    ensures TreeOk(MoveStep(world, t, m))
  {
    match m
    case Inject(d) =>
    case Handle(p, catalog) =>
      var queue := Queued(t.down, p);
      if p in t.histories && queue != [] {
        ChannelsKeep(t, p);
        ActKeeps(world, t.(down := t.down[p := queue[1..]]), p, FromParent(queue[0], catalog));
      }
    case Drain(p, child) =>
      if p in t.histories {
        if p != [] { LeafHasNoChildren(world, t, p); }
        if child in StateOf(world, t, p).children && Queued(t.up, p + [child]) != [] {
          ChannelsKeep(t, p + [child]);
          ActKeeps(world, t.(up := t.up[p + [child] := Queued(t.up, p + [child])[1..]]), p,
            FromChild(child, Message(Queued(t.up, p + [child])[0])));
        }
      }
    case ConfigureChild(p, child, c, catalog) =>
      if p + [child] in t.histories { ActKeeps(world, t, p + [child], ConfiguredByParent(c, catalog)); }
  }

  lemma {:induction false} ReachableIsOk(world: World, kinds: set<string>, moves: seq<Move>)
    ensures TreeOk(TreeRun(world, InitialTree(kinds), moves))
    decreases |moves|
  {
    if moves != [] {
      ReachableIsOk(world, kinds, moves[..|moves| - 1]);
      MoveKeeps(world, TreeRun(world, InitialTree(kinds), moves[..|moves| - 1]), moves[|moves| - 1]);
    }
  }

  /**
   In every run and interleaving of the tree: every agent is the root or its direct
   child; only the root forwards, relays or spawns; and what waits on a child's channel
   is a run directive that names no child, so nothing forwarded is delegated again.
   */
  lemma NothingIsDelegatedTwice(world: World, kinds: set<string>, moves: seq<Move>, p: Path)
    requires p in TreeRun(world, InitialTree(kinds), moves).histories && p != []
    ensures var t := TreeRun(world, InitialTree(kinds), moves);
      && |p| == 1
      && (forall i :: 0 <= i < |RunOf(world, t, p).effects| ==> LeafEffect(RunOf(world, t, p).effects[i]))
      && forall i :: 0 <= i < |Queued(t.down, p)| ==> Undelegatable(Queued(t.down, p)[i])
  {
    ReachableIsOk(world, kinds, moves);
    LeafHasNoChildren(world, TreeRun(world, InitialTree(kinds), moves), p);
  }

  /**
   In every run and interleaving, each agent's verified relays were accepted by its verifier
   in force at the time, relays never outnumber delegations, no id is invoked after an
   answer, and work since the last grant is within the envelope.
   */
  lemma EveryAgentIsSafe(world: World, kinds: set<string>, moves: seq<Move>, p: Path, i: nat, j: nat, cid: string)
    requires p in TreeRun(world, InitialTree(kinds), moves).histories
    ensures var run := RunOf(world, TreeRun(world, InitialTree(kinds), moves), p);
      && RelayedCount(run.effects, cid) <= ForwardedCount(run.effects, cid)
      && Accounted(run.state, run.effects)
      && (i < |run.effects| && run.effects[i].Relayed? ==>
           exists k :: 0 <= k < |TreeRun(world, InitialTree(kinds), moves).histories[p]| &&
             Justified(world,
               Runs(world, Initial(NameOf(p), kinds),
                 TreeRun(world, InitialTree(kinds), moves).histories[p][..k]).state,
               run.effects[i].response))
      && (i < j < |run.effects| && run.effects[i].Invoked? && run.effects[i].answered && run.effects[j].Invoked? ==>
           run.effects[i].fingerprint.cid != run.effects[j].fingerprint.cid)
  {
    var t := TreeRun(world, InitialTree(kinds), moves);
    KindsNeverChange(world, InitialTree(kinds), moves);
    var s, history := Initial(NameOf(p), kinds), t.histories[p];
    RelaysAreOwed(world, s, history, cid);
    BudgetsHold(world, s, history);
    var run := Runs(world, s, history);
    if i < |run.effects| && run.effects[i].Relayed? {
      var k := RelaysAreJustified(world, s, history, i);
    }
    if i < j < |run.effects| && run.effects[i].Invoked? && run.effects[i].answered && run.effects[j].Invoked? {
      AnsweredOnce(world, s, history, i, j);
    }
  }

  lemma {:induction false} RoutesKeepKinds(t: Tree, p: Path, effects: seq<Effect>)
    ensures RouteAll(t, p, effects).kinds == t.kinds
    decreases |effects|
  {
    if effects != [] { RoutesKeepKinds(Route(t, p, effects[0]), p, effects[1..]); }
  }

  lemma ActKeepsKinds(world: World, t: Tree, p: Path, e: Event)
    requires p in t.histories
    ensures Act(world, t, p, e).kinds == t.kinds
  {
    RoutesKeepKinds(Recorded(t, p, e), p, EventStep(world, StateOf(world, t, p), e).effects);
  }

  lemma MoveKeepsKinds(world: World, t: Tree, m: Move)
    ensures MoveStep(world, t, m).kinds == t.kinds
  {
    match m
    case Inject(d) =>
    case Handle(p, catalog) =>
      var queue := Queued(t.down, p);
      if p in t.histories && queue != [] {
        ActKeepsKinds(world, t.(down := t.down[p := queue[1..]]), p, FromParent(queue[0], catalog));
      }
    case Drain(p, child) =>
      var queue := Queued(t.up, p + [child]);
      if p in t.histories && queue != [] {
        ActKeepsKinds(world, t.(up := t.up[p + [child] := queue[1..]]), p, FromChild(child, Message(queue[0])));
      }
    case ConfigureChild(p, child, c, catalog) =>
      if p + [child] in t.histories { ActKeepsKinds(world, t, p + [child], ConfiguredByParent(c, catalog)); }
  }

  lemma {:induction false} KindsNeverChange(world: World, t: Tree, moves: seq<Move>)
    ensures TreeRun(world, t, moves).kinds == t.kinds
    decreases |moves|
  {
    if moves != [] {
      KindsNeverChange(world, t, moves[..|moves| - 1]);
      MoveKeepsKinds(world, TreeRun(world, t, moves[..|moves| - 1]), moves[|moves| - 1]);
    }
  }
}
