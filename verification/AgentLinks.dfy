/**
 The tree's structure over every run: the root's children are in the tree and live while it
 does, what each move adds to the root's run and to a child's, and exactly what routing puts
 on the channels.
 */
module AgentLinks {
  import opened Wrappers
  import opened AgentMachine
  import opened AgentTraces
  import opened AgentTree
  import opened AgentRelays

  // ----- who is in the tree -----

  /** Everything the root has done; every reached tree has a root. */
  function RootRun(world: World, t: Tree): Step {
    if [] in t.histories then RunOf(world, t, []) else Step(Initial("root", t.kinds), [])
  }

  function RootState(world: World, t: Tree): State {
    RootRun(world, t).state
  }

  /** The root's children are in the tree, nothing waits for anyone else, and they live while the root does. */
  ghost predicate Linked(world: World, t: Tree) {
    && [] in t.histories
    && (forall c: string :: c in RootState(world, t).children ==> [c] in t.histories)
    && (forall c: string :: Queued(t.down, [c]) != [] ==> [c] in t.histories)
    && (RootState(world, t).alive ==> forall c: string :: [c] in t.histories ==> StateOf(world, t, [c]).alive)
  }

  ghost predicate Sound(world: World, t: Tree) {
    Traced(world, t) && Linked(world, t)
  }

  lemma {:induction false} SpawnedAreMade(t: Tree, p: Path, effects: seq<Effect>, id: string)
    requires Spawned(id) in effects
    ensures p + [id] in RouteAll(t, p, effects).histories
    decreases |effects|
  {
    if effects[0] == Spawned(id) {
      AllAreRouted(Route(t, p, effects[0]), p, effects[1..]);
    } else {
      SpawnedAreMade(Route(t, p, effects[0]), p, effects[1..], id);
    }
  }

  lemma ForwardsToChildren(world: World, s: State, e: Event, child: string, d: Directive)
    requires Forwarded(child, d) in EventStep(world, s, e).effects
    ensures s.alive && child in s.children && e.FromParent? && d.cid == e.directive.cid
    ensures NamedChild(e.directive) == Some(child)
    ensures EventStep(world, s, e) == Step(s.(delegated := s.delegated[d.cid := child]), [Forwarded(child, d)])
  {
    if s.alive && e.FromParent? && NamedChild(e.directive).None? { HandlingIsQuiet(world, s, e.directive, e.catalog); }
  }

  lemma NewChildrenAreSpawned(world: World, s: State, e: Event, c: string)
    requires c in EventStep(world, s, e).state.children && c !in s.children
    ensures Spawned(c) in EventStep(world, s, e).effects
  {
    if s.alive && e.FromParent?
      && NamedChild(e.directive).None? { OnlySpawnsMakeChildren(world, s, e.directive, e.catalog); }
  }

  lemma OnlySpawnsMakeChildren(world: World, s: State, d: Directive, catalog: map<string, Entry>)
    ensures !d.body.Spawn? ==> HandleStep(world, s, d, catalog).state.children <= s.children
  {
    if d.body.Run? { RunKeepsChildren(world, s, d); }
  }

  lemma RunKeepsChildren(world: World, s: State, d: Directive)
    requires d.body.Run?
    ensures RunStep(world, s, d).state.children == s.children
  {
  }

  /** What an agent below the root is handed never kills it. */
  lemma HandedKeepsAlive(world: World, s: State, e: Event)
    requires s.alive && Handed(e) && e != KilledByParent
    ensures EventStep(world, s, e).state.alive
  {
  }

  /** The state of an agent after its own act, and of the others. */
  lemma StatesAfter(world: World, t: Tree, p: Path, e: Event, u: Tree, q: Path)
    requires Acts(world, t, p, e, u) && q in u.histories
    ensures q == p ==> StateOf(world, u, q) == EventStep(world, StateOf(world, t, p), e).state
    ensures q != p ==>
      (q in t.histories
        && StateOf(world, u, q) == StateOf(world, t, q)) || StateOf(world, u, q) == Initial(NameOf(q), t.kinds)
  {
    RecordedEffects(world, t, p, e);
  }

  lemma ActKeepsMembers(world: World, t: Tree, p: Path, e: Event, c: string)
    requires p in t.histories && Acts(world, t, p, e, Delivered(world, t, p, e)) && Linked(world, t)
    requires c in RootState(world, Delivered(world, t, p, e)).children
    ensures [c] in Delivered(world, t, p, e).histories
  {
    var u := Delivered(world, t, p, e);
    StatesAfter(world, t, p, e, u, []);
    if p == [] && c !in RootState(world, t).children {
      NewChildrenAreSpawned(world, RootState(world, t), e, c);
      SpawnedAreMade(Recorded(t, p, e), p, EventStep(world, StateOf(world, t, p), e).effects, c);
      assert [] + [c] == [c];
    }
  }

  lemma ActKeepsWaiting(world: World, t: Tree, p: Path, e: Event, c: string)
    requires p in t.histories && Acts(world, t, p, e, Delivered(world, t, p, e)) && Linked(world, t)
    requires Queued(Delivered(world, t, p, e).down, [c]) != []
    ensures [c] in Delivered(world, t, p, e).histories
  {
    var u := Delivered(world, t, p, e);
    var d := Queued(u.down, [c])[0];
    assert d in Queued(u.down, [c]);
    if d !in Queued(t.down, [c]) {
      assert NameOf([c]) == c;
      ForwardsToChildren(world, StateOf(world, t, p), e, c, d);
    }
  }

  lemma ActKeepsAlive(world: World, t: Tree, p: Path, e: Event, c: string)
    requires p in t.histories && Acts(world, t, p, e, Delivered(world, t, p, e)) && Linked(world, t) && (p != [] ==>
      e != KilledByParent)
    requires RootState(world, Delivered(world, t, p, e)).alive && [c] in Delivered(world, t, p, e).histories
    ensures StateOf(world, Delivered(world, t, p, e), [c]).alive
  {
    var u := Delivered(world, t, p, e);
    StatesAfter(world, t, p, e, u, []);
    StatesAfter(world, t, p, e, u, [c]);
    if p == [] {
      ChildrenAreKept(world, RootState(world, t), e);
    } else if p == [c] {
      HandedKeepsAlive(world, StateOf(world, t, p), e);
    }
  }

  lemma DeliveryKeepsLinks(world: World, t: Tree, p: Path, e: Event)
    requires p in t.histories && Acts(world, t, p, e, Delivered(world, t, p, e)) && Linked(world, t) && (p != [] ==>
      e != KilledByParent)
    ensures Linked(world, Delivered(world, t, p, e))
  {
    var u := Delivered(world, t, p, e);
    forall c: string | c in RootState(world, u).children
      ensures [c] in u.histories
    {
      ActKeepsMembers(world, t, p, e, c);
    }
    forall c: string | Queued(u.down, [c]) != []
      ensures [c] in u.histories
    {
      ActKeepsWaiting(world, t, p, e, c);
    }
    forall c: string | RootState(world, u).alive && [c] in u.histories
      ensures StateOf(world, u, [c]).alive
    {
      ActKeepsAlive(world, t, p, e, c);
    }
  }

  /** Once the root is dead it has no children. */
  lemma DeadLinks(world: World, u: Tree)
    requires Linked(world, u) && !RootState(world, u).alive
    ensures Linked(world, KillBelow(u, []))
  {
    assert KillBelow(u, []).histories[[]] == u.histories[[]];
  }

  lemma ActKeepsLinks(world: World, t: Tree, p: Path, e: Event)
    requires Sound(world, t) && p in t.histories && Grounded(world, t, p, e) && (p != [] ==> e != KilledByParent)
    ensures Sound(world, Act(world, t, p, e))
  {
    var u := Delivered(world, t, p, e);
    DeliveryActs(world, t, p, e);
    DeliveryKeepsLinks(world, t, p, e);
    ActIsTraced(world, t, p, e);
    StatesAfter(world, t, p, e, u, p);
    if p == [] {
      if Act(world, t, p, e) != u { DeadLinks(world, u); }
    } else if StateOf(world, t, p).alive {
      HandedKeepsAlive(world, StateOf(world, t, p), e);
    }
  }

  lemma SameHistoriesKeepLinks(world: World, t: Tree, u: Tree)
    requires Linked(world, t) && u.kinds == t.kinds && u.histories == t.histories
    requires forall c: string :: Queued(u.down, [c]) != [] ==> Queued(t.down, [c]) != []
    ensures Linked(world, u)
  {
    assert forall p :: p in t.histories ==> StateOf(world, u, p) == StateOf(world, t, p);
  }

  lemma PopIsSound(world: World, t: Tree, p: Path)
    requires Sound(world, t)
    ensures Queued(t.down, p) != [] ==> Sound(world, t.(down := t.down[p := Queued(t.down, p)[1..]]))
    ensures Queued(t.up, p) != [] ==> Sound(world, t.(up := t.up[p := Queued(t.up, p)[1..]]))
  {
    PopIsTraced(world, t, p);
    if Queued(t.down, p) != [] { SameHistoriesKeepLinks(world, t, t.(down := t.down[p := Queued(t.down, p)[1..]])); }
    if Queued(t.up, p) != [] { SameHistoriesKeepLinks(world, t, t.(up := t.up[p := Queued(t.up, p)[1..]])); }
  }

  lemma MoveIsSound(world: World, t: Tree, m: Move)
    requires Sound(world, t)
    ensures Sound(world, MoveStep(world, t, m))
  {
    match m
    case Inject(d) =>
      MoveIsTraced(world, t, m);
      SameHistoriesKeepLinks(world, t, MoveStep(world, t, m));
    case Handle(p, catalog) =>
      var queue := Queued(t.down, p);
      if p in t.histories && queue != [] {
        var popped, e := t.(down := t.down[p := queue[1..]]), FromParent(queue[0], catalog);
        PopIsSound(world, t, p);
        HandledIsGrounded(world, t, p, catalog);
        GrownKeepsGrounded(world, t, popped, p, e);
        ActKeepsLinks(world, popped, p, e);
      }
    case Drain(p, child) =>
      var queue := Queued(t.up, p + [child]);
      if p in t.histories && child in StateOf(world, t, p).children && queue != [] {
        if p != [] { LeafHasNoChildren(world, t, p); }
        var popped, e := t.(up := t.up[p + [child] := queue[1..]]), FromChild(child, Message(queue[0]));
        PopIsSound(world, t, p + [child]);
        DrainedIsGrounded(world, t, child);
        GrownKeepsGrounded(world, t, popped, p, e);
        ActKeepsLinks(world, popped, p, e);
      }
    case ConfigureChild(p, child, c, catalog) =>
      if p in t.histories && p + [child] in t.histories {
        ActKeepsLinks(world, t, p + [child], ConfiguredByParent(c, catalog));
      }
  }

  lemma {:induction false} ReachableIsSound(world: World, kinds: set<string>, moves: seq<Move>)
    ensures Sound(world, TreeRun(world, InitialTree(kinds), moves))
    decreases |moves|
  {
    if moves == [] {
      ReachableIsTraced(world, kinds, []);
    } else {
      ReachableIsSound(world, kinds, moves[..|moves| - 1]);
      MoveIsSound(world, TreeRun(world, InitialTree(kinds), moves[..|moves| - 1]), moves[|moves| - 1]);
    }
  }

  /** Some run leads to the tree. */
  ghost predicate Reached(world: World, t: Tree) {
    exists kinds: set<string>, moves: seq<Move> :: t == TreeRun(world, InitialTree(kinds), moves)
  }

  lemma ReachedIsSound(world: World, t: Tree)
    requires Reached(world, t)
    ensures Sound(world, t)
  {
    var kinds: set<string>, moves: seq<Move> :| t == TreeRun(world, InitialTree(kinds), moves);
    ReachableIsSound(world, kinds, moves);
  }

  lemma MoveIsReached(world: World, t: Tree, m: Move)
    requires Reached(world, t)
    ensures Reached(world, MoveStep(world, t, m))
  {
    RunOne(world, t, m);
    ReachedOn(world, t, [m]);
  }

  lemma ReachedOn(world: World, t: Tree, moves: seq<Move>)
    requires Reached(world, t)
    ensures Reached(world, TreeRun(world, t, moves))
  {
    var kinds: set<string>, run: seq<Move> :| t == TreeRun(world, InitialTree(kinds), run);
    RunsJoin(world, InitialTree(kinds), run, moves);
  }

  // ----- answers are given under the id that was asked -----

  ghost predicate CidsKept(s: State) {
    forall d :: d in s.results ==> s.results[d].cid == d.cid
  }

  lemma RunStepKeepsCids(world: World, s: State, d: Directive)
    requires d.body.Run? && CidsKept(s)
    ensures CidsKept(RunStep(world, s, d).state)
    ensures forall r :: Sent(r) in RunStep(world, s, d).effects ==> r.cid == d.cid
  {
  }

  lemma StepKeepsCids(world: World, s: State, e: Event)
    requires CidsKept(s)
    ensures CidsKept(EventStep(world, s, e).state)
  {
    if s.alive && e.FromParent? && NamedChild(e.directive).None? && e.directive.body.Run? {
      RunStepKeepsCids(world, s, e.directive);
    } else {
      OthersLeaveCache(world, s, e);
    }
  }

  lemma {:induction false} RunKeepsCids(world: World, s: State, events: seq<Event>)
    requires s.results == map[]
    ensures CidsKept(Runs(world, s, events).state)
    decreases |events|
  {
    if events != [] {
      RunKeepsCids(world, s, events[..|events| - 1]);
      StepKeepsCids(world, Runs(world, s, events[..|events| - 1]).state, events[|events| - 1]);
    }
  }

  /** What a child sends answers the directive it was just handed. */
  lemma ChildAnswersAsked(world: World, t: Tree, c: string, e: Event, r: Response)
    requires [c] in t.histories && Handed(e) && e != Malformed
    requires Sent(r) in EventStep(world, StateOf(world, t, [c]), e).effects
    ensures e.FromParent? && r.cid == e.directive.cid
  {
    var s := StateOf(world, t, [c]);
    RunKeepsCids(world, Initial(c, t.kinds), t.histories[[c]]);
    if e.ConfiguredByParent? { ConfigureCharges(s, e.configure, e.catalog); }
    if e.FromParent? { RunStepKeepsCids(world, s, e.directive); }
  }

  // ----- what a move adds to the root's run -----

  /** What an act adds to the root's run: the root's own step, or nothing. */
  lemma RootAfterAct(world: World, t: Tree, p: Path, e: Event)
    requires Sound(world, t) && p in t.histories && Grounded(world, t, p, e)
    ensures [] in Act(world, t, p, e).histories
    ensures p == [] ==>
      var step := EventStep(world, RootState(world, t), e);
      RootRun(world, Act(world, t, p, e)) == Step(step.state, RootRun(world, t).effects + step.effects)
    ensures p != [] ==> RootRun(world, Act(world, t, p, e)) == RootRun(world, t)
  {
    var u := Delivered(world, t, p, e);
    DeliveryActs(world, t, p, e);
    RecordedEffects(world, t, p, e);
    assert u.histories[[]] == Recorded(t, p, e).histories[[]];
    assert Act(world, t, p, e).histories[[]] == u.histories[[]];
  }

  /** The root's run after a move: its own step on what it handled or drained, or nothing. */
  lemma RootAfterMove(world: World, t: Tree, m: Move)
    requires Sound(world, t)
    ensures [] in MoveStep(world, t, m).histories
    ensures m.Drain? && m.at == [] && m.child in RootState(world, t).children && Queued(t.up, [] + [m.child]) != [] ==>
      var step := EventStep(world, RootState(world, t), FromChild(m.child, Message(Queued(t.up, [] + [m.child])[0])));
      RootRun(world, MoveStep(world, t, m)) == Step(step.state, RootRun(world, t).effects + step.effects)
    ensures m.Handle? && m.at == [] && Queued(t.down, []) != [] ==>
      var step := EventStep(world, RootState(world, t), FromParent(Queued(t.down, [])[0], m.catalog));
      RootRun(world, MoveStep(world, t, m)) == Step(step.state, RootRun(world, t).effects + step.effects)
    ensures !(m.Drain? && m.at == []) && !(m.Handle? && m.at == []) ==>
      RootRun(world, MoveStep(world, t, m)) == RootRun(world, t)
  {
    match m
    case Inject(d) =>
    case Handle(p, catalog) =>
      var queue := Queued(t.down, p);
      if p in t.histories && queue != [] {
        var popped, e := t.(down := t.down[p := queue[1..]]), FromParent(queue[0], catalog);
        PopIsSound(world, t, p);
        HandledIsGrounded(world, t, p, catalog);
        GrownKeepsGrounded(world, t, popped, p, e);
        RootAfterAct(world, popped, p, e);
      }
    case Drain(p, child) =>
      var queue := Queued(t.up, p + [child]);
      if p in t.histories && child in StateOf(world, t, p).children && queue != [] {
        if p != [] { LeafHasNoChildren(world, t, p); }
        var popped, e := t.(up := t.up[p + [child] := queue[1..]]), FromChild(child, Message(queue[0]));
        PopIsSound(world, t, p + [child]);
        DrainedIsGrounded(world, t, child);
        GrownKeepsGrounded(world, t, popped, p, e);
        RootAfterAct(world, popped, p, e);
      }
    case ConfigureChild(p, child, c, catalog) =>
      if p in t.histories && p + [child] in t.histories {
        RootAfterAct(world, t, p + [child], ConfiguredByParent(c, catalog));
      }
  }

  // ----- what a child's act does -----

  lemma {:induction false} RunsJoin(world: World, t: Tree, a: seq<Move>, b: seq<Move>)
    ensures TreeRun(world, t, a + b) == TreeRun(world, TreeRun(world, t, a), b)
    decreases |b|
  {
    if b == [] {
      assert a + b == a;
    } else {
      assert (a + b)[..|a + b| - 1] == a + b[..|b| - 1];
      RunsJoin(world, t, a, b[..|b| - 1]);
    }
  }

  lemma RunOne(world: World, t: Tree, m: Move)
    ensures TreeRun(world, t, [m]) == MoveStep(world, t, m)
  {
    assert [m][..0] == [];
    assert TreeRun(world, t, []) == t;
  }

  lemma RouteOne(t: Tree, p: Path, x: Effect)
    ensures RouteAll(t, p, [x]) == Route(t, p, x)
  {
    assert [x][1..] == [];
  }

  // ----- exactly what routing puts on the channels -----

  function Said(effects: seq<Effect>): seq<Response> {
    if effects == [] then []
    else
      match effects[0]
      case Sent(r) => [r] + Said(effects[1..])
      case Relayed(r) => [r] + Said(effects[1..])
      case _ => Said(effects[1..])
  }

  function ForwardsTo(effects: seq<Effect>, child: string): seq<Directive> {
    if effects == [] then []
    else if effects[0].Forwarded? && effects[0].child == child then
      [effects[0].directive] + ForwardsTo(effects[1..], child)
    else ForwardsTo(effects[1..], child)
  }

  /** The agent's own channel gains what it said, its children's what it forwarded to them. */
  ghost predicate RoutedAs(t: Tree, p: Path, effects: seq<Effect>, u: Tree) {
    && (forall q {:trigger Queued(u.up, q)} ::
      Queued(u.up, q) == Queued(t.up, q) + if q == p then Said(effects) else [])
    && (forall q {:trigger Queued(u.down, q)} ::
      Queued(u.down, q) == Queued(t.down, q) + if q == p + [NameOf(q)] then ForwardsTo(effects, NameOf(q)) else [])
  }

  lemma OneRoutedAs(t: Tree, p: Path, x: Effect)
    ensures RoutedAs(t, p, [x], Route(t, p, x))
  {
    assert [x][1..] == [];
    if x.Forwarded? { assert NameOf(p + [x.child]) == x.child; }
  }

  lemma SaidFirst(x: Effect, rest: seq<Effect>, child: string)
    ensures Said([x] + rest) == Said([x]) + Said(rest)
    ensures ForwardsTo([x] + rest, child) == ForwardsTo([x], child) + ForwardsTo(rest, child)
  {
    assert [x][1..] == [] && ([x] + rest)[1..] == rest;
  }

  lemma UpJoins(t: Tree, p: Path, x: Effect, middle: Tree, rest: seq<Effect>, u: Tree, q: Path)
    requires RoutedAs(t, p, [x], middle) && RoutedAs(middle, p, rest, u)
    ensures Queued(u.up, q) == Queued(t.up, q) + if q == p then Said([x] + rest) else []
  {
    SaidFirst(x, rest, "");
    assert Queued(middle.up, q) == Queued(t.up, q) + if q == p then Said([x]) else [];
  }

  lemma DownJoins(t: Tree, p: Path, x: Effect, middle: Tree, rest: seq<Effect>, u: Tree, q: Path)
    requires RoutedAs(t, p, [x], middle) && RoutedAs(middle, p, rest, u)
    ensures Queued(u.down, q) ==
      Queued(t.down, q) + if q == p + [NameOf(q)] then ForwardsTo([x] + rest, NameOf(q)) else []
  {
    var c := NameOf(q);
    SaidFirst(x, rest, c);
    var mine, theirs := ForwardsTo([x], c), ForwardsTo(rest, c);
    if q == p + [c] {
      assert Queued(middle.down, q) == Queued(t.down, q) + mine;
      assert Queued(u.down, q) == Queued(middle.down, q) + theirs;
    }
  }

  lemma RoutedAsJoins(t: Tree, p: Path, x: Effect, middle: Tree, rest: seq<Effect>, u: Tree)
    requires RoutedAs(t, p, [x], middle) && RoutedAs(middle, p, rest, u)
    ensures RoutedAs(t, p, [x] + rest, u)
  {
    forall q
      ensures Queued(u.up, q) == Queued(t.up, q) + if q == p then Said([x] + rest) else []
    {
      UpJoins(t, p, x, middle, rest, u, q);
    }
    forall q
      ensures Queued(u.down, q) ==
        Queued(t.down, q) + if q == p + [NameOf(q)] then ForwardsTo([x] + rest, NameOf(q)) else []
    {
      DownJoins(t, p, x, middle, rest, u, q);
    }
  }

  lemma {:induction false} AllRoutedAs(t: Tree, p: Path, effects: seq<Effect>)
    ensures RoutedAs(t, p, effects, RouteAll(t, p, effects))
    decreases |effects|
  {
    if effects != [] {
      OneRoutedAs(t, p, effects[0]);
      AllRoutedAs(Route(t, p, effects[0]), p, effects[1..]);
      RoutedAsJoins(t, p, effects[0], Route(t, p, effects[0]), effects[1..], RouteAll(t, p, effects));
      assert [effects[0]] + effects[1..] == effects;
    }
  }

  lemma {:induction false} QuietForwardsNone(effects: seq<Effect>, child: string)
    requires forall i :: 0 <= i < |effects| ==> Quiet(effects[i])
    ensures ForwardsTo(effects, child) == []
  {
    if effects != [] { QuietForwardsNone(effects[1..], child); }
  }

  // ----- a step of the root -----

  /** The channels show a step of the root. */
  ghost predicate RootSpoke(t: Tree, effects: seq<Effect>, u: Tree) {
    && Queued(u.down, []) == Queued(t.down, []) && Queued(u.up, []) == Queued(t.up, []) + Said(effects)
    && (forall c: string :: Queued(u.up, [c]) == Queued(t.up, [c]))
    && forall c: string :: Queued(u.down, [c]) == Queued(t.down, [c]) + ForwardsTo(effects, c)
  }

  /** The agents show a step of the root. */
  ghost predicate RootMoved(t: Tree, step: Step, world: World, u: Tree) {
    && [] in t.histories && [] in u.histories && u.kinds == t.kinds && RootState(world, u) == step.state
    && (forall c: string :: [c] in u.histories <==> [c] in t.histories || Spawned(c) in step.effects)
    && forall c: string :: [c] in u.histories ==>
      StateOf(world, u, [c]) == if [c] in t.histories then StateOf(world, t, [c]) else Initial(c, t.kinds)
  }

  /** The living root took a step: its channel, its children's and its children show just that. */
  ghost predicate RootStepped(t: Tree, step: Step, world: World, u: Tree) {
    RootMoved(t, step, world, u) && RootSpoke(t, step.effects, u)
  }

  lemma RootActs(world: World, t: Tree, e: Event, u: Tree)
    requires Sound(world, t) && Grounded(world, t, [], e) && u == Act(world, t, [], e)
    requires RootState(world, t).alive && EventStep(world, RootState(world, t), e).state.alive
    ensures RootStepped(t, EventStep(world, RootState(world, t), e), world, u)
  {
    var effects := EventStep(world, RootState(world, t), e).effects;
    DeliveryActs(world, t, [], e);
    AllRoutedAs(Recorded(t, [], e), [], effects);
    StatesAfter(world, t, [], e, u, []);
    RootChannels(t, Recorded(t, [], e), effects, u);
    forall c: string
      ensures [c] in u.histories <==> [c] in t.histories || Spawned(c) in effects
      ensures [c] in u.histories ==>
        StateOf(world, u, [c]) == if [c] in t.histories then StateOf(world, t, [c]) else Initial(c, t.kinds)
    {
      RootsChild(world, t, e, u, c);
    }
  }

  lemma RootChannels(t: Tree, r: Tree, effects: seq<Effect>, u: Tree)
    requires RoutedAs(r, [], effects, u) && r.up == t.up && r.down == t.down
    ensures RootSpoke(t, effects, u)
  {
    forall c: string
      ensures Queued(u.down, [c]) == Queued(t.down, [c]) + ForwardsTo(effects, c)
    {
      assert [] + [NameOf([c])] == [c];
    }
  }

  lemma RootsChild(world: World, t: Tree, e: Event, u: Tree, c: string)
    requires Acts(world, t, [], e, u) && u == Delivered(world, t, [], e)
    ensures [c] in u.histories <==> [c] in t.histories || Spawned(c) in EventStep(world, RootState(world, t), e).effects
    ensures [c] in u.histories ==>
      StateOf(world, u, [c]) == if [c] in t.histories then StateOf(world, t, [c]) else Initial(c, t.kinds)
  {
    assert [] + [c] == [c] && NameOf([c]) == c;
    if Spawned(c) in EventStep(world, RootState(world, t), e).effects {
      SpawnIsNew(world, t, [], e, c);
      SpawnedAreMade(Recorded(t, [], e), [], EventStep(world, RootState(world, t), e).effects, c);
    }
  }

  lemma RunTwo(world: World, t: Tree, m: Move, n: Move)
    ensures TreeRun(world, t, [m, n]) == MoveStep(world, MoveStep(world, t, m), n)
  {
    RunOne(world, t, m);
    RunOne(world, MoveStep(world, t, m), n);
    RunsJoin(world, t, [m], [n]);
    assert [m] + [n] == [m, n];
  }

  /** The root handles the one directive that waits for it. */
  lemma RootHandles(world: World, t: Tree, d: Directive, catalog: map<string, Entry>, step: Step) returns (u: Tree)
    requires Reached(world, t) && RootState(world, t).alive && Queued(t.down, []) == [d]
    requires step == EventStep(world, RootState(world, t), FromParent(d, catalog)) && step.state.alive
    ensures u == MoveStep(world, t, Handle([], catalog)) && Reached(world, u)
    ensures RootStepped(t.(down := t.down[[] := []]), step, world, u)
  {
    var popped, e := t.(down := t.down[[] := []]), FromParent(d, catalog);
    assert Queued(t.down, [])[1..] == [];
    u := MoveStep(world, t, Handle([], catalog));
    ReachedIsSound(world, t);
    MoveIsReached(world, t, Handle([], catalog));
    PopIsSound(world, t, []);
    RootActs(world, popped, e, u);
  }

  lemma Injecting(world: World, t: Tree, d: Directive) returns (told: Tree)
    requires Reached(world, t) && Queued(t.down, []) == []
    ensures told == MoveStep(world, t, Inject(d)) && Reached(world, told) && Queued(told.down, []) == [d]
    ensures told.histories == t.histories && told.kinds == t.kinds && told.up == t.up
    ensures RootState(world, told) == RootState(world, t)
    ensures forall c: string :: Queued(told.down, [c]) == Queued(t.down, [c])
  {
    told := MoveStep(world, t, Inject(d));
    MoveIsReached(world, t, Inject(d));
  }

  /** The root is handed a directive while nothing else waits for it. */
  lemma Tell(world: World, t: Tree, d: Directive, catalog: map<string, Entry>, step: Step) returns (u: Tree)
    requires Reached(world, t) && RootState(world, t).alive && Queued(t.down, []) == []
    requires step == EventStep(world, RootState(world, t), FromParent(d, catalog)) && step.state.alive
    ensures u == TreeRun(world, t, [Inject(d), Handle([], catalog)]) && Reached(world, u)
    ensures RootStepped(t, step, world, u)
  {
    var told := Injecting(world, t, d);
    RunTwo(world, t, Inject(d), Handle([], catalog));
    u := RootHandles(world, told, d, catalog, step);
    SameStart(world, t, told.(down := told.down[[] := []]), step, u);
  }

  lemma SameStart(world: World, t: Tree, popped: Tree, step: Step, u: Tree)
    requires RootStepped(popped, step, world, u) && popped.histories == t.histories && popped.kinds == t.kinds
    requires popped.up == t.up && Queued(popped.down, []) == Queued(t.down, [])
    requires forall c: string :: Queued(popped.down, [c]) == Queued(t.down, [c])
    ensures RootStepped(t, step, world, u)
  {
    SameMoved(world, t, popped, step, u);
  }

  lemma SameMoved(world: World, t: Tree, popped: Tree, step: Step, u: Tree)
    requires RootMoved(popped, step, world, u) && popped.histories == t.histories && popped.kinds == t.kinds
    ensures RootMoved(t, step, world, u)
  {
    forall c: string | [c] in u.histories
      ensures StateOf(world, u, [c]) == if [c] in t.histories then StateOf(world, t, [c]) else Initial(c, t.kinds)
    {
      assert [c] in t.histories ==> StateOf(world, popped, [c]) == StateOf(world, t, [c]);
    }
  }

  // ----- a step of a child -----

  /** The channels show what a child sent. */
  ghost predicate ChildSpoke(t: Tree, child: string, effects: seq<Effect>, u: Tree) {
    && Queued(u.down, []) == Queued(t.down, []) && Queued(u.up, []) == Queued(t.up, [])
    && (forall c: string :: Queued(u.down, [c]) == Queued(t.down, [c]))
    && forall c: string :: Queued(u.up, [c]) == Queued(t.up, [c]) + if c == child then Said(effects) else []
  }

  /** The agents show a step of a child. */
  ghost predicate ChildMoved(t: Tree, child: string, step: Step, world: World, u: Tree) {
    && [] in t.histories && [] in u.histories && u.kinds == t.kinds && RootState(world, u) == RootState(world, t)
    && (forall c: string :: [c] in u.histories <==> [c] in t.histories)
    && [child] in u.histories && StateOf(world, u, [child]) == step.state
    && forall c: string :: [c] in u.histories && c != child ==> StateOf(world, u, [c]) == StateOf(world, t, [c])
  }

  /** A child took a step: its own channel shows just that, and nothing else moved. */
  ghost predicate ChildStepped(t: Tree, child: string, step: Step, world: World, u: Tree) {
    ChildMoved(t, child, step, world, u) && ChildSpoke(t, child, step.effects, u)
  }

  lemma {:induction false} LeafForwardsNone(effects: seq<Effect>, child: string)
    requires forall i :: 0 <= i < |effects| ==> LeafEffect(effects[i])
    ensures ForwardsTo(effects, child) == []
  {
    if effects != [] { LeafForwardsNone(effects[1..], child); }
  }

  lemma LeafChannels(t: Tree, child: string, r: Tree, effects: seq<Effect>, u: Tree)
    requires RoutedAs(r, [child], effects, u) && r.up == t.up && r.down == t.down
    ensures ChildSpoke(t, child, effects, u)
  {
    forall c: string
      ensures Queued(u.down, [c]) == Queued(t.down, [c])
    {
      assert |[child] + [NameOf([c])]| == 2;
    }
    assert |[child] + [NameOf([])]| == 2;
  }

  lemma ChildActs(world: World, t: Tree, child: string, e: Event, u: Tree)
    requires Sound(world, t) && [child] in t.histories && Grounded(world, t, [child], e) && e != KilledByParent
    requires StateOf(world, t, [child]).alive && u == Act(world, t, [child], e)
    ensures ChildStepped(t, child, EventStep(world, StateOf(world, t, [child]), e), world, u)
  {
    var effects := EventStep(world, StateOf(world, t, [child]), e).effects;
    HandedKeepsAlive(world, StateOf(world, t, [child]), e);
    HandedIsLeaf(world, StateOf(world, t, [child]), e);
    RecordedIsOk(world, t, child, e);
    LeafRoutesKeep(Recorded(t, [child], e), [child], effects);
    AllRoutedAs(Recorded(t, [child], e), [child], effects);
    LeafChannels(t, child, Recorded(t, [child], e), effects, u);
    DeliveryActs(world, t, [child], e);
    StatesAfter(world, t, [child], e, u, []);
    StatesAfter(world, t, [child], e, u, [child]);
    forall c: string | [c] in u.histories && c != child
      ensures StateOf(world, u, [c]) == StateOf(world, t, [c])
    {
      StatesAfter(world, t, [child], e, u, [c]);
      assert u.histories[[c]] == t.histories[[c]];
    }
  }

  lemma RecordedIsOk(world: World, t: Tree, child: string, e: Event)
    requires Sound(world, t) && [child] in t.histories && Grounded(world, t, [child], e)
    ensures TreeOk(Recorded(t, [child], e))
  {
    RecordKeeps(t, [child], e);
  }

  /** A child handles the one directive that waits for it. */
  lemma TellChild(world: World, t: Tree, child: string, d: Directive, catalog: map<string, Entry>) returns (u: Tree)
    requires Reached(world, t) && [child] in t.histories && StateOf(world, t, [child]).alive
    requires Queued(t.down, [child]) == [d]
    ensures u == MoveStep(world, t, Handle([child], catalog)) && Reached(world, u)
    ensures ChildStepped(t.(down := t.down[[child] := []]), child,
      EventStep(world, StateOf(world, t, [child]), FromParent(d, catalog)), world, u)
  {
    var popped, e := t.(down := t.down[[child] := []]), FromParent(d, catalog);
    assert Queued(t.down, [child])[1..] == [];
    u := MoveStep(world, t, Handle([child], catalog));
    ReachedIsSound(world, t);
    MoveIsReached(world, t, Handle([child], catalog));
    PopIsSound(world, t, [child]);
    HandledIsGrounded(world, t, [child], catalog);
    GrownKeepsGrounded(world, t, popped, [child], e);
    ChildActs(world, popped, child, e, u);
  }

  /** The root drains the one answer that waits for it. */
  lemma Hear(world: World, t: Tree, child: string, r: Response) returns (u: Tree)
    requires Reached(world, t) && RootState(world, t).alive
    requires child in RootState(world, t).children && Queued(t.up, [child]) == [r]
    ensures u == MoveStep(world, t, Drain([], child)) && Reached(world, u)
    ensures RootStepped(t.(up :=
      t.up[[child] := []]), DrainStep(world, RootState(world, t), child, Message(r)), world, u)
  {
    assert [] + [child] == [child] && Queued(t.up, [child])[1..] == [];
    var popped, e := t.(up := t.up[[child] := []]), FromChild(child, Message(r));
    u := MoveStep(world, t, Drain([], child));
    ReachedIsSound(world, t);
    MoveIsReached(world, t, Drain([], child));
    PopIsSound(world, t, [child]);
    DrainedIsGrounded(world, t, child);
    GrownKeepsGrounded(world, t, popped, [], e);
    DrainLeaves(world, RootState(world, t), child, Message(r));
    RootActs(world, popped, e, u);
  }
}
