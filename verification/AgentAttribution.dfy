/**
 Whose answer settles a delegation. The root matches an answer to an outstanding delegation
 by correlation id alone: exactly when an id is never forwarded to another child while an
 earlier child still owes an answer under it, every answer comes from the child it was
 delegated to.
 */
module AgentAttribution {
  import opened Wrappers
  import opened AgentMachine
  import opened AgentTraces
  import opened AgentTree
  import opened AgentRelays
  import opened AgentLinks

  // ----- owing and settling -----

  /** A directive under the id waits for the child, or an answer of its waits for the root. */
  ghost predicate Owes(t: Tree, child: string, cid: string) {
    || (exists d :: d in Queued(t.down, [child]) && d.cid == cid)
    || (exists r :: r in Queued(t.up, [child]) && r.cid == cid)
  }

  /** Whoever owes an answer under the id is whom the outstanding delegation names. */
  ghost predicate Straight(world: World, t: Tree, cid: string) {
    [] in t.histories && RootState(world, t).alive && cid in RootState(world, t).delegated ==>
      forall c: string :: Owes(t, c, cid) ==> c == RootState(world, t).delegated[cid]
  }

  /** The child that the move makes the root forward a directive under the id to. */
  function ForwardTarget(world: World, t: Tree, m: Move, cid: string): Option<string> {
    if m.Handle? && m.at == [] && [] in t.histories && Queued(t.down, []) != [] && RootState(world, t).alive then
      var d := Queued(t.down, [])[0];
      if d.cid == cid && NamedChild(d).Some? && NamedChild(d).value in RootState(world, t).children then NamedChild(d)
      else None
    else None
  }

  /** The id is forwarded to another child than one that still owes an answer under it. */
  ghost predicate Crosses(world: World, t: Tree, m: Move, cid: string) {
    exists c: string :: ForwardTarget(world, t, m, cid).Some? && ForwardTarget(world, t, m, cid) != Some(c)
      && Owes(t, c, cid)
  }

  /** The move takes a child's answer for an outstanding delegation under the id. */
  predicate Settles(world: World, t: Tree, m: Move, cid: string) {
    && m.Drain? && m.at == [] && [] in t.histories && RootState(world, t).alive
    && m.child in RootState(world, t).children && Queued(t.up, [m.child]) != []
    && Queued(t.up, [m.child])[0].cid == cid && cid in RootState(world, t).delegated
  }

  /** And the delegation names another child. */
  predicate Misattributes(world: World, t: Tree, m: Move, cid: string) {
    Settles(world, t, m, cid) && RootState(world, t).delegated[cid] != m.child
  }

  lemma StraightAttributes(world: World, t: Tree, m: Move, cid: string)
    requires Straight(world, t, cid)
    ensures !Misattributes(world, t, m, cid)
  {
    if Settles(world, t, m, cid) {
      assert Queued(t.up, [m.child])[0] in Queued(t.up, [m.child]);
      assert Owes(t, m.child, cid);
    }
  }

  // ----- a move that does not cross keeps the tree straight -----

  /** The event has the agent ask child c something under the id. */
  predicate Asks(world: World, t: Tree, p: Path, e: Event, c: string, cid: string) {
    && p == [] && [] in t.histories && RootState(world, t).alive && e.FromParent? && e.directive.cid == cid
    && NamedChild(e.directive) == Some(c) && c in RootState(world, t).children
  }

  /** The event is a directive under the id for child c itself. */
  predicate Asked(p: Path, e: Event, c: string, cid: string) {
    p == [c] && e.FromParent? && e.directive.cid == cid
  }

  lemma AskingDelegates(world: World, t: Tree, p: Path, e: Event, c: string, cid: string)
    requires Asks(world, t, p, e, c, cid)
    ensures EventStep(world, RootState(world, t), e).state.delegated == RootState(world, t).delegated[cid := c]
  {
  }

  /** A delegation is new only if it was just asked. */
  lemma DelegatedAfter(world: World, t: Tree, e: Event, cid: string)
    requires [] in t.histories && cid in EventStep(world, RootState(world, t), e).state.delegated
    requires forall c: string :: !Asks(world, t, [], e, c, cid)
    ensures var s := RootState(world, t);
      cid in s.delegated && s.delegated[cid] == EventStep(world, s, e).state.delegated[cid]
  {
    var s := RootState(world, t);
    if s.alive && e.FromParent? {
      match NamedChild(e.directive)
      case None => HandlingIsQuiet(world, s, e.directive, e.catalog);
      case Some(child) => assert !Asks(world, t, [], e, child, cid);
    }
  }

  lemma QueuedBelow(t: Tree, p: Path, effects: seq<Effect>, u: Tree, c: string, d: Directive)
    requires RoutedDown(t, p, effects, u) && d in Queued(u.down, [c]) && d !in Queued(t.down, [c])
    ensures p == [] && Forwarded(c, d) in effects
  {
    assert NameOf([c]) == c;
  }

  lemma ForwardedBelow(world: World, t: Tree, p: Path, e: Event, u: Tree, c: string, d: Directive)
    requires Acts(world, t, p, e, u) && d in Queued(u.down, [c]) && d !in Queued(t.down, [c])
    ensures Asks(world, t, p, e, c, d.cid)
  {
    QueuedBelow(Recorded(t, p, e), p, EventStep(world, StateOf(world, t, p), e).effects, u, c, d);
    ForwardsToChildren(world, StateOf(world, t, p), e, c, d);
  }

  /** What is owed after an act was owed before, was just asked of the child, or was just forwarded. */
  lemma OwedAfterAct(world: World, t: Tree, p: Path, e: Event, u: Tree, c: string, cid: string)
    requires Acts(world, t, p, e, u) && Owes(u, c, cid)
    ensures Owes(t, c, cid) || Asked(p, e, c, cid) || Asks(world, t, p, e, c, cid)
  {
    if d :| d in Queued(u.down, [c]) && d.cid == cid {
      if d !in Queued(t.down, [c]) { ForwardedBelow(world, t, p, e, u, c, d); }
    } else {
      var r :| r in Queued(u.up, [c]) && r.cid == cid;
      if r !in Queued(t.up, [c]) { SentBelow(world, t, p, e, u, c, r); }
    }
  }

  lemma SentBelow(world: World, t: Tree, p: Path, e: Event, u: Tree, c: string, r: Response)
    requires Acts(world, t, p, e, u) && r in Queued(u.up, [c]) && r !in Queued(t.up, [c])
    ensures p == [c] && e.FromParent? && e.directive.cid == r.cid
  {
    HandedIsLeaf(world, StateOf(world, t, [c]), e);
    assert !LeafEffect(Relayed(r));
    ChildAnswersAsked(world, t, c, e, r);
  }

  /** What is asked under the id is asked of the child that the delegation names, or of the only one that owes. */
  ghost predicate AsksStraight(world: World, t: Tree, p: Path, e: Event, cid: string) {
    && [] in t.histories
    && (forall c: string, b: string :: Asks(world, t, p, e, b, cid) && Owes(t, c, cid) ==> c == b)
    && forall c: string :: Asked(p, e, c, cid) && RootState(world, t).alive && cid in RootState(world, t).delegated ==>
      RootState(world, t).delegated[cid] == c
  }

  lemma AskKeepsStraight(world: World, t: Tree, e: Event, u: Tree, b: string, cid: string)
    requires Acts(world, t, [], e, u) && AsksStraight(world, t, [], e, cid) && Asks(world, t, [], e, b, cid)
    ensures Straight(world, u, cid)
  {
    StatesAfter(world, t, [], e, u, []);
    AskingDelegates(world, t, [], e, b, cid);
    forall c: string | Owes(u, c, cid)
      ensures c == b
    {
      OwedAfterAct(world, t, [], e, u, c, cid);
    }
  }

  lemma OtherKeepsStraight(world: World, t: Tree, p: Path, e: Event, u: Tree, cid: string)
    requires Acts(world, t, p, e, u) && Straight(world, t, cid) && AsksStraight(world, t, p, e, cid)
    requires forall c: string :: !Asks(world, t, p, e, c, cid)
    ensures Straight(world, u, cid)
  {
    StatesAfter(world, t, p, e, u, []);
    if RootState(world, u).alive && cid in RootState(world, u).delegated {
      if p == [] {
        ChildrenAreKept(world, RootState(world, t), e);
        DelegatedAfter(world, t, e, cid);
      }
      forall c: string | Owes(u, c, cid)
        ensures c == RootState(world, t).delegated[cid]
      {
        OwedAfterAct(world, t, p, e, u, c, cid);
      }
    }
  }

  /** The act of an agent, on a tree from which what it handles was already taken. */
  lemma ActKeepsStraight(world: World, t: Tree, p: Path, e: Event, u: Tree, cid: string)
    requires Acts(world, t, p, e, u) && Straight(world, t, cid) && AsksStraight(world, t, p, e, cid)
    ensures Straight(world, u, cid)
  {
    if c: string :| Asks(world, t, p, e, c, cid) {
      AskKeepsStraight(world, t, e, u, c, cid);
    } else {
      OtherKeepsStraight(world, t, p, e, u, cid);
    }
  }

  lemma KillingKeepsStraight(world: World, u: Tree, p: Path, cid: string)
    requires Straight(world, u, cid) && [] in u.histories
    ensures Straight(world, KillBelow(u, p), cid)
  {
    var k := KillBelow(u, p);
    assert k.histories[[]] == u.histories[[]];
    assert forall c: string :: Owes(k, c, cid) ==> Owes(u, c, cid);
  }

  lemma StepKeepsStraight(world: World, t: Tree, p: Path, e: Event, cid: string)
    requires Sound(world, t) && p in t.histories && Grounded(world, t, p, e)
    requires Straight(world, t, cid) && AsksStraight(world, t, p, e, cid)
    ensures Straight(world, Act(world, t, p, e), cid)
  {
    DeliveryActs(world, t, p, e);
    ActKeepsStraight(world, t, p, e, Delivered(world, t, p, e), cid);
    KillingKeepsStraight(world, Delivered(world, t, p, e), p, cid);
  }

  /** Taking messages off the channels leaves less owed. */
  lemma LessIsStraight(world: World, t: Tree, u: Tree, cid: string)
    requires Straight(world, t, cid) && u.histories == t.histories && u.kinds == t.kinds
    requires forall c: string :: Owes(u, c, cid) ==> Owes(t, c, cid)
    ensures Straight(world, u, cid)
  {
  }

  lemma PopOwesLess(t: Tree, p: Path, c: string, cid: string)
    ensures Queued(t.down, p) != [] && Owes(t.(down := t.down[p := Queued(t.down, p)[1..]]), c, cid) ==> Owes(t, c, cid)
    ensures Queued(t.up, p) != [] && Owes(t.(up := t.up[p := Queued(t.up, p)[1..]]), c, cid) ==> Owes(t, c, cid)
  {
  }

  lemma HandleKeepsStraight(world: World, t: Tree, p: Path, catalog: map<string, Entry>, cid: string)
    requires Sound(world, t) && Straight(world, t, cid) && !Crosses(world, t, Handle(p, catalog), cid)
    requires p in t.histories && Queued(t.down, p) != []
    ensures Straight(world, MoveStep(world, t, Handle(p, catalog)), cid)
  {
    var queue := Queued(t.down, p);
    var popped, e := t.(down := t.down[p := queue[1..]]), FromParent(queue[0], catalog);
    PopIsSound(world, t, p);
    HandledIsGrounded(world, t, p, catalog);
    GrownKeepsGrounded(world, t, popped, p, e);
    forall c: string
      ensures Owes(popped, c, cid) ==> Owes(t, c, cid)
    {
      PopOwesLess(t, p, c, cid);
    }
    LessIsStraight(world, t, popped, cid);
    HandleAsksStraight(world, t, p, catalog, cid);
    StepKeepsStraight(world, popped, p, e, cid);
  }

  lemma HandleAsksStraight(world: World, t: Tree, p: Path, catalog: map<string, Entry>, cid: string)
    requires [] in t.histories && Straight(world, t, cid) && !Crosses(world, t, Handle(p, catalog), cid)
    requires p in t.histories && Queued(t.down, p) != []
    ensures var queue := Queued(t.down, p);
      AsksStraight(world, t.(down := t.down[p := queue[1..]]), p, FromParent(queue[0], catalog), cid)
  {
    var queue := Queued(t.down, p);
    var popped, e, m := t.(down := t.down[p := queue[1..]]), FromParent(queue[0], catalog), Handle(p, catalog);
    forall c: string, b: string | Asks(world, popped, p, e, b, cid) && Owes(popped, c, cid)
      ensures c == b
    {
      PopOwesLess(t, p, c, cid);
      assert ForwardTarget(world, t, m, cid) == Some(b);
    }
    forall c: string | Asked(p, e, c, cid)
      ensures Owes(t, c, cid)
    {
      assert queue[0] in Queued(t.down, [c]);
    }
  }

  lemma DrainKeepsStraight(world: World, t: Tree, child: string, cid: string)
    requires Sound(world, t) && Straight(world, t, cid)
    requires child in RootState(world, t).children && Queued(t.up, [] + [child]) != []
    ensures Straight(world, MoveStep(world, t, Drain([], child)), cid)
  {
    var p := [] + [child];
    var queue := Queued(t.up, p);
    var popped, e := t.(up := t.up[p := queue[1..]]), FromChild(child, Message(queue[0]));
    PopIsSound(world, t, p);
    DrainedIsGrounded(world, t, child);
    GrownKeepsGrounded(world, t, popped, [], e);
    forall c: string
      ensures Owes(popped, c, cid) ==> Owes(t, c, cid)
    {
      PopOwesLess(t, p, c, cid);
    }
    LessIsStraight(world, t, popped, cid);
    StepKeepsStraight(world, popped, [], e, cid);
  }

  /** In every interleaving: a move that does not cross keeps the tree straight. */
  lemma MoveKeepsStraight(world: World, t: Tree, m: Move, cid: string)
    requires Sound(world, t) && Straight(world, t, cid) && !Crosses(world, t, m, cid)
    ensures Straight(world, MoveStep(world, t, m), cid)
  {
    match m
    case Inject(d) =>
      LessIsStraight(world, t, MoveStep(world, t, m), cid);
    case Handle(p, catalog) =>
      if p in t.histories && Queued(t.down, p) != [] { HandleKeepsStraight(world, t, p, catalog, cid); }
    case Drain(p, child) =>
      if p in t.histories && child in StateOf(world, t, p).children && Queued(t.up, p + [child]) != [] {
        if p != [] { LeafHasNoChildren(world, t, p); }
        DrainKeepsStraight(world, t, child, cid);
      }
    case ConfigureChild(p, child, c, catalog) =>
      if p in t.histories && p + [child] in t.histories {
        StepKeepsStraight(world, t, p + [child], ConfiguredByParent(c, catalog), cid);
      }
  }

  // ----- every relay settles -----

  /** Only a child's answer to an outstanding delegation is relayed. */
  lemma StepRelaysOwed(world: World, s: State, e: Event, cid: string)
    requires RelayedCount(EventStep(world, s, e).effects, cid) > 0
    ensures s.alive && e.FromChild? && cid in s.delegated
    ensures e.message.Message? ==> e.message.response.cid == cid
  {
    StepOwes(world, s, e, cid);
    if forall i :: 0 <= i < |EventStep(world, s, e).effects| ==> Quiet(EventStep(world, s, e).effects[i]) {
      QuietCounts(EventStep(world, s, e).effects, cid);
    }
    if s.alive && e.FromParent? && NamedChild(e.directive).None? { HandlingIsQuiet(world, s, e.directive, e.catalog); }
  }

  function RelaysSoFar(world: World, t: Tree, cid: string): nat {
    RelayedCount(RootRun(world, t).effects, cid)
  }

  /** Whatever the root relays in a move under the id is a child's answer to an outstanding delegation. */
  lemma RelaysSettle(world: World, t: Tree, m: Move, cid: string)
    requires Sound(world, t) && [] in MoveStep(world, t, m).histories
    requires RelaysSoFar(world, MoveStep(world, t, m), cid) > RelaysSoFar(world, t, cid)
    ensures Settles(world, t, m, cid)
  {
    RootAfterMove(world, t, m);
    if m.Handle? && m.at == [] && Queued(t.down, []) != [] {
      var e := FromParent(Queued(t.down, [])[0], m.catalog);
      CountsAppend(RootRun(world, t).effects, EventStep(world, RootState(world, t), e).effects, cid);
      StepRelaysOwed(world, RootState(world, t), e, cid);
    } else if m.Drain? && m.at == [] && m.child in RootState(world, t).children && Queued(t.up, [] + [m.child]) != [] {
      var e := FromChild(m.child, Message(Queued(t.up, [] + [m.child])[0]));
      assert [] + [m.child] == [m.child];
      CountsAppend(RootRun(world, t).effects, EventStep(world, RootState(world, t), e).effects, cid);
      StepRelaysOwed(world, RootState(world, t), e, cid);
    }
  }

  // ----- moving a child along -----

  /** The moves that make a child handle what it was handed, and the root drain what it answered. */
  predicate ChildMove(m: Move, child: string) {
    match m
    case Handle(p, _) => p == [child]
    case Drain(p, c) => p == [] && c == child
    case ConfigureChild(p, c, _, _) => p == [] && c == child
    case Inject(_) => false
  }

  predicate ChildMoves(moves: seq<Move>, child: string) {
    forall i :: 0 <= i < |moves| ==> ChildMove(moves[i], child)
  }

  /** No steps left: every run directive is answered without running anything. */
  function NoSteps(): Envelope {
    Envelope(Some(0), None)
  }

  function Freeze(child: string): Move {
    ConfigureChild([], child, ConfigurePayload(Some(Some(NoSteps())), false, None, [], []), map[])
  }

  predicate Frozen(s: State) {
    s.alive && s.guard == Some(Guard(Some(NoSteps()), 0, 0))
  }

  lemma FrozenAnswers(world: World, s: State, d: Directive, catalog: map<string, Entry>) returns (r: Response)
    requires Frozen(s) && CidsKept(s) && Undelegatable(d)
    ensures EventStep(world, s, FromParent(d, catalog)) == Step(s, [Sent(r)]) && r.cid == d.cid
  {
    var step := RunStep(world, s, d);
    assert step.state == s && |step.effects| == 1 && step.effects[0].Sent?;
    r := step.effects[0].response;
    RunStepKeepsCids(world, s, d);
    assert Sent(r) in step.effects;
  }

  lemma FreezeFreezes(world: World, s: State)
    requires s.alive
    ensures var step := EventStep(world, s, ConfiguredByParent(Freeze("").configure, map[]));
      Frozen(step.state) && step.effects == [Granted]
  {
  }

  /** A child that is in the tree and frozen. */
  ghost predicate FrozenChild(world: World, t: Tree, child: string) {
    Reached(world, t) && [child] in t.histories && Frozen(StateOf(world, t, [child]))
  }

  /** After the freeze, the child is frozen and nothing has moved. */
  lemma FreezeMove(world: World, t: Tree, child: string)
    requires Reached(world, t) && RootState(world, t).alive && child in RootState(world, t).children
    ensures var u := MoveStep(world, t, Freeze(child));
      && FrozenChild(world, u, child) && RootRun(world, u) == RootRun(world, t)
      && Queued(u.up, [child]) == Queued(t.up, [child]) && Queued(u.down, [child]) == Queued(t.down, [child])
  {
    var e := ConfiguredByParent(Freeze(child).configure, map[]);
    assert [] + [child] == [child];
    ReachedIsSound(world, t);
    MoveIsReached(world, t, Freeze(child));
    RootAfterMove(world, t, Freeze(child));
    FreezeFreezes(world, StateOf(world, t, [child]));
    assert Said([Granted]) == [];
    ChildActs(world, t, child, e, MoveStep(world, t, Freeze(child)));
  }

  /** A frozen child answers the directive at the head of its channel, and stays frozen. */
  lemma HandleMove(world: World, t: Tree, child: string) returns (u: Tree, r: Response)
    requires FrozenChild(world, t, child) && Queued(t.down, [child]) != []
    ensures u == MoveStep(world, t, Handle([child], map[])) && FrozenChild(world, u, child)
    ensures RootRun(world, u) == RootRun(world, t) && Queued(u.up, [child]) == Queued(t.up, [child]) + [r]
    ensures Queued(u.down, [child]) == Queued(t.down, [child])[1..] && r.cid == Queued(t.down, [child])[0].cid
  {
    var queue := Queued(t.down, [child]);
    var popped, e := t.(down := t.down[[child] := queue[1..]]), FromParent(queue[0], map[]);
    u := MoveStep(world, t, Handle([child], map[]));
    ReachedIsSound(world, t);
    MoveIsReached(world, t, Handle([child], map[]));
    RootAfterMove(world, t, Handle([child], map[]));
    PopIsSound(world, t, [child]);
    HandledIsGrounded(world, t, [child], map[]);
    GrownKeepsGrounded(world, t, popped, [child], e);
    RunKeepsCids(world, Initial(child, t.kinds), t.histories[[child]]);
    r := FrozenAnswers(world, StateOf(world, t, [child]), queue[0], map[]);
    assert [Sent(r)][1..] == [] && Said([Sent(r)]) == [r];
    ChildActs(world, popped, child, e, u);
  }

  /** Moves of the child's lead from one tree to another. */
  ghost predicate Leads(world: World, t: Tree, child: string, moves: seq<Move>, u: Tree) {
    u == TreeRun(world, t, moves) && ChildMoves(moves, child)
  }

  lemma LeadsOn(world: World, t: Tree, child: string, m: Move, moves: seq<Move>, u: Tree)
    requires ChildMove(m, child) && Leads(world, MoveStep(world, t, m), child, moves, u)
    ensures Leads(world, t, child, [m] + moves, u)
  {
    RunOne(world, t, m);
    RunsJoin(world, t, [m], moves);
  }

  predicate Answers(responses: seq<Response>, directives: seq<Directive>) {
    |responses| == |directives| && forall i :: 0 <= i < |responses| ==> responses[i].cid == directives[i].cid
  }

  lemma MoreAnswers(
      before: seq<Response>, r: Response, rest: seq<Response>, directives: seq<Directive>, after: seq<Response>)
    requires directives != [] && r.cid == directives[0].cid && Answers(rest, directives[1..])
    requires after == before + [r] + rest
    ensures Answers([r] + rest, directives) && after == before + ([r] + rest)
  {
  }

  /** Everything that waited for the child has become an answer that waits for the root. */
  ghost predicate AllAnswered(world: World, t: Tree, child: string, u: Tree, answers: seq<Response>) {
    && RootRun(world, u) == RootRun(world, t)
    && Queued(u.down, [child]) == [] && Queued(u.up, [child]) == Queued(t.up, [child]) + answers
    && Answers(answers, Queued(t.down, [child]))
  }

  /** A frozen child answers everything that waits for it, in order. */
  lemma {:induction false} HandleAll(world: World, t: Tree, child: string)
    returns (moves: seq<Move>, u: Tree, answers: seq<Response>)
    requires FrozenChild(world, t, child)
    ensures Leads(world, t, child, moves, u) && Reached(world, u) && AllAnswered(world, t, child, u, answers)
    decreases |Queued(t.down, [child])|
  {
    if Queued(t.down, [child]) == [] {
      moves, u, answers := [], t, [];
    } else {
      var v, r := HandleMove(world, t, child);
      var more, rest;
      more, u, rest := HandleAll(world, v, child);
      moves, answers := [Handle([child], map[])] + more, [r] + rest;
      LeadsOn(world, t, child, Handle([child], map[]), more, u);
      MoreAnswers(Queued(t.up, [child]), r, rest, Queued(t.down, [child]), Queued(u.up, [child]));
    }
  }

  /** Freezing the child and letting it answer. */
  lemma Answering(world: World, t: Tree, child: string) returns (moves: seq<Move>, u: Tree)
    requires Reached(world, t) && RootState(world, t).alive && child in RootState(world, t).children
    ensures Leads(world, t, child, moves, u)
    ensures Reached(world, u) && RootRun(world, u) == RootRun(world, t) && Queued(u.down, [child]) == []
    ensures forall cid :: Owes(t, child, cid) ==> exists r :: r in Queued(u.up, [child]) && r.cid == cid
  {
    var v := MoveStep(world, t, Freeze(child));
    FreezeMove(world, t, child);
    var more, answers;
    more, u, answers := HandleAll(world, v, child);
    moves := [Freeze(child)] + more;
    LeadsOn(world, t, child, Freeze(child), more, u);
    forall cid | Owes(t, child, cid)
      ensures exists r :: r in Queued(u.up, [child]) && r.cid == cid
    {
      AnsweredOrWaiting(t, child, cid, Queued(u.up, [child]), answers);
    }
  }

  lemma AnsweredOrWaiting(t: Tree, child: string, cid: string, queue: seq<Response>, answers: seq<Response>)
    requires Owes(t, child, cid) && queue == Queued(t.up, [child]) + answers
      && Answers(answers, Queued(t.down, [child]))
    ensures exists r :: r in queue && r.cid == cid
  {
    if r :| r in Queued(t.up, [child]) && r.cid == cid {
      assert r in queue;
    } else {
      var d :| d in Queued(t.down, [child]) && d.cid == cid;
      var i :| 0 <= i < |answers| && Queued(t.down, [child])[i] == d;
      assert answers[i] in queue;
    }
  }

  /** Draining one answer that settles nothing under the id. */
  lemma DrainMove(world: World, t: Tree, child: string) returns (u: Tree)
    requires Reached(world, t) && RootState(world, t).alive && child in RootState(world, t).children
    requires Queued(t.up, [child]) != []
    ensures u == MoveStep(world, t, Drain([], child)) && Reached(world, u)
    ensures var r := Queued(t.up, [child])[0];
      var step := DrainStep(world, RootState(world, t), child, Message(r));
      && RootRun(world, u) == Step(step.state, RootRun(world, t).effects + step.effects)
      && step.state == RootState(world, t).(delegated := step.state.delegated)
      && step.state.delegated == RootState(world, t).delegated - {r.cid}
      && Queued(u.up, [child]) == Queued(t.up, [child])[1..] && Queued(u.down, [child]) == Queued(t.down, [child])
  {
    ReachedIsSound(world, t);
    assert [] + [child] == [child];
    var r := Queued(t.up, [child])[0];
    u := MoveStep(world, t, Drain([], child));
    MoveIsReached(world, t, Drain([], child));
    RootAfterMove(world, t, Drain([], child));
    DrainLeaves(world, RootState(world, t), child, Message(r));
    DrainPops(world, RootState(world, t), child, r);
    DrainedChannels(world, t, child);
  }

  lemma DrainPops(world: World, s: State, child: string, r: Response)
    ensures var step := DrainStep(world, s, child, Message(r));
      && step.state.delegated == s.delegated - {r.cid}
      && (step.effects == [] || (r.cid in s.delegated && exists q :: step.effects == [Relayed(q)] && q.cid == r.cid))
  {
  }

  /** A relay by the root reaches no child's channel. */
  lemma DrainedChannels(world: World, t: Tree, child: string)
    requires Reached(world, t) && RootState(world, t).alive && child in RootState(world, t).children
    requires Queued(t.up, [child]) != []
    ensures var u := MoveStep(world, t, Drain([], child));
      Queued(u.up, [child]) == Queued(t.up, [child])[1..] && Queued(u.down, [child]) == Queued(t.down, [child])
  {
    ReachedIsSound(world, t);
    assert [] + [child] == [child];
    var r := Queued(t.up, [child])[0];
    var popped := t.(up := t.up[[child] := Queued(t.up, [child])[1..]]);
    var recorded := Recorded(popped, [], FromChild(child, Message(r)));
    var effects := DrainStep(world, RootState(world, t), child, Message(r)).effects;
    DrainPops(world, RootState(world, t), child, r);
    if effects != [] { RouteOne(recorded, [], effects[0]); }
    assert effects == [] || effects == [effects[0]];
  }

  /** The root as it is but for the outstanding delegations, that under the id kept, and no relay under it. */
  ghost predicate Undisturbed(world: World, t: Tree, u: Tree, cid: string) {
    && [] in t.histories && Reached(world, u)
    && RootState(world, u) == RootState(world, t).(delegated := RootState(world, u).delegated)
    && (cid in RootState(world, u).delegated <==> cid in RootState(world, t).delegated)
    && (cid in RootState(world, t).delegated ==>
      RootState(world, u).delegated[cid] == RootState(world, t).delegated[cid])
    && RelaysSoFar(world, u, cid) == RelaysSoFar(world, t, cid)
  }

  lemma UndisturbedJoins(world: World, t: Tree, v: Tree, u: Tree, cid: string)
    requires Undisturbed(world, t, v, cid) && Undisturbed(world, v, u, cid)
    ensures Undisturbed(world, t, u, cid)
  {
  }

  /** An answer under another id, or under one that is not outstanding, disturbs nothing under this id. */
  lemma DrainUndisturbed(world: World, t: Tree, child: string, cid: string) returns (u: Tree)
    requires Reached(world, t) && RootState(world, t).alive && child in RootState(world, t).children
    requires Queued(t.up, [child]) != []
    requires Queued(t.up, [child])[0].cid != cid || cid !in RootState(world, t).delegated
    ensures u == MoveStep(world, t, Drain([], child)) && Undisturbed(world, t, u, cid)
    ensures Queued(u.up, [child]) == Queued(t.up, [child])[1..] && Queued(u.down, [child]) == Queued(t.down, [child])
  {
    u := DrainMove(world, t, child);
    var r := Queued(t.up, [child])[0];
    var step := DrainStep(world, RootState(world, t), child, Message(r));
    DrainPops(world, RootState(world, t), child, r);
    CountsAppend(RootRun(world, t).effects, step.effects, cid);
    NoRelayUnder(step.effects, cid, r.cid in RootState(world, t).delegated, r.cid);
  }

  lemma NoRelayUnder(effects: seq<Effect>, cid: string, owed: bool, other: string)
    requires effects == [] || (owed && exists q :: effects == [Relayed(q)] && q.cid == other)
    requires cid != other || !owed
    ensures RelayedCount(effects, cid) == 0
  {
  }

  /** Draining the first n answers, none of which settles anything under the id. */
  lemma {:induction false} DrainPast(world: World, t: Tree, child: string, n: nat, cid: string)
    returns (moves: seq<Move>, u: Tree)
    requires Reached(world, t) && RootState(world, t).alive && child in RootState(world, t).children
    requires n <= |Queued(t.up, [child])|
    requires cid !in RootState(world, t).delegated || forall i :: 0 <= i < n ==> Queued(t.up, [child])[i].cid != cid
    ensures Leads(world, t, child, moves, u) && Undisturbed(world, t, u, cid)
    ensures Queued(u.up, [child]) == Queued(t.up, [child])[n..] && Queued(u.down, [child]) == Queued(t.down, [child])
    decreases n
  {
    if n == 0 {
      moves, u := [], t;
    } else {
      var v := DrainUndisturbed(world, t, child, cid);
      var more;
      more, u := DrainPast(world, v, child, n - 1, cid);
      moves := [Drain([], child)] + more;
      LeadsOn(world, t, child, Drain([], child), more, u);
      UndisturbedJoins(world, t, v, u, cid);
    }
  }

  // ----- exactly when every answer is its child's -----

  /** The moves forward nothing under the id. */
  ghost predicate ForwardsNone(world: World, t: Tree, moves: seq<Move>, cid: string) {
    forall j {:trigger moves[j]} :: 0 <= j < |moves| ==>
      ForwardTarget(world, TreeRun(world, t, moves[..j]), moves[j], cid).None?
  }

  ghost predicate MisattributesAt(world: World, t: Tree, moves: seq<Move>, cid: string, j: nat)
    requires j < |moves|
  {
    Misattributes(world, TreeRun(world, t, moves[..j]), moves[j], cid)
  }

  /** In every continuation that does not forward the id again, every answer settles its own child's delegation. */
  ghost predicate Attributed(world: World, t: Tree, cid: string) {
    forall moves, j :: ForwardsNone(world, t, moves, cid) && 0 <= j < |moves| ==>
      !MisattributesAt(world, t, moves, cid, j)
  }

  lemma FrontForwardsNone(world: World, t: Tree, moves: seq<Move>, cid: string, j: nat)
    requires ForwardsNone(world, t, moves, cid) && j <= |moves|
    ensures ForwardsNone(world, t, moves[..j], cid)
  {
    forall i | 0 <= i < j
      ensures ForwardTarget(world, TreeRun(world, t, moves[..j][..i]), moves[..j][i], cid).None?
    {
      assert moves[..j][..i] == moves[..i] && moves[..j][i] == moves[i];
    }
  }

  lemma {:induction false} StaysStraight(world: World, t: Tree, moves: seq<Move>, cid: string)
    requires Reached(world, t) && Straight(world, t, cid) && ForwardsNone(world, t, moves, cid)
    ensures Reached(world, TreeRun(world, t, moves)) && Straight(world, TreeRun(world, t, moves), cid)
    decreases |moves|
  {
    if moves != [] {
      var n := |moves| - 1;
      FrontForwardsNone(world, t, moves, cid, n);
      StaysStraight(world, t, moves[..n], cid);
      assert ForwardTarget(world, TreeRun(world, t, moves[..n]), moves[n], cid).None?;
      MoveIsReached(world, TreeRun(world, t, moves[..n]), moves[n]);
      ReachedIsSound(world, TreeRun(world, t, moves[..n]));
      MoveKeepsStraight(world, TreeRun(world, t, moves[..n]), moves[n], cid);
    }
  }

  lemma ChildMovesForwardNone(world: World, t: Tree, moves: seq<Move>, child: string, cid: string)
    requires ChildMoves(moves, child)
    ensures ForwardsNone(world, t, moves, cid)
  {
  }

  /** Whoever owes an answer is a child of the living root. */
  lemma OwingIsChild(world: World, t: Tree, c: string, cid: string)
    requires Reached(world, t) && RootState(world, t).alive && Owes(t, c, cid)
    ensures c in RootState(world, t).children
  {
    ReachedIsSound(world, t);
    if d :| d in Queued(t.down, [c]) && d.cid == cid {
      assert Queued(t.down, [c]) != [];
    } else {
      var r :| r in Queued(t.up, [c]) && r.cid == cid;
      assert SentBy(world, t, c, r);
    }
  }

  lemma FirstUnder(queue: seq<Response>, cid: string) returns (n: nat)
    requires exists r :: r in queue && r.cid == cid
    ensures n < |queue| && queue[n].cid == cid && forall i :: 0 <= i < n ==> queue[i].cid != cid
  {
    n := 0;
    while queue[n].cid != cid
      invariant n < |queue| && (forall i :: 0 <= i < n ==> queue[i].cid != cid)
      invariant exists i :: n <= i < |queue| && queue[i].cid == cid
      decreases |queue| - n
    {
      n := n + 1;
    }
  }

  /** While a child owes an answer under an id, some continuation brings that answer to the root, disturbing nothing. */
  lemma AnswerArrives(world: World, t: Tree, child: string, cid: string) returns (moves: seq<Move>, u: Tree)
    requires Reached(world, t) && RootState(world, t).alive && Owes(t, child, cid)
    ensures Leads(world, t, child, moves, u) && Undisturbed(world, t, u, cid)
    ensures child in RootState(world, u).children && Queued(u.up, [child]) != [] && Queued(u.up, [child])[0].cid == cid
  {
    OwingIsChild(world, t, child, cid);
    var answering, v := Answering(world, t, child);
    var n := FirstUnder(Queued(v.up, [child]), cid);
    var draining;
    draining, u := DrainPast(world, v, child, n, cid);
    moves := answering + draining;
    RunsJoin(world, t, answering, draining);
  }

  /** An answer owed by another child than the delegation names can settle it. */
  lemma OwedMisattributes(world: World, t: Tree, child: string, cid: string) returns (moves: seq<Move>)
    requires Reached(world, t) && RootState(world, t).alive && Owes(t, child, cid)
    requires cid in RootState(world, t).delegated && RootState(world, t).delegated[cid] != child
    ensures ChildMoves(moves, child) && Misattributes(world, TreeRun(world, t, moves), Drain([], child), cid)
  {
    var u;
    moves, u := AnswerArrives(world, t, child, cid);
  }

  lemma StraightIsAttributed(world: World, t: Tree, cid: string)
    requires Reached(world, t) && Straight(world, t, cid)
    ensures Attributed(world, t, cid)
  {
    forall moves, j | ForwardsNone(world, t, moves, cid) && 0 <= j < |moves|
      ensures !MisattributesAt(world, t, moves, cid, j)
    {
      FrontForwardsNone(world, t, moves, cid, j);
      StaysStraight(world, t, moves[..j], cid);
      StraightAttributes(world, TreeRun(world, t, moves[..j]), moves[j], cid);
    }
  }

  lemma CrookedIsNot(world: World, t: Tree, cid: string)
    requires Reached(world, t) && !Straight(world, t, cid)
    ensures !Attributed(world, t, cid)
  {
    var c: string :| Owes(t, c, cid) && c != RootState(world, t).delegated[cid];
    var moves := OwedMisattributes(world, t, c, cid);
    var last := moves + [Drain([], c)];
    assert last[..|moves|] == moves;
    ChildMovesForwardNone(world, t, last, c, cid);
    assert MisattributesAt(world, t, last, cid, |moves|);
  }

  /**
   From any sound tree, and every reachable one is: in every continuation that does not forward
   the id again every answer settles its own child's delegation, if and only if whoever owes an
   answer under the id now is whom the outstanding delegation names.
   */
  lemma StraightExactly(world: World, t: Tree, cid: string)
    requires Reached(world, t)
    ensures Attributed(world, t, cid) <==> Straight(world, t, cid)
  {
    if Straight(world, t, cid) { StraightIsAttributed(world, t, cid); } else { CrookedIsNot(world, t, cid); }
  }

  // ----- whole runs -----

  ghost predicate CrossesAt(world: World, kinds: set<string>, moves: seq<Move>, cid: string, k: nat)
    requires k < |moves|
  {
    Crosses(world, TreeRun(world, InitialTree(kinds), moves[..k]), moves[k], cid)
  }

  /** The id is never forwarded to another child while an earlier one still owes an answer under it. */
  ghost predicate NeverCrosses(world: World, kinds: set<string>, moves: seq<Move>, cid: string) {
    forall k :: 0 <= k < |moves| ==> !CrossesAt(world, kinds, moves, cid, k)
  }

  ghost predicate StraightAt(world: World, kinds: set<string>, moves: seq<Move>, cid: string, k: nat)
    requires k <= |moves|
  {
    Straight(world, TreeRun(world, InitialTree(kinds), moves[..k]), cid)
  }

  lemma {:induction false} UncrossedIsStraight(
      world: World, kinds: set<string>, moves: seq<Move>, cid: string, k: nat)
    requires NeverCrosses(world, kinds, moves, cid) && k <= |moves|
    ensures StraightAt(world, kinds, moves, cid, k)
    decreases k
  {
    if k > 0 {
      UncrossedIsStraight(world, kinds, moves, cid, k - 1);
      assert !CrossesAt(world, kinds, moves, cid, k - 1);
      assert moves[..k][..k - 1] == moves[..k - 1];
      ReachableIsSound(world, kinds, moves[..k - 1]);
      MoveKeepsStraight(world, TreeRun(world, InitialTree(kinds), moves[..k - 1]), moves[k - 1], cid);
    }
  }

  /** A crossing leaves the earlier child owing while the delegation names the later one. */
  lemma CrossingIsCrooked(world: World, t: Tree, m: Move, cid: string)
    requires Reached(world, t) && Crosses(world, t, m, cid)
    ensures !Straight(world, MoveStep(world, t, m), cid)
  {
    ReachedIsSound(world, t);
    var c: string :| ForwardTarget(world, t, m, cid) != Some(c) && Owes(t, c, cid);
    var b, queue := ForwardTarget(world, t, m, cid).value, Queued(t.down, []);
    RootAfterMove(world, t, m);
    MoveIsReached(world, t, m);
    ForwardKeepsOwing(world, t, m, cid, c);
    assert RootState(world, MoveStep(world, t, m)).delegated[cid] == b;
  }

  /** Forwarding takes nothing off a child's channels. */
  lemma ForwardKeepsOwing(world: World, t: Tree, m: Move, cid: string, c: string)
    requires Reached(world, t) && ForwardTarget(world, t, m, cid).Some? && Owes(t, c, cid)
    ensures Owes(MoveStep(world, t, m), c, cid)
  {
    var b, queue := ForwardTarget(world, t, m, cid).value, Queued(t.down, []);
    var popped, e := t.(down := t.down[[] := queue[1..]]), FromParent(queue[0], m.catalog);
    var x := Forwarded(b, Stripped(queue[0]));
    RouteOne(Recorded(popped, [], e), [], x);
    assert [] + [b] == [b];
    assert Queued(t.down, [c]) <= Queued(MoveStep(world, t, m).down, [c]);
    assert Queued(t.up, [c]) == Queued(MoveStep(world, t, m).up, [c]);
  }

  lemma CrossedIsCrooked(world: World, kinds: set<string>, moves: seq<Move>, cid: string, k: nat)
    requires k < |moves| && CrossesAt(world, kinds, moves, cid, k)
    ensures !StraightAt(world, kinds, moves, cid, k + 1)
  {
    CrossingIsCrooked(world, TreeRun(world, InitialTree(kinds), moves[..k]), moves[k], cid);
    assert moves[..k + 1][..k] == moves[..k];
  }

  /** Whenever the run is straight, it never crossed; and the other way. */
  lemma StraightThroughout(world: World, kinds: set<string>, moves: seq<Move>, cid: string)
    ensures NeverCrosses(world, kinds, moves, cid) <==>
      forall k :: 0 <= k <= |moves| ==> StraightAt(world, kinds, moves, cid, k)
  {
    if NeverCrosses(world, kinds, moves, cid) {
      forall k | 0 <= k <= |moves|
        ensures StraightAt(world, kinds, moves, cid, k)
      {
        UncrossedIsStraight(world, kinds, moves, cid, k);
      }
    } else {
      var k :| 0 <= k < |moves| && CrossesAt(world, kinds, moves, cid, k);
      CrossedIsCrooked(world, kinds, moves, cid, k);
    }
  }

  ghost predicate AttributedAt(world: World, kinds: set<string>, moves: seq<Move>, cid: string, k: nat)
    requires k <= |moves|
  {
    Attributed(world, TreeRun(world, InitialTree(kinds), moves[..k]), cid)
  }

  /**
   Over whole runs: an id is never forwarded to another child while an earlier one still owes
   an answer under it, if and only if at every point of the run, in every continuation that does
   not forward the id again, every answer settles its own child's delegation.
   */
  lemma AttributedExactly(world: World, kinds: set<string>, moves: seq<Move>, cid: string)
    ensures NeverCrosses(world, kinds, moves, cid) <==>
      forall k :: 0 <= k <= |moves| ==> AttributedAt(world, kinds, moves, cid, k)
  {
    forall k | 0 <= k <= |moves|
      ensures AttributedAt(world, kinds, moves, cid, k) <==> StraightAt(world, kinds, moves, cid, k)
    {
      StraightExactly(world, TreeRun(world, InitialTree(kinds), moves[..k]), cid);
    }
    StraightThroughout(world, kinds, moves, cid);
  }

  /**
   In particular, in a run that never crosses, whatever the root relays under the id settles its
   own child's delegation.
   */
  lemma UncrossedRelaysAreAttributed(world: World, kinds: set<string>, moves: seq<Move>, cid: string, k: nat)
    requires NeverCrosses(world, kinds, moves, cid) && k < |moves|
    requires var t := TreeRun(world, InitialTree(kinds), moves[..k]);
      && [] in t.histories && [] in MoveStep(world, t, moves[k]).histories
      && RelaysSoFar(world, MoveStep(world, t, moves[k]), cid) > RelaysSoFar(world, t, cid)
    ensures var t := TreeRun(world, InitialTree(kinds), moves[..k]);
      Settles(world, t, moves[k], cid) && RootState(world, t).delegated[cid] == moves[k].child
  {
    var t := TreeRun(world, InitialTree(kinds), moves[..k]);
    ReachableIsSound(world, kinds, moves[..k]);
    RelaysSettle(world, t, moves[k], cid);
    UncrossedIsStraight(world, kinds, moves, cid, k);
    StraightAttributes(world, t, moves[k], cid);
  }

  // ----- taking another's place -----

  /** The root's verifier raises on the answer. */
  predicate RootRaises(world: World, s: State, r: Response) {
    var verdict := Verify(world, s.registry, s.verifier, r.value);
    r.verified && ValidResponse(r) && (verdict.VerifierRaised? || verdict.VerifierCrashed?)
  }

  /**
   The settling answer is relayed, as it is or demoted, unless the root's verifier raises on it;
   either way it settles.
   */
  lemma SettlingRelays(world: World, t: Tree, child: string, cid: string) returns (u: Tree)
    requires Reached(world, t) && Settles(world, t, Drain([], child), cid)
    ensures u == MoveStep(world, t, Drain([], child)) && Reached(world, u)
    ensures RootState(world, u).alive && RootState(world, u).children == RootState(world, t).children
    ensures cid !in RootState(world, u).delegated
    ensures RelaysSoFar(world, u, cid) ==
      RelaysSoFar(world, t, cid) + if RootRaises(world, RootState(world, t), Queued(t.up, [child])[0]) then 0 else 1
  {
    var r := Queued(t.up, [child])[0];
    var step := DrainStep(world, RootState(world, t), child, Message(r));
    u := DrainMove(world, t, child);
    CountsAppend(RootRun(world, t).effects, step.effects, cid);
    DrainRelaysOne(world, RootState(world, t), child, r);
  }

  lemma DrainRelaysOne(world: World, s: State, child: string, r: Response)
    requires r.cid in s.delegated
    ensures RelayedCount(DrainStep(world, s, child, Message(r)).effects, r.cid) == if RootRaises(world, s, r)
      then 0 else 1
  {
  }

  /** With nothing outstanding under the id, what a child still owes under it is dropped. */
  lemma OwedIsDropped(world: World, t: Tree, child: string, cid: string) returns (moves: seq<Move>, u: Tree)
    requires Reached(world, t) && RootState(world, t).alive && child in RootState(world, t).children
    requires cid !in RootState(world, t).delegated
    ensures Leads(world, t, child, moves, u) && !Owes(u, child, cid) && Undisturbed(world, t, u, cid)
  {
    var answering, v := Answering(world, t, child);
    var draining;
    draining, u := DrainPast(world, v, child, |Queued(v.up, [child])|, cid);
    moves := answering + draining;
    RunsJoin(world, t, answering, draining);
  }

  ghost predicate DelegatesWithin(s: State) {
    s.alive ==> forall cid :: cid in s.delegated ==> s.delegated[cid] in s.children
  }

  lemma StepDelegatesWithin(world: World, s: State, e: Event)
    requires DelegatesWithin(s)
    ensures DelegatesWithin(EventStep(world, s, e).state)
  {
    if EventStep(world, s, e).state.alive { ChildrenAreKept(world, s, e); }
    if s.alive && e.FromParent? && NamedChild(e.directive).None? { HandlingIsQuiet(world, s, e.directive, e.catalog); }
  }

  /** A living agent's delegations are to its children. */
  lemma {:induction false} DelegatedAreChildren(world: World, s: State, events: seq<Event>)
    requires s.delegated == map[]
    ensures DelegatesWithin(Runs(world, s, events).state)
    decreases |events|
  {
    if events != [] {
      DelegatedAreChildren(world, s, events[..|events| - 1]);
      StepDelegatesWithin(world, Runs(world, s, events[..|events| - 1]).state, events[|events| - 1]);
    }
  }

  /**
   From every reachable tree with a living root in which a owes an answer under the id while the
   delegation names b: some continuation takes a's answer in b's place, relaying it unless the
   root's verifier raises on it, and then drops what b still owes.
   */
  lemma TakesAnothersPlace(world: World, kinds: set<string>, run: seq<Move>, a: string, cid: string)
    returns (arriving: seq<Move>, dropping: seq<Move>)
    requires var t := TreeRun(world, InitialTree(kinds), run);
      && [] in t.histories && RootState(world, t).alive && Owes(t, a, cid)
      && cid in RootState(world, t).delegated && RootState(world, t).delegated[cid] != a
    ensures var t := TreeRun(world, InitialTree(kinds), run);
      var b := RootState(world, t).delegated[cid];
      var u := TreeRun(world, t, arriving);
      var v := MoveStep(world, u, Drain([], a));
      var w := TreeRun(world, v, dropping);
      && ChildMoves(arriving, a) && ChildMoves(dropping, b) && Undisturbed(world, t, u, cid)
      && Misattributes(world, u, Drain([], a), cid)
      && [] in v.histories && cid !in RootState(world, v).delegated
      && RelaysSoFar(world, v, cid) ==
        RelaysSoFar(world, t, cid) + (if RootRaises(world, RootState(world, u), Queued(u.up, [a])[0]) then 0 else 1)
      && Undisturbed(world, v, w, cid) && !Owes(w, b, cid)
  {
    var t := TreeRun(world, InitialTree(kinds), run);
    var b := RootState(world, t).delegated[cid];
    ReachableIsSound(world, kinds, run);
    assert Reached(world, t);
    DelegatedAreChildren(world, Initial("root", t.kinds), t.histories[[]]);
    var u;
    arriving, u := AnswerArrives(world, t, a, cid);
    var v := SettlingRelays(world, u, a, cid);
    var w;
    dropping, w := OwedIsDropped(world, v, b, cid);
  }

  // ----- an id forwarded to two children -----

  function SpawnOf(child: string): Directive {
    Directive("spawn", Spawn(child, "endpoint", None))
  }

  function RunOn(child: string): Directive {
    Directive("c", Run(RunPayload(Some("t"), map[], None, Some(child))))
  }

  /** The root is handed a directive and handles it. */
  function Telling(d: Directive): seq<Move> {
    [Inject(d), Handle([], map[])]
  }

  /** Two children, and the same id forwarded to one and then to the other. */
  function CrossingRun(): seq<Move> {
    Telling(SpawnOf("a")) + Telling(SpawnOf("b")) + Telling(RunOn("a")) + Telling(RunOn("b"))
  }

  /** The root with children, and the delegations it still owes. */
  function Owing(children: set<string>, delegated: map<string, string>): State {
    Initial("root", {}).(children := children, delegated := delegated)
  }

  /** A step of the root in an otherwise idle tree. */
  lemma TellRoot(world: World, run: seq<Move>, d: Directive, step: Step) returns (t: Tree, u: Tree)
    requires [] in TreeRun(world, InitialTree({}), run).histories
    requires RootState(world, TreeRun(world, InitialTree({}), run)).alive
    requires Queued(TreeRun(world, InitialTree({}), run).down, []) == [] && step.state.alive
    requires step == EventStep(world, RootState(world, TreeRun(world, InitialTree({}), run)), FromParent(d, map[]))
    ensures t == TreeRun(world, InitialTree({}), run) && u == TreeRun(world, InitialTree({}), run + Telling(d))
    ensures RootStepped(t, step, world, u)
  {
    t := TreeRun(world, InitialTree({}), run);
    assert Reached(world, t);
    u := Tell(world, t, d, map[], step);
    RunsJoin(world, InitialTree({}), run, Telling(d));
  }

  /** An idle tree whose root is in that state. */
  ghost predicate IdleRoot(world: World, t: Tree, root: State) {
    && [] in t.histories && RootState(world, t) == root && Queued(t.down, []) == []
    && forall c: string :: Queued(t.down, [c]) == []
  }

  lemma Spawning(world: World, run: seq<Move>, child: string, children: set<string>) returns (u: Tree)
    requires world.mayBind("endpoint") && child !in children && child != ""
    requires IdleRoot(world, TreeRun(world, InitialTree({}), run), Owing(children, map[]))
    ensures u == TreeRun(world, InitialTree({}), run + Telling(SpawnOf(child)))
    ensures IdleRoot(world, u, Owing(children + {child}, map[]))
  {
    var effects := [Spawned(child), Sent(Okay(Owing(children, map[]), "spawn"))];
    var t;
    t, u := TellRoot(world, run, SpawnOf(child), Step(Owing(children + {child}, map[]), effects));
    forall c: string
      ensures Queued(u.down, [c]) == []
    {
      QuietForwardsNone(effects, c);
    }
  }

  lemma Running(world: World, run: seq<Move>, child: string, delegated: map<string, string>) returns (t: Tree, u: Tree)
    requires child in {"a", "b"} && [] in TreeRun(world, InitialTree({}), run).histories
    requires RootState(world, TreeRun(world, InitialTree({}), run)) == Owing({"a", "b"}, delegated)
    requires Queued(TreeRun(world, InitialTree({}), run).down, []) == []
    ensures t == TreeRun(world, InitialTree({}), run)
    ensures u == TreeRun(world, InitialTree({}), run + Telling(RunOn(child))) && [] in u.histories
    ensures RootState(world, u) == Owing({"a", "b"}, delegated["c" := child]) && Queued(u.down, []) == []
    ensures forall c: string ::
      Queued(u.down, [c]) == Queued(t.down, [c]) + if c == child then [Stripped(RunOn(child))] else []
  {
    var x := Forwarded(child, Stripped(RunOn(child)));
    RunsOn(world, child, delegated);
    t, u := TellRoot(world, run, RunOn(child), Step(Owing({"a", "b"}, delegated["c" := child]), [x]));
    assert [x][1..] == [];
    forall c: string
      ensures ForwardsTo([x], c) == if c == child then [x.directive] else []
    {
    }
  }

  lemma RunsOn(world: World, child: string, delegated: map<string, string>)
    requires child in {"a", "b"}
    ensures EventStep(world, Owing({"a", "b"}, delegated), FromParent(RunOn(child), map[])) ==
      Step(Owing({"a", "b"}, delegated["c" := child]), [Forwarded(child, Stripped(RunOn(child)))])
  {
  }

  function SpawningRun(): seq<Move> {
    Telling(SpawnOf("a")) + Telling(SpawnOf("b"))
  }

  lemma BothSpawned(world: World)
    requires world.mayBind("endpoint")
    ensures IdleRoot(world, TreeRun(world, InitialTree({}), SpawningRun()), Owing({"a", "b"}, map[]))
  {
    assert [] + Telling(SpawnOf("a")) == Telling(SpawnOf("a"));
    assert {} + {"a"} == {"a"} && {"a"} + {"b"} == {"a", "b"};
    assert TreeRun(world, InitialTree({}), []) == InitialTree({});
    var one := Spawning(world, [], "a", {});
    var two := Spawning(world, Telling(SpawnOf("a")), "b", {"a"});
  }

  lemma ForwardedToA(world: World)
    requires world.mayBind("endpoint")
    ensures var t := TreeRun(world, InitialTree({}), SpawningRun() + Telling(RunOn("a")));
      && [] in t.histories && RootState(world, t) == Owing({"a", "b"}, map["c" := "a"]) && Queued(t.down, []) == []
      && Queued(t.down, ["a"]) == [Stripped(RunOn("a"))] && Queued(t.down, ["b"]) == []
  {
    BothSpawned(world);
    var two, three := Running(world, SpawningRun(), "a", map[]);
  }

  /** After that run a still owes an answer, while the delegation names b. */
  lemma CrossingOwes(world: World)
    requires world.mayBind("endpoint")
    ensures var t := TreeRun(world, InitialTree({}), CrossingRun());
      && [] in t.histories && RootState(world, t) == Owing({"a", "b"}, map["c" := "b"])
      && Owes(t, "a", "c") && Owes(t, "b", "c")
  {
    ForwardedToA(world);
    var again, four := Running(world, SpawningRun() + Telling(RunOn("a")), "b", map["c" := "a"]);
    assert map["c" := "a"]["c" := "b"] == map["c" := "b"];
    WaitingOwes(four, "a", Stripped(RunOn("a")));
    WaitingOwes(four, "b", Stripped(RunOn("b")));
  }

  lemma WaitingOwes(t: Tree, child: string, d: Directive)
    requires d in Queued(t.down, [child])
    ensures Owes(t, child, d.cid)
  {
  }

  /** From the initial tree: a's answer is taken in b's place, the one answer ever relayed, and b's is dropped. */
  lemma AnotherChildAnswers(world: World) returns (arriving: seq<Move>, dropping: seq<Move>)
    requires world.mayBind("endpoint")
    ensures var t := TreeRun(world, InitialTree({}), CrossingRun());
      var u := TreeRun(world, t, arriving);
      var v := MoveStep(world, u, Drain([], "a"));
      var w := TreeRun(world, v, dropping);
      && [] in t.histories && RootState(world, t).delegated == map["c" := "b"]
      && Misattributes(world, u, Drain([], "a"), "c")
      && [] in w.histories && RelaysSoFar(world, w, "c") == RelaysSoFar(world, t, "c") + 1 && !Owes(w, "b", "c")
  {
    CrossingOwes(world);
    arriving, dropping := TakesAnothersPlace(world, {}, CrossingRun(), "a", "c");
  }
}
