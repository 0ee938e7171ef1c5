/**
 The driver's round trips are runs of the agent tree: what the session's atomic operations do
 is what the agents do when the directive is injected, handled, and its answer drained.
 */
module DriverTree {
  import opened Wrappers
  import D = Driver
  import opened AgentMachine
  import opened AgentTraces
  import opened AgentTree
  import opened AgentLinks

  /** The same agents in the same states. */
  ghost predicate SameAgents(world: World, t: Tree, d: D.Tree) {
    && Reached(world, t) && [] in t.histories && RootState(world, t) == d.root && d.root.alive
      && t.kinds == d.root.childKinds
    && (forall c: string :: [c] in t.histories <==> c in d.kids)
    && forall c: string :: [c] in t.histories ==> StateOf(world, t, [c]) == d.kids[c]
  }

  /** All that is under way is these directives to the child, and these answers from it. */
  ghost predicate UnderWay(t: Tree, child: string, directives: seq<Directive>, answers: seq<Response>) {
    && Queued(t.down, []) == []
    && (forall c: string :: Queued(t.down, [c]) == if c == child then directives else [])
    && forall c: string :: Queued(t.up, [c]) == if c == child then answers else []
  }

  /** The same agents in the same states, and no message under way. */
  ghost predicate Matches(world: World, t: Tree, d: D.Tree) {
    SameAgents(world, t, d) && UnderWay(t, "", [], [])
  }

  predicate Delegates(root: State, d: Directive) {
    NamedChild(d).Some? && NamedChild(d).value in root.children
  }

  /** The agents' moves for a directive: the root handles it, or a child does and the root drains the answer. */
  function MovesFor(root: State, d: Directive, catalog: map<string, Entry>): seq<Move> {
    [Inject(d), Handle([], catalog)]
    + if Delegates(root, d) then [Handle([NamedChild(d).value], catalog), Drain([], NamedChild(d).value)] else []
  }

  /** The directive that an operation issues to the root. */
  function DirectiveOf(cid: string, op: D.Op): Directive
    requires !op.Register? && !op.ConfigureChild?
  {
    match op
    case ConfigureRoot(c) => Directive(cid, Configure(c))
    case SpawnChild(child, endpoint, kind) => Directive(cid, Spawn(child, endpoint, kind))
    case RunTask(run) => Directive(cid, Run(run))
    case AskRoot(name) => Directive(cid, Resolve(name))
  }

  /** The agents' moves for an operation; a child is configured by its parent in-process. */
  function MovesOf(d: D.Tree, cid: string, op: D.Op): seq<Move>
    requires !op.Register?
  {
    if op.ConfigureChild? then [ConfigureChild([], op.identity, op.configure, d.catalog)]
    else MovesFor(d.root, DirectiveOf(cid, op), d.catalog)
  }

  /** What the root newly said is the outcome, if there is one. */
  ghost predicate Says(t: Tree, u: Tree, outcome: Option<D.Outcome>) {
    match outcome
    case None => Queued(u.up, []) == Queued(t.up, [])
    case Some(o) => exists r :: Queued(u.up, []) == Queued(t.up, []) + [r] && o == D.Outcome(r.kind, r.value, r.error)
  }

  // ----- a directive the root handles itself -----

  /** The effects of a handled directive end in its answer, if it has one, and forward nothing. */
  ghost predicate SaysLast(step: Step) {
    && (forall i :: 0 <= i < |step.effects| ==> Quiet(step.effects[i]))
    && Said(step.effects) ==
      (if step.effects != [] && step.effects[|step.effects| - 1].Sent? then [step.effects[|step.effects| - 1].response]
       else [])
  }

  lemma ShortSaysLast(step: Step)
    requires |step.effects| <= 2 && forall i :: 0 <= i < |step.effects| ==> Quiet(step.effects[i])
    requires |step.effects| == 2 ==> !step.effects[0].Sent?
    ensures SaysLast(step)
  {
    var effects := step.effects;
    if |effects| == 2 {
      assert effects == [effects[0]] + [effects[1]] && [effects[0]][1..] == [] && [effects[1]][1..] == [];
      SaidFirst(effects[0], [effects[1]], "");
    } else if |effects| == 1 {
      assert effects[1..] == [];
    }
  }

  lemma RunSaysLast(world: World, s: State, d: Directive)
    requires d.body.Run?
    ensures SaysLast(RunStep(world, s, d))
  {
    ShortSaysLast(RunStep(world, s, d));
  }

  lemma SpawnSaysLast(world: World, s: State, d: Directive)
    requires d.body.Spawn?
    ensures SaysLast(SpawnStep(world, s, d))
  {
    ShortSaysLast(SpawnStep(world, s, d));
  }

  lemma ConfigureSaysLast(world: World, s: State, d: Directive, catalog: map<string, Entry>)
    requires d.body.Configure?
    ensures SaysLast(HandleStep(world, s, d, catalog))
  {
    ConfigureCharges(s, d.body.configure, catalog);
    ShortSaysLast(HandleStep(world, s, d, catalog));
  }

  /** A step of the root that makes no child. */
  lemma RootAgents(world: World, t: Tree, d: D.Tree, before: Tree, step: Step, u: Tree)
    requires SameAgents(world, t, d) && before.histories == t.histories && before.kinds == t.kinds
    requires Reached(world, u) && RootMoved(before, step, world, u)
    requires step.state.alive && step.state.childKinds == d.root.childKinds
    requires forall c: string :: Spawned(c) !in step.effects
    ensures SameAgents(world, u, d.(root := step.state))
  {
    forall c: string | [c] in u.histories
      ensures StateOf(world, u, [c]) == d.kids[c]
    {
      assert StateOf(world, before, [c]) == StateOf(world, t, [c]);
    }
  }

  lemma SameStates(world: World, t: Tree, before: Tree, p: Path)
    requires before.histories == t.histories && before.kinds == t.kinds && p in t.histories
    ensures StateOf(world, before, p) == StateOf(world, t, p)
  {
  }

  lemma ChildAgentAt(
      world: World, t: Tree, d: D.Tree, before: Tree, child: string, step: Step, u: Tree, c: string)
    requires SameAgents(world, t, d) && before.histories == t.histories && before.kinds == t.kinds
    requires ChildMoved(before, child, step, world, u)
    ensures [c] in u.histories <==> c in d.kids[child := step.state]
    ensures [c] in u.histories ==> StateOf(world, u, [c]) == d.kids[child := step.state][c]
  {
    assert [c] in u.histories <==> [c] in t.histories;
    if [c] in t.histories { SameStates(world, t, before, [c]); }
  }

  /** A step of a child. */
  lemma ChildAgents(world: World, t: Tree, d: D.Tree, before: Tree, child: string, step: Step, u: Tree)
    requires SameAgents(world, t, d) && before.histories == t.histories && before.kinds == t.kinds
    requires Reached(world, u) && ChildMoved(before, child, step, world, u)
    ensures SameAgents(world, u, d.(kids := d.kids[child := step.state]))
  {
    SameStates(world, t, before, []);
    forall c: string
      ensures [c] in u.histories <==> c in d.kids[child := step.state]
      ensures [c] in u.histories ==> StateOf(world, u, [c]) == d.kids[child := step.state][c]
    {
      ChildAgentAt(world, t, d, before, child, step, u, c);
    }
  }

  lemma RootUnderWay(t: Tree, effects: seq<Effect>, u: Tree)
    requires UnderWay(t, "", [], []) && RootSpoke(t, effects, u)
    requires forall i :: 0 <= i < |effects| ==> Quiet(effects[i])
    ensures UnderWay(u, "", [], [])
  {
    forall c: string
      ensures Queued(u.down, [c]) == []
    {
      QuietForwardsNone(effects, c);
    }
  }

  /** A directive the root handles itself. */
  lemma HandledHere(world: World, t: Tree, d: D.Tree, directive: Directive, step: Step) returns (u: Tree)
    requires Matches(world, t, d) && SaysLast(step) && step.state.alive
    requires step == EventStep(world, d.root, FromParent(directive, d.catalog))
    ensures u == TreeRun(world, t, [Inject(directive), Handle([], d.catalog)]) && Reached(world, u)
    ensures RootStepped(t, step, world, u) && Says(t, u, D.Answered(step)) && UnderWay(u, "", [], [])
  {
    u := Tell(world, t, directive, d.catalog, step);
    RootUnderWay(t, step.effects, u);
  }

  lemma LocalRunMatches(world: World, t: Tree, d: D.Tree, directive: Directive) returns (u: Tree)
    requires Matches(world, t, d) && directive.body.Run? && NamedChild(directive).None?
    ensures u == TreeRun(world, t, [Inject(directive), Handle([], d.catalog)])
    ensures Matches(world, u, D.RunTree(world, d, directive.cid, directive.body.run).0)
    ensures Says(t, u, D.RunTree(world, d, directive.cid, directive.body.run).1)
  {
    assert directive == Directive(directive.cid, Run(directive.body.run));
    var step := RunStep(world, d.root, directive);
    RunSaysLast(world, d.root, directive);
    RunStepKept(world, d.root, directive);
    u := HandledHere(world, t, d, directive, step);
    RootAgents(world, t, d, t, step, u);
  }

  lemma RunStepKept(world: World, s: State, d: Directive)
    requires d.body.Run? && s.alive
    ensures var step := RunStep(world, s, d);
      step.state.alive && step.state.childKinds == s.childKinds && forall c: string :: Spawned(c) !in step.effects
  {
  }

  // ----- a directive the root delegates -----

  lemma Forwarding(world: World, t: Tree, d: D.Tree, directive: Directive, child: string) returns (u: Tree)
    requires Matches(world, t, d) && directive.body.Run? && NamedChild(directive) == Some(child)
    requires child in d.root.children
    ensures u == TreeRun(world, t, [Inject(directive), Handle([], d.catalog)]) && Queued(u.up, []) == Queued(t.up, [])
    ensures SameAgents(world, u, d.(root := D.Delegating(d.root, directive.cid, child)))
    ensures UnderWay(u, child, [Stripped(directive)], [])
  {
    var x := Forwarded(child, Stripped(directive));
    var step := Step(D.Delegating(d.root, directive.cid, child), [x]);
    u := Tell(world, t, directive, d.catalog, step);
    RootAgents(world, t, d, t, step, u);
    ForwardUnderWay(t, u, x);
  }

  lemma ForwardUnderWay(t: Tree, u: Tree, x: Effect)
    requires UnderWay(t, "", [], []) && RootSpoke(t, [x], u) && x.Forwarded?
    ensures UnderWay(u, x.child, [x.directive], []) && Queued(u.up, []) == Queued(t.up, [])
  {
    assert [x][1..] == [] && Said([x]) == [];
    forall c: string
      ensures Queued(u.down, [c]) == if c == x.child then [x.directive] else []
    {
      assert ForwardsTo([x], c) == if c == x.child then [x.directive] else [];
    }
  }

  lemma ChildHandles(world: World, t: Tree, d: D.Tree, child: string, directive: Directive) returns (u: Tree)
    requires SameAgents(world, t, d) && UnderWay(t, child, [directive], []) && child in d.kids
    requires Undelegatable(directive)
    ensures u == MoveStep(world, t, Handle([child], d.catalog)) && Queued(u.up, []) == Queued(t.up, [])
    ensures var below := RunStep(world, d.kids[child], directive);
      SameAgents(world, u, d.(kids := d.kids[child := below.state])) && UnderWay(u, child, [], Said(below.effects))
  {
    var before := t.(down := t.down[[child] := []]);
    KidLives(world, t, d, child);
    u := TellChild(world, t, child, directive, d.catalog);
    KidStep(world, d.kids[child], directive, d.catalog);
    AnswerUnderWay(t, before, child, directive, RunStep(world, d.kids[child], directive).effects, u);
    ChildAgents(world, t, d, before, child, RunStep(world, d.kids[child], directive), u);
  }

  lemma AnswerUnderWay(
      t: Tree, before: Tree, child: string, directive: Directive, effects: seq<Effect>, u: Tree)
    requires UnderWay(t, child, [directive], []) && before == t.(down := t.down[[child] := []])
    requires ChildSpoke(before, child, effects, u)
    ensures UnderWay(u, child, [], Said(effects)) && Queued(u.up, []) == Queued(t.up, [])
  {
  }

  lemma DrainedUnderWay(t: Tree, before: Tree, child: string, r: Response, effects: seq<Effect>, u: Tree)
    requires UnderWay(t, child, [], [r]) && before == t.(up := t.up[[child] := []]) && RootSpoke(before, effects, u)
    requires forall c: string :: ForwardsTo(effects, c) == []
    ensures UnderWay(u, "", [], []) && Queued(u.up, []) == Queued(t.up, []) + Said(effects)
  {
  }

  lemma KidLives(world: World, t: Tree, d: D.Tree, child: string)
    requires SameAgents(world, t, d) && child in d.kids
    ensures [child] in t.histories && StateOf(world, t, [child]) == d.kids[child] && d.kids[child].alive
  {
    ReachedIsSound(world, t);
  }

  lemma KidStep(world: World, s: State, d: Directive, catalog: map<string, Entry>)
    requires s.alive && Undelegatable(d)
    ensures EventStep(world, s, FromParent(d, catalog)) == RunStep(world, s, d)
  {
  }

  lemma Draining(world: World, t: Tree, d: D.Tree, child: string, r: Response) returns (u: Tree)
    requires SameAgents(world, t, d) && UnderWay(t, child, [], [r]) && child in d.root.children
    ensures u == MoveStep(world, t, Drain([], child))
    ensures var step := DrainStep(world, d.root, child, Message(r));
      Matches(world, u, d.(root := step.state)) && Says(t, u, D.Answered(step))
  {
    var step, before := DrainStep(world, d.root, child, Message(r)), t.(up := t.up[[child] := []]);
    u := Hear(world, t, child, r);
    DrainSays(world, d.root, child, r);
    RootAgents(world, t, d, before, step, u);
    DrainedUnderWay(t, before, child, r, step.effects, u);
  }

  lemma DrainSays(world: World, s: State, child: string, r: Response)
    ensures var step := DrainStep(world, s, child, Message(r));
      && step.state.alive == s.alive && step.state.childKinds == s.childKinds
      && (step.effects == [] || (|step.effects| == 1 && step.effects[0].Relayed?
           && Said(step.effects) == [step.effects[0].response]))
      && (forall c: string :: ForwardsTo(step.effects, c) == [] && Spawned(c) !in step.effects)
  {
    var effects := DrainStep(world, s, child, Message(r)).effects;
    if effects != [] { assert effects == [effects[0]] && effects[1..] == []; }
  }

  /** Nothing to drain. */
  lemma NothingToDrain(world: World, t: Tree, d: D.Tree, child: string)
    requires SameAgents(world, t, d) && UnderWay(t, child, [], [])
    ensures MoveStep(world, t, Drain([], child)) == t && Matches(world, t, d)
  {
    assert [] + [child] == [child];
  }

  predicate Answers(below: Step) {
    below.effects != [] && below.effects[|below.effects| - 1].Sent?
  }

  /** The root's step on the child's answer, if there is one. */
  function Heard(world: World, root: State, child: string, below: Step): Step {
    if Answers(below) then DrainStep(world, root, child, Message(below.effects[|below.effects| - 1].response))
    else Step(root, [])
  }

  /** The root drains the child's answer, if there is one. */
  lemma RootDrains(world: World, t: Tree, d: D.Tree, child: string, below: Step) returns (u: Tree)
    requires SameAgents(world, t, d) && UnderWay(t, child, [], Said(below.effects)) && SaysLast(below)
    requires child in d.root.children
    ensures u == MoveStep(world, t, Drain([], child))
    ensures var heard := Heard(world, d.root, child, below);
      Matches(world, u, d.(root := heard.state)) && Says(t, u, D.Answered(heard))
  {
    if Answers(below) {
      u := Draining(world, t, d, child, below.effects[|below.effects| - 1].response);
    } else {
      NothingToDrain(world, t, d, child);
      u := t;
      assert d.(root := d.root) == d;
    }
  }

  /** The child handles what it was forwarded, and the root drains its answer. */
  lemma ChildAndRoot(world: World, t: Tree, d: D.Tree, child: string, directive: Directive, below: Step)
    returns (u: Tree)
    requires SameAgents(world, t, d) && UnderWay(t, child, [directive], []) && Undelegatable(directive)
    requires child in d.root.children && child in d.kids && below == RunStep(world, d.kids[child], directive)
    ensures u == TreeRun(world, t, [Handle([child], d.catalog), Drain([], child)])
    ensures var heard := Heard(world, d.root, child, below);
      && Matches(world, u, d.(root := heard.state, kids := d.kids[child := below.state]))
      && Says(t, u, D.Answered(heard))
  {
    var w := ChildHandles(world, t, d, child, directive);
    RunSaysLast(world, d.kids[child], directive);
    RunTwo(world, t, Handle([child], d.catalog), Drain([], child));
    u := RootDrains(world, w, d.(kids := d.kids[child := below.state]), child, below);
  }

  lemma DelegatedOutcome(world: World, d: D.Tree, directive: Directive, child: string, below: Step)
    requires directive.body.Run? && NamedChild(directive) == Some(child) && child in d.root.children && child in d.kids
    requires below == RunStep(world, d.kids[child], Stripped(directive))
    ensures var heard := Heard(world, D.Delegating(d.root, directive.cid, child), child, below);
      D.RunTree(world, d, directive.cid, directive.body.run) ==
        (d.(root := heard.state, kids := d.kids[child := below.state]), D.Answered(heard))
  {
    assert directive == Directive(directive.cid, Run(directive.body.run));
  }

  lemma DelegatedRunMatches(world: World, t: Tree, d: D.Tree, directive: Directive, child: string) returns (u: Tree)
    requires Matches(world, t, d) && directive.body.Run? && NamedChild(directive) == Some(child)
    requires child in d.root.children && child in d.kids
    ensures u == TreeRun(world, t, MovesFor(d.root, directive, d.catalog))
    ensures Matches(world, u, D.RunTree(world, d, directive.cid, directive.body.run).0)
    ensures Says(t, u, D.RunTree(world, d, directive.cid, directive.body.run).1)
  {
    var below := RunStep(world, d.kids[child], Stripped(directive));
    var root := D.Delegating(d.root, directive.cid, child);
    DelegatedOutcome(world, d, directive, child, below);
    var v := Forwarding(world, t, d, directive, child);
    u := ChildAndRoot(world, v, d.(root := root), child, Stripped(directive), below);
    RunsJoin(world, t, [Inject(directive), Handle([], d.catalog)], [Handle([child], d.catalog), Drain([], child)]);
  }

  /** A directive that the root only answers. */
  lemma AnsweredHere(world: World, t: Tree, d: D.Tree, directive: Directive, r: Response) returns (u: Tree)
    requires Matches(world, t, d)
    requires EventStep(world, d.root, FromParent(directive, d.catalog)) == Step(d.root, [Sent(r)])
    ensures u == TreeRun(world, t, [Inject(directive), Handle([], d.catalog)])
    ensures Matches(world, u, d) && Says(t, u, Some(D.OutcomeOf(r)))
  {
    var step := Step(d.root, [Sent(r)]);
    assert D.Answered(step) == Some(D.OutcomeOf(r));
    ShortSaysLast(step);
    u := HandledHere(world, t, d, directive, step);
    SameRootAgents(world, t, d, step, u);
  }

  lemma SameRootAgents(world: World, t: Tree, d: D.Tree, step: Step, u: Tree)
    requires SameAgents(world, t, d) && Reached(world, u) && RootMoved(t, step, world, u) && step.state == d.root
    requires forall c: string :: Spawned(c) !in step.effects
    ensures SameAgents(world, u, d)
  {
    RootAgents(world, t, d, t, step, u);
    assert d.(root := step.state) == d;
  }

  /** A directive to a child that does not exist. */
  lemma RefusedRunMatches(world: World, t: Tree, d: D.Tree, directive: Directive, child: string) returns (u: Tree)
    requires Matches(world, t, d) && directive.body.Run? && NamedChild(directive) == Some(child)
    requires child !in d.root.children
    ensures u == TreeRun(world, t, MovesFor(d.root, directive, d.catalog))
    ensures Matches(world, u, D.RunTree(world, d, directive.cid, directive.body.run).0)
    ensures Says(t, u, D.RunTree(world, d, directive.cid, directive.body.run).1)
  {
    assert directive == Directive(directive.cid, Run(directive.body.run));
    u := AnsweredHere(world, t, d, directive, Error(d.root, directive.cid, UnknownChild(child)));
  }

  lemma ChildrenAreKids(world: World, t: Tree, d: D.Tree, child: string)
    requires SameAgents(world, t, d) && child in d.root.children
    ensures child in d.kids
  {
    ReachedIsSound(world, t);
  }

  /** A run through the driver is a run of the agent tree: the same states, and the root says the outcome. */
  lemma RunMatches(world: World, t: Tree, d: D.Tree, directive: Directive) returns (u: Tree)
    requires Matches(world, t, d) && directive.body.Run?
    ensures u == TreeRun(world, t, MovesFor(d.root, directive, d.catalog))
    ensures Matches(world, u, D.RunTree(world, d, directive.cid, directive.body.run).0)
    ensures Says(t, u, D.RunTree(world, d, directive.cid, directive.body.run).1)
  {
    match NamedChild(directive)
    case None => u := LocalRunMatches(world, t, d, directive);
    case Some(child) =>
      if child in d.root.children {
        ChildrenAreKids(world, t, d, child);
        u := DelegatedRunMatches(world, t, d, directive, child);
      } else {
        u := RefusedRunMatches(world, t, d, directive, child);
      }
  }

  // ----- the other operations -----

  lemma MovesHere(root: State, d: Directive, catalog: map<string, Entry>)
    requires !Delegates(root, d)
    ensures MovesFor(root, d, catalog) == [Inject(d), Handle([], catalog)]
  {
  }

  /** A directive other than a run, or one that names no child, is handled at once. */
  lemma HandledAtOnce(world: World, s: State, d: Directive, catalog: map<string, Entry>)
    requires s.alive && NamedChild(d).None?
    ensures EventStep(world, s, FromParent(d, catalog)) == HandleStep(world, s, d, catalog)
  {
  }

  lemma ConfigureMatches(world: World, t: Tree, d: D.Tree, cid: string, c: ConfigurePayload) returns (u: Tree)
    requires Matches(world, t, d)
    ensures u == TreeRun(world, t, MovesFor(d.root, Directive(cid, Configure(c)), d.catalog))
    ensures Matches(world, u, D.Issue(world, d, cid, D.ConfigureRoot(c)).0)
    ensures Says(t, u, D.Issue(world, d, cid, D.ConfigureRoot(c)).1)
  {
    var directive := Directive(cid, Configure(c));
    var step := HandleStep(world, d.root, directive, d.catalog);
    MovesHere(d.root, directive, d.catalog);
    HandledAtOnce(world, d.root, directive, d.catalog);
    ConfigureSaysLast(world, d.root, directive, d.catalog);
    ConfigureShape(world, d, cid, c);
    u := HandledHere(world, t, d, directive, step);
    RootAgents(world, t, d, t, step, u);
  }

  lemma ConfigureShape(world: World, d: D.Tree, cid: string, c: ConfigurePayload)
    ensures var step := HandleStep(world, d.root, Directive(cid, Configure(c)), d.catalog);
      && D.Issue(world, d, cid, D.ConfigureRoot(c)) == (d.(root := step.state), D.Answered(step))
      && step.state.alive == d.root.alive && step.state.childKinds == d.root.childKinds
      && forall child: string :: Spawned(child) !in step.effects
  {
    ConfigureKept(d.root, c, d.catalog);
  }

  lemma ConfigureKept(s: State, c: ConfigurePayload, catalog: map<string, Entry>)
    ensures var step := ConfigureStep(s, c, catalog).0;
      && step.state.alive == s.alive && step.state.childKinds == s.childKinds
      && forall i :: 0 <= i < |step.effects| ==> step.effects[i] == Granted
  {
  }

  lemma AskMatches(world: World, t: Tree, d: D.Tree, cid: string, name: string) returns (u: Tree)
    requires Matches(world, t, d)
    ensures u == TreeRun(world, t, MovesFor(d.root, Directive(cid, Resolve(name)), d.catalog))
    ensures Matches(world, u, d) && Says(t, u, Some(D.OutcomeOf(Resolved(d.root, cid, name))))
  {
    MovesHere(d.root, Directive(cid, Resolve(name)), d.catalog);
    HandledAtOnce(world, d.root, Directive(cid, Resolve(name)), d.catalog);
    u := AnsweredHere(world, t, d, Directive(cid, Resolve(name)), Resolved(d.root, cid, name));
  }

  function SpawnedTree(d: D.Tree, child: string, step: Step): D.Tree {
    var isNew := child !in d.root.children && child in step.state.children;
    d.(root := step.state, kids := if isNew then d.kids[child := Initial(child, d.root.childKinds)] else d.kids)
  }

  /** A spawn adds the child it made to the tree on both sides. */
  lemma SpawnAgents(world: World, t: Tree, d: D.Tree, directive: Directive, step: Step, u: Tree)
    requires SameAgents(world, t, d) && Reached(world, u) && RootMoved(t, step, world, u) && directive.body.Spawn?
    requires step == SpawnStep(world, d.root, directive)
    ensures SameAgents(world, u, SpawnedTree(d, directive.body.identity, step))
  {
    var child := directive.body.identity;
    SpawnKept(world, d.root, directive);
    ReachedIsSound(world, t);
    assert child !in d.root.children ==> [child] !in t.histories;
  }

  lemma SpawnKept(world: World, s: State, d: Directive)
    requires d.body.Spawn?
    ensures var step, child := SpawnStep(world, s, d), d.body.identity;
      && step.state.alive == s.alive && step.state.childKinds == s.childKinds
      && forall c: string :: Spawned(c) in step.effects <==>
        c == child && child !in s.children && child in step.state.children
  {
  }

  lemma SpawnMatches(world: World, t: Tree, d: D.Tree, directive: Directive) returns (u: Tree)
    requires Matches(world, t, d) && directive.body.Spawn?
    ensures u == TreeRun(world, t, MovesFor(d.root, directive, d.catalog))
    ensures var step := SpawnStep(world, d.root, directive);
      Matches(world, u, SpawnedTree(d, directive.body.identity, step)) && Says(t, u, D.Answered(step))
  {
    var step := SpawnStep(world, d.root, directive);
    MovesHere(d.root, directive, d.catalog);
    HandledAtOnce(world, d.root, directive, d.catalog);
    SpawnSaysLast(world, d.root, directive);
    SpawnKept(world, d.root, directive);
    u := HandledHere(world, t, d, directive, step);
    SpawnAgents(world, t, d, directive, step, u);
  }

  lemma ChildConfigureMatches(world: World, t: Tree, d: D.Tree, cid: string, op: D.Op) returns (u: Tree)
    requires Matches(world, t, d) && op.ConfigureChild?
    ensures u == TreeRun(world, t, MovesOf(d, cid, op))
    ensures Matches(world, u, D.Issue(world, d, cid, op).0) && Queued(u.up, []) == Queued(t.up, [])
  {
    var m := ConfigureChild([], op.identity, op.configure, d.catalog);
    RunOne(world, t, m);
    assert [] + [op.identity] == [op.identity];
    if op.identity in d.kids {
      u := KidConfigured(world, t, d, op.identity, op.configure);
    } else {
      u := t;
    }
  }

  lemma KidConfigured(world: World, t: Tree, d: D.Tree, child: string, c: ConfigurePayload) returns (u: Tree)
    requires Matches(world, t, d) && child in d.kids
    ensures u == MoveStep(world, t, ConfigureChild([], child, c, d.catalog)) && Queued(u.up, []) == Queued(t.up, [])
    ensures Matches(world, u, d.(kids := d.kids[child := ConfigureStep(d.kids[child], c, d.catalog).0.state]))
  {
    var step := ConfigureStep(d.kids[child], c, d.catalog).0;
    KidLives(world, t, d, child);
    u := ReachedConfigure(world, t, child, c, d.catalog);
    ConfigureKept(d.kids[child], c, d.catalog);
    ConfigureCharges(d.kids[child], c, d.catalog);
    GrantedSaysNothing(step.effects);
    ChildAgents(world, t, d, t, child, step, u);
  }

  lemma GrantedSaysNothing(effects: seq<Effect>)
    requires |effects| <= 1 && forall i :: 0 <= i < |effects| ==> effects[i] == Granted
    ensures Said(effects) == []
  {
    if effects != [] { assert effects[1..] == []; }
  }

  lemma ReachedConfigure(world: World, t: Tree, child: string, c: ConfigurePayload, catalog: map<string, Entry>)
    returns (u: Tree)
    requires Reached(world, t) && [child] in t.histories && StateOf(world, t, [child]).alive
    requires RootState(world, t).alive
    ensures u == MoveStep(world, t, ConfigureChild([], child, c, catalog)) && Reached(world, u)
    ensures ChildStepped(t, child, ConfigureStep(StateOf(world, t, [child]), c, catalog).0, world, u)
  {
    var m := ConfigureChild([], child, c, catalog);
    assert [] + [child] == [child];
    ReachedIsSound(world, t);
    RunOne(world, t, m);
    ReachedOn(world, t, [m]);
    u := MoveStep(world, t, m);
    ChildActs(world, t, child, ConfiguredByParent(c, catalog), u);
  }

  /**
   Every recorded operation of the driver is a run of the agent tree: the agents end in the
   states the driver's tree has, with no message under way, and what the root newly said is
   the outcome.
   */
  lemma IssueIsTreeRun(world: World, t: Tree, d: D.Tree, cid: string, op: D.Op) returns (u: Tree)
    requires Matches(world, t, d) && !op.Register?
    ensures u == TreeRun(world, t, MovesOf(d, cid, op)) && Matches(world, u, D.Issue(world, d, cid, op).0)
    ensures Says(t, u, D.Issue(world, d, cid, op).1)
  {
    match op
    case ConfigureRoot(c) => u := ConfigureMatches(world, t, d, cid, c);
    case ConfigureChild(_, _) => u := ChildConfigureMatches(world, t, d, cid, op);
    case SpawnChild(_, _, _) => u := SpawnMatches(world, t, d, DirectiveOf(cid, op));
    case RunTask(run) => u := RunMatches(world, t, d, Directive(cid, Run(run)));
    case AskRoot(name) => u := AskMatches(world, t, d, cid, name);
  }

  lemma FreshMatches(world: World, catalog: map<string, Entry>, kinds: set<string>)
    ensures Matches(world, InitialTree(kinds), D.FreshTree(catalog, kinds))
  {
    assert InitialTree(kinds) == TreeRun(world, InitialTree(kinds), []);
  }

  /** So every session on a fresh tree over any catalog, and every replay is one, is a run of the agent tree. */
  lemma {:induction false} SessionIsTreeRun(
      world: World, catalog: map<string, Entry>, kinds: set<string>, ops: seq<D.Op>)
    returns (moves: seq<Move>)
    requires forall i :: 0 <= i < |ops| ==> !ops[i].Register?
    ensures var s := D.Sessions(world, D.Session(D.FreshTree(catalog, kinds), 0, []), ops);
      Matches(world, TreeRun(world, InitialTree(kinds), moves), s.tree)
    decreases |ops|
  {
    if ops == [] {
      moves := [];
      FreshMatches(world, catalog, kinds);
    } else {
      var n := |ops| - 1;
      var o := D.Sessions(world, D.Session(D.FreshTree(catalog, kinds), 0, []), ops[..n]);
      moves := SessionIsTreeRun(world, catalog, kinds, ops[..n]);
      if !D.RefusedAtOnce(ops[n]) {
        var cid := D.Correlation(D.Prefix(ops[n]), o.issued + 1);
        var u := IssueIsTreeRun(world, TreeRun(world, InitialTree(kinds), moves), o.tree, cid, ops[n]);
        RunsJoin(world, InitialTree(kinds), moves, MovesOf(o.tree, cid, ops[n]));
        moves := moves + MovesOf(o.tree, cid, ops[n]);
      }
    }
  }
}
