/** Replaying a recorded session: what it repeats, exactly when it passes, and exactly when it raises. */
module ReplayLaws {
  import opened Wrappers
  import P = Ports
  import opened AgentMachine
  import opened AgentTraces
  import opened Driver
  import opened ReplayAgreement

  // ----- ids stay unused until they are issued -----

  lemma RunStaysUnused(world: World, s: State, d: Directive, n: nat)
    requires d.body.Run? && Unused(s, n) && SeqOf(d.cid) == n + 1
    ensures Unused(RunStep(world, s, d).state, n + 1)
  {
    RunStepKeepsCache(world, s, d);
    RunStepCaches(world, s, d);
  }

  lemma ConfigureStaysUnused(s: State, c: ConfigurePayload, catalog: map<string, Entry>, n: nat)
    requires Unused(s, n)
    ensures Unused(ConfigureStep(s, c, catalog).0.state, n + 1)
  {
    ConfigureLeavesCache(s, c, catalog);
  }

  lemma SpawnStaysUnused(world: World, s: State, d: Directive, n: nat)
    requires d.body.Spawn? && Unused(s, n)
    ensures Unused(SpawnStep(world, s, d).state, n + 1)
  {
    SpawnLeavesCache(world, s, d);
  }

  lemma UnusedIdIsNew(t: Tree, n: nat, prefix: string)
    requires UnusedTree(t, n)
    ensures NewId(t, Correlation(prefix, n + 1))
  {
    SeqOfCorrelation(prefix, n + 1);
  }

  lemma UnusedTreeGrows(t: Tree, n: nat)
    requires UnusedTree(t, n)
    ensures UnusedTree(t, n + 1)
  {
  }

  lemma DrainKeepsCache(world: World, s: State, child: string, m: ChildMessage)
    ensures SameCache(s, DrainStep(world, s, child, m).state)
  {
  }

  lemma RootAfterRun(world: World, t: Tree, d: Directive, n: nat)
    requires d.body.Run? && Unused(t.root, n) && SeqOf(d.cid) == n + 1
    ensures Unused(RunTree(world, t, d.cid, d.body.run).0.root, n + 1)
  {
    match NamedChild(d)
    case None =>
      LocalShape(world, t, d);
      RunStaysUnused(world, t.root, d, n);
    case Some(child) =>
      if child in t.root.children && child in t.kids {
        DelegatedShape(world, t, d, child);
        var below := RunStep(world, t.kids[child], Stripped(d));
        if below.effects != [] && Last(below).Sent? {
          DrainKeepsCache(world, Delegating(t.root, d.cid, child), child, Message(Last(below).response));
        }
      } else {
        RefusedShape(world, t, d, child);
      }
  }

  lemma KidsAfterRun(world: World, t: Tree, d: Directive, n: nat, k: string)
    requires d.body.Run? && UnusedTree(t, n) && SeqOf(d.cid) == n + 1
    ensures RunTree(world, t, d.cid, d.body.run).0.kids.Keys == t.kids.Keys
    ensures k in t.kids ==> Unused(RunTree(world, t, d.cid, d.body.run).0.kids[k], n + 1)
  {
    match NamedChild(d)
    case None => LocalShape(world, t, d);
    case Some(child) =>
      if child in t.root.children && child in t.kids {
        DelegatedShape(world, t, d, child);
        RunStaysUnused(world, t.kids[child], Stripped(d), n);
      } else {
        RefusedShape(world, t, d, child);
      }
  }

  lemma IssueStaysUnused(world: World, t: Tree, cid: string, op: Op, n: nat)
    requires UnusedTree(t, n) && SeqOf(cid) == n + 1 && !op.Register?
    ensures UnusedTree(Issue(world, t, cid, op).0, n + 1)
  {
    UnusedTreeGrows(t, n);
    match op
    case ConfigureRoot(c) => ConfigureStaysUnused(t.root, c, t.catalog, n);
    case ConfigureChild(child, c) =>
      if child in t.kids { ConfigureStaysUnused(t.kids[child], c, t.catalog, n); }
    case SpawnChild(child, endpoint, kind) =>
      SpawnStaysUnused(world, t.root, Directive(cid, Spawn(child, endpoint, kind)), n);
    case RunTask(run) =>
      var d := Directive(cid, Run(run));
      RootAfterRun(world, t, d, n);
      forall k
        ensures RunTree(world, t, cid, run).0.kids.Keys == t.kids.Keys
        ensures k in t.kids ==> Unused(RunTree(world, t, cid, run).0.kids[k], n + 1)
      {
        KidsAfterRun(world, t, d, n, k);
      }
    case AskRoot(_) =>
  }

  lemma RunKeepsCatalog(world: World, t: Tree, d: Directive)
    requires d.body.Run?
    ensures var t' := RunTree(world, t, d.cid, d.body.run).0;
      t'.catalog == t.catalog && t'.root.childKinds == t.root.childKinds
  {
    assert d == Directive(d.cid, Run(d.body.run));
  }

  lemma IssueKeepsCatalog(world: World, t: Tree, cid: string, op: Op)
    requires !op.Register?
    ensures var t' := Issue(world, t, cid, op).0;
      t'.catalog == t.catalog && t'.root.childKinds == t.root.childKinds
  {
    if op.ConfigureRoot? {
      ConfiguredState(t.root, op.configure, t.catalog);
    } else if op.RunTask? {
      RunKeepsCatalog(world, t, Directive(cid, Run(op.run)));
    }
  }

  // ----- what replay rewrites -----

  /** Nothing under the two keys that replay takes for store paths. */
  predicate NoPaths(args: Args) {
    ("state" in args ==> !args["state"].Str?) && ("trajectory" in args ==> !args["trajectory"].Str?)
  }

  /** Arguments without paths are reissued as they were; a path that moves is not. */
  lemma ReissuedExactly(remap: Remap, args: Args)
    requires forall path: string :: remap(path) != path
    ensures RemapArgs(remap, args) == args <==> NoPaths(args)
  {
    var once := RemapKey(remap, args, "state");
    var twice := RemapKey(remap, once, "trajectory");
    if "state" in args && args["state"].Str? {
      assert twice["state"] == P.Str(remap(args["state"].s));
    } else if "trajectory" in args && args["trajectory"].Str? {
      assert twice["trajectory"] == P.Str(remap(args["trajectory"].s));
    }
  }

  // ----- one operation, issued and replayed -----

  /** What the fresh root has been granted: what each configure registers by the final catalog. */
  function Granted(catalog: map<string, Entry>, ops: seq<Op>): set<string> {
    if ops == [] then {} else Granted(catalog, ops[..|ops| - 1]) + Grants(catalog, ops[|ops| - 1])
  }

  /** The outcome an operation has when it is issued next. */
  function OutcomeNext(world: World, s: Session, op: Op): Option<Outcome> {
    Issue(world, s.tree, Correlation(Prefix(op), s.issued + 1), op).1
  }

  function Moved(remap: Remap, run: RunPayload): RunPayload {
    run.(args := RemapArgs(remap, run.args))
  }

  /** A run as the session's next directive. */
  function NextRun(s: Session, run: RunPayload): Directive {
    Directive(Correlation("run", s.issued + 1), Run(run))
  }

  /** What the run, with its paths moved, answers here once the root knows only what was granted. */
  function ExpectedNext(world: World, remap: Remap, s: Session, granted: set<string>, run: RunPayload)
      : Option<Outcome>
  {
    Expected(world, s.tree, NextRun(s, Moved(remap, run)), granted)
  }

  /**
   What replay needs of an operation when its turn comes, given the final catalog and what the
   configures before it grant. A run's granted names mean what they will mean in the end, and
   with its paths moved it is expected to answer the same on granted names alone; one that
   got no answer need only be attempted alike. A recorded child configure carries no envelope,
   and names what will be registered as it is.
   */
  ghost predicate Replayable(
      world: World, remap: Remap, catalog: map<string, Entry>, s: Session, granted: set<string>, op: Op)
  {
    match op
    case ConfigureChild(child, c) =>
      RefusedAtOnce(op)
      || (c.envelope.None? && (child in s.tree.kids ==> ConfiguresSame(c, s.tree.catalog, catalog)))
    case RunTask(run) =>
      && Settled(s.tree.root.registry, catalog, granted, LookedUp(s.tree.root, NextRun(s, run)))
      && if OutcomeNext(world, s, op).Some?
        then ExpectedNext(world, remap, s, granted, run) == OutcomeNext(world, s, op)
         else AttemptKept(s.tree.root, catalog, granted, NextRun(s, run))
    case _ => true
  }

  /** The runs that were recorded without a response. */
  function Unanswered(ledger: seq<Record>): seq<string> {
    if ledger == [] then []
    else
      var last := ledger[|ledger| - 1];
      Unanswered(ledger[..|ledger| - 1]) + if last.op.RunTask? && last.outcome.None? then [last.cid] else []
  }

  lemma UnansweredGrows(ledger: seq<Record>, record: Record)
    ensures Unanswered(ledger + [record]) ==
      Unanswered(ledger) + if record.op.RunTask? && record.outcome.None? then [record.cid] else []
  {
    assert (ledger + [record])[..|ledger|] == ledger;
  }

  /** How far the replay of what was recorded so far has come. */
  ghost predicate Faithfully(o: Session, r: Replay, catalog: map<string, Entry>, granted: set<string>) {
    && Equivalent(o.tree, r.session.tree, catalog, granted)
    && UnusedTree(o.tree, o.issued) && UnusedTree(r.session.tree, r.session.issued)
    && r.failed == Unanswered(o.ledger)
  }

  /** Issued and recorded, and issued again when replayed. */
  predicate IsReissued(op: Op) {
    !op.Register? && !op.AskRoot? && !RefusedAtOnce(op)
  }

  /** An operation and the same reissued, on equivalent trees. */
  lemma ReissuedTrees(
      world: World, o: Tree, f: Tree, catalog: map<string, Entry>, granted: set<string>, cid: string, cid': string,
      op: Op, again: Op)
    requires Equivalent(o, f, catalog, granted) && NewId(o, cid) && NewId(f, cid')
    requires !op.Register? && Keeps(o, catalog, granted, op)
    requires again == op || (op.RunTask? && again.RunTask? && again.run == op.run.(args := again.run.args))
    ensures Equivalent(Issue(world, o, cid, op).0, Issue(world, f, cid', again).0, catalog,
      granted + Grants(catalog, op))
  {
    var cut := Cut(o, catalog, granted);
    CutIsAlive(o, f, catalog, granted);
    IssueKeepsCut(world, o, catalog, granted, cid, op, again);
    IssuesMirror(world, cut, f, cid, cid', again);
    MirrorsJoin(Cut(Issue(world, o, cid, op).0, catalog, granted + Grants(catalog, op)),
      Issue(world, cut, cid, again).0, Issue(world, f, cid', again).0);
  }

  lemma CutIsAlive(o: Tree, f: Tree, catalog: map<string, Entry>, granted: set<string>)
    requires Equivalent(o, f, catalog, granted)
    ensures AllAlive(o)
  {
    forall k | k in o.kids
      ensures o.kids[k].alive
    {
      assert SameKid(o.kids[k], f.kids[k]);
    }
  }

  /** Issuing a recorded operation again: the trees stay equivalent. */
  lemma ReissueKeeps(
      world: World, remap: Remap, o: Session, r: Replay, catalog: map<string, Entry>, granted: set<string>, op: Op)
    requires Faithfully(o, r, catalog, granted) && IsReissued(op) && Keeps(o.tree, catalog, granted, op)
    ensures var tree := Issue(world, o.tree, Correlation(Prefix(op), o.issued + 1), op).0;
      var again := Roundtripped(world, r.session, Reissued(remap, op), ReplayPrefix(op));
      && Equivalent(tree, again.tree, catalog, granted + Grants(catalog, op))
      && UnusedTree(tree, o.issued + 1) && UnusedTree(again.tree, again.issued)
  {
    BothUnused(world, o, r, op, Reissued(remap, op));
    ReissuedTrees(world, o.tree, r.session.tree, catalog, granted, Correlation(Prefix(op), o.issued + 1),
      Correlation(ReplayPrefix(op), r.session.issued + 1), op, Reissued(remap, op));
  }

  lemma BothUnused(world: World, o: Session, r: Replay, op: Op, again: Op)
    requires UnusedTree(o.tree, o.issued) && UnusedTree(r.session.tree, r.session.issued)
    requires !op.Register? && !again.Register?
    ensures var cid := Correlation(Prefix(op), o.issued + 1);
      NewId(o.tree, cid) && UnusedTree(Issue(world, o.tree, cid, op).0, o.issued + 1)
    ensures var cid' := Correlation(ReplayPrefix(op), r.session.issued + 1);
      NewId(r.session.tree, cid') && UnusedTree(Issue(world, r.session.tree, cid', again).0, r.session.issued + 1)
  {
    SeqOfCorrelation(Prefix(op), o.issued + 1);
    SeqOfCorrelation(ReplayPrefix(op), r.session.issued + 1);
    UnusedIdIsNew(o.tree, o.issued, Prefix(op));
    UnusedIdIsNew(r.session.tree, r.session.issued, ReplayPrefix(op));
    IssueStaysUnused(world, o.tree, Correlation(Prefix(op), o.issued + 1), op, o.issued);
    IssueStaysUnused(world, r.session.tree, Correlation(ReplayPrefix(op), r.session.issued + 1), again,
      r.session.issued);
  }

  /** A run under a new id, on a tree equivalent to this one. */
  lemma ReissuedRun(
      world: World, o: Tree, f: Tree, catalog: map<string, Entry>, granted: set<string>, d: Directive, cid: string)
    requires d.body.Run? && Equivalent(o, f, catalog, granted) && NewId(o, d.cid) && NewId(f, cid)
    requires Settled(o.root.registry, catalog, granted, LookedUp(o.root, d))
    ensures RunTree(world, f, cid, d.body.run).1 == Expected(world, o, d, granted)
  {
    CutAnswersAsExpected(world, o, catalog, granted, d);
    RunTreesMirror(world, Cut(o, catalog, granted), f, d, Directive(cid, Run(d.body.run)));
  }

  /** What a recorded run answers when it is issued again. */
  lemma ReissueAnswers(
      world: World, remap: Remap, o: Session, r: Replay, catalog: map<string, Entry>, granted: set<string>,
      run: RunPayload)
    requires Faithfully(o, r, catalog, granted)
    requires Settled(o.tree.root.registry, catalog, granted, LookedUp(o.tree.root, NextRun(o, run)))
    ensures LastOutcome(Roundtripped(world, r.session, Reissued(remap, RunTask(run)), "replay-run"))
      == ExpectedNext(world, remap, o, granted, run)
  {
    UnusedIdIsNew(o.tree, o.issued, "run");
    UnusedIdIsNew(r.session.tree, r.session.issued, "replay-run");
    ReissuedRun(world, o.tree, r.session.tree, catalog, granted, NextRun(o, Moved(remap, run)),
      Correlation("replay-run", r.session.issued + 1));
  }

  lemma FailureExactly(world: World, remap: Remap, r: Replay, record: Record)
    requires IsReissued(record.op) && !ReplayRaises(r, record.op)
    ensures var again := Roundtripped(world, r.session, Reissued(remap, record.op), ReplayPrefix(record.op));
      ReplayOne(world, remap, r, record) == Some(Replay(again,
        if record.op.RunTask? && !(record.outcome.Some? && LastOutcome(again) == record.outcome)
        then r.failed + [record.cid] else r.failed))
  {
  }

  /** The replay of a recorded run passes exactly when what is expected of it is what was recorded. */
  lemma RunPassesAsExpected(
      world: World, remap: Remap, o: Session, r: Replay, catalog: map<string, Entry>, granted: set<string>,
      run: RunPayload, record: Record)
    requires Faithfully(o, r, catalog, granted)
    requires Settled(o.tree.root.registry, catalog, granted, LookedUp(o.tree.root, NextRun(o, run)))
    requires record.op == RunTask(run)
    ensures ReplayOne(world, remap, r, record).Some?
    ensures ReplayOne(world, remap, r, record).value.failed ==
      if record.outcome.Some? && ExpectedNext(world, remap, o, granted, run) == record.outcome then r.failed
      else r.failed + [record.cid]
  {
    FailureExactly(world, remap, r, record);
    ReissueAnswers(world, remap, o, r, catalog, granted, run);
  }

  /** What is expected of a run, from the names its answer rests on. */
  lemma ExpectedByNames(world: World, remap: Remap, o: Session, granted: set<string>, run: RunPayload)
    requires UnusedTree(o.tree, o.issued)
    ensures var outcome := OutcomeNext(world, o, RunTask(run));
      outcome.Some? && NoPaths(run.args) ==>
        (ExpectedNext(world, remap, o, granted, run) == outcome <==> Needs(world, o.tree, NextRun(o, run)) <= granted)
    ensures Needs(world, o.tree, NextRun(o, Moved(remap, run))) <= granted ==>
      ExpectedNext(world, remap, o, granted, run) == OutcomeNext(world, o, RunTask(Moved(remap, run)))
  {
    UnusedIdIsNew(o.tree, o.issued, "run");
    if OutcomeNext(world, o, RunTask(run)).Some? { ExpectedSameExactly(world, o.tree, NextRun(o, run), granted); }
    if Needs(world, o.tree, NextRun(o, Moved(remap, run))) <= granted {
      GrantedIsExpected(world, o.tree, NextRun(o, Moved(remap, run)), granted);
    }
  }

  /** An answer that rests on granted names is the expected one. */
  lemma GrantedIsExpected(world: World, t: Tree, d: Directive, granted: set<string>)
    requires d.body.Run? && Needs(world, t, d) <= granted
    ensures Expected(world, t, d, granted) == RunTree(world, t, d.cid, d.body.run).1
  {
    if NamedChild(d).None? { LocalShape(world, t, d); }
  }

  /**
   A recorded run passes its replay exactly when, with its paths moved, it is expected to answer
   on granted names what was recorded. Without paths: when every name its answer rests on was
   granted. And when every name that the moved run's answer rests on was granted: when the moved
   run would have answered the same in the session.
   */
  lemma RunPassesExactly(
      world: World, remap: Remap, o: Session, r: Replay, catalog: map<string, Entry>, granted: set<string>,
      run: RunPayload, record: Record)
    requires Faithfully(o, r, catalog, granted)
    requires Settled(o.tree.root.registry, catalog, granted, LookedUp(o.tree.root, NextRun(o, run)))
    requires record == Record(Correlation("run", o.issued + 1), RunTask(run), OutcomeNext(world, o, RunTask(run)))
    ensures var r' := ReplayOne(world, remap, r, record);
      && r'.Some? && (r'.value.failed == r.failed || r'.value.failed == r.failed + [record.cid])
      && (r'.value.failed == r.failed <==>
            record.outcome.Some? && ExpectedNext(world, remap, o, granted, run) == record.outcome)
      && (record.outcome.Some? && NoPaths(run.args) ==>
            (r'.value.failed == r.failed <==> Needs(world, o.tree, NextRun(o, run)) <= granted))
      && (record.outcome.Some? && Needs(world, o.tree, NextRun(o, Moved(remap, run))) <= granted ==>
            (r'.value.failed == r.failed <==> OutcomeNext(world, o, RunTask(Moved(remap, run))) == record.outcome))
  {
    RunPassesAsExpected(world, remap, o, r, catalog, granted, run, record);
    ExpectedByNames(world, remap, o, granted, run);
  }

  // ----- one step of a session and of its replay -----

  lemma UnreplayedIsFaithful(
      world: World, o: Session, r: Replay, catalog: map<string, Entry>, granted: set<string>, op: Op)
    requires Faithfully(o, r, catalog, granted) && (op.Register? || RefusedAtOnce(op))
    ensures Faithfully(Drive(world, o, op, Prefix(op)), r, catalog, granted + Grants(catalog, op))
  {
    UnusedTreeGrows(o.tree, o.issued);
    assert granted + Grants(catalog, op) == granted;
  }

  lemma SkippedIsFaithful(
      world: World, remap: Remap, o: Session, r: Replay, catalog: map<string, Entry>, granted: set<string>, op: Op)
    requires Faithfully(o, r, catalog, granted) && op.AskRoot?
    ensures var next := Drive(world, o, op, Prefix(op));
      && next.ledger == o.ledger + [next.ledger[|o.ledger|]]
      && ReplayOne(world, remap, r, next.ledger[|o.ledger|]) == Some(r)
      && Faithfully(next, r, catalog, granted + Grants(catalog, op))
  {
    var next := Drive(world, o, op, Prefix(op));
    UnusedTreeGrows(o.tree, o.issued);
    UnansweredGrows(o.ledger, next.ledger[|o.ledger|]);
    assert granted + Grants(catalog, op) == granted;
  }

  /** A replayable operation leaves the trees cut alike. */
  lemma ReplayableKeeps(
      world: World, remap: Remap, catalog: map<string, Entry>, o: Session, granted: set<string>, op: Op)
    requires Replayable(world, remap, catalog, o, granted, op) && IsReissued(op) && UnusedTree(o.tree, o.issued)
    ensures Keeps(o.tree, catalog, granted, op)
  {
    if op.RunTask? && OutcomeNext(world, o, op).Some? {
      UnusedIdIsNew(o.tree, o.issued, "run");
      SameAnswerKeepsAttempt(world, o.tree, catalog, granted, NextRun(o, op.run), NextRun(o, Moved(remap, op.run)));
    }
  }

  lemma ReplayableNeverRaises(
      world: World, remap: Remap, catalog: map<string, Entry>, o: Session, r: Replay, granted: set<string>, op: Op)
    requires Replayable(world, remap, catalog, o, granted, op) && IsReissued(op)
    requires Equivalent(o.tree, r.session.tree, catalog, granted)
    ensures !ReplayRaises(r, op)
  {
    if op.ConfigureChild? && op.identity in r.session.tree.kids {
      ConfigureFails(r.session.tree.kids[op.identity], op.configure, catalog);
    }
  }

  /** Recording one more operation, and replaying its record, from what each side did. */
  lemma RecordIsFaithful(
      o: Session, r: Replay, catalog: map<string, Entry>, granted: set<string>, record: Record, tree: Tree,
      again: Session, failed: seq<string>)
    requires r.failed == Unanswered(o.ledger) && Equivalent(tree, again.tree, catalog, granted)
    requires UnusedTree(tree, o.issued + 1) && UnusedTree(again.tree, again.issued)
    requires failed == r.failed + if record.op.RunTask? && record.outcome.None? then [record.cid] else []
    ensures Faithfully(Session(tree, o.issued + 1, o.ledger + [record]), Replay(again, failed), catalog, granted)
  {
    UnansweredGrows(o.ledger, record);
  }

  /** The replay of a replayable operation fails it only if it is a run that got no answer. */
  lemma ReplayedOnce(
      world: World, remap: Remap, catalog: map<string, Entry>, o: Session, r: Replay, granted: set<string>, op: Op,
      record: Record)
    requires Faithfully(o, r, catalog, granted) && Replayable(world, remap, catalog, o, granted, op) && IsReissued(op)
    requires record == Record(Correlation(Prefix(op), o.issued + 1), op, OutcomeNext(world, o, op))
    ensures var again := Roundtripped(world, r.session, Reissued(remap, op), ReplayPrefix(op));
      ReplayOne(world, remap, r, record) ==
        Some(Replay(again, r.failed + if op.RunTask? && record.outcome.None? then [record.cid] else []))
  {
    ReplayableNeverRaises(world, remap, catalog, o, r, granted, op);
    FailureExactly(world, remap, r, record);
    if op.RunTask? { ReissueAnswers(world, remap, o, r, catalog, granted, op.run); }
    assert r.failed + [] == r.failed;
  }

  /** A replayable operation is replayed faithfully. */
  lemma StepIsFaithful(
      world: World, remap: Remap, catalog: map<string, Entry>, o: Session, r: Replay, granted: set<string>, op: Op)
    requires Faithfully(o, r, catalog, granted) && Replayable(world, remap, catalog, o, granted, op) && IsReissued(op)
    ensures var next := Drive(world, o, op, Prefix(op));
      && next.ledger == o.ledger + [next.ledger[|o.ledger|]]
      && var r' := ReplayOne(world, remap, r, next.ledger[|o.ledger|]);
      r'.Some? && Faithfully(next, r'.value, catalog, granted + Grants(catalog, op))
  {
    var record := Record(Correlation(Prefix(op), o.issued + 1), op, OutcomeNext(world, o, op));
    var again := Roundtripped(world, r.session, Reissued(remap, op), ReplayPrefix(op));
    ReplayableKeeps(world, remap, catalog, o, granted, op);
    ReissueKeeps(world, remap, o, r, catalog, granted, op);
    ReplayedOnce(world, remap, catalog, o, r, granted, op, record);
    RecordIsFaithful(o, r, catalog, granted + Grants(catalog, op), record,
      Issue(world, o.tree, record.cid, op).0, again,
      r.failed + if op.RunTask? && record.outcome.None? then [record.cid] else []);
  }

  // ----- whole sessions -----

  predicate NoRegister(ops: seq<Op>) {
    forall i :: 0 <= i < |ops| ==> !ops[i].Register?
  }

  ghost predicate ReplayableAt(
      world: World, remap: Remap, catalog: map<string, Entry>, s: Session, ops: seq<Op>, i: nat)
    requires i < |ops|
  {
    Replayable(world, remap, catalog, Sessions(world, s, ops[..i]), Granted(catalog, ops[..i]), ops[i])
  }

  /** Every operation is replayable when its turn comes. */
  ghost predicate AllReplayable(
      world: World, remap: Remap, catalog: map<string, Entry>, s: Session, ops: seq<Op>)
  {
    forall i {:trigger ReplayableAt(world, remap, catalog, s, ops, i)} :: 0 <= i < |ops| ==>
      ReplayableAt(world, remap, catalog, s, ops, i)
  }

  lemma SameInFront(
      world: World, remap: Remap, catalog: map<string, Entry>, s: Session, ops: seq<Op>, i: nat)
    requires i < |ops| - 1
    ensures ReplayableAt(world, remap, catalog, s, ops, i) ==
      ReplayableAt(world, remap, catalog, s, ops[..|ops| - 1], i)
  {
    assert ops[..|ops| - 1][..i] == ops[..i];
  }

  lemma AllReplayableByLast(
      world: World, remap: Remap, catalog: map<string, Entry>, s: Session, ops: seq<Op>)
    requires ops != []
    ensures AllReplayable(world, remap, catalog, s, ops) <==>
      && AllReplayable(world, remap, catalog, s, ops[..|ops| - 1])
      && ReplayableAt(world, remap, catalog, s, ops, |ops| - 1)
  {
    var front := ops[..|ops| - 1];
    forall i | 0 <= i < |front|
      ensures ReplayableAt(world, remap, catalog, s, ops, i) == ReplayableAt(world, remap, catalog, s, front, i)
    {
      SameInFront(world, remap, catalog, s, ops, i);
    }
    forall i | 0 <= i < |ops| && AllReplayable(world, remap, catalog, s, front)
      && ReplayableAt(world, remap, catalog, s, ops, |ops| - 1)
      ensures ReplayableAt(world, remap, catalog, s, ops, i)
    {
      if i < |front| { assert ReplayableAt(world, remap, catalog, s, front, i); }
    }
  }

  /** The replay of what s went on to record has come to r. */
  ghost predicate Replayed(
      world: World, remap: Remap, catalog: map<string, Entry>, s: Session, start: Replay, ops: seq<Op>, r: Replay)
  {
    && ReplayAll(world, remap, start, Sessions(world, s, ops).ledger) == Some(r)
    && Faithfully(Sessions(world, s, ops), r, catalog, Granted(catalog, ops))
  }

  lemma LedgerGrows(world: World, remap: Remap, start: Replay, ledger: seq<Record>, record: Record)
    ensures ReplayAll(world, remap, start, ledger + [record]) ==
      match ReplayAll(world, remap, start, ledger)
      case None => None
      case Some(r) => ReplayOne(world, remap, r, record)
  {
    assert (ledger + [record])[..|ledger|] == ledger;
  }

  lemma NextIsReplayed(
      world: World, remap: Remap, catalog: map<string, Entry>, s: Session, start: Replay, ops: seq<Op>, r: Replay)
    returns (r': Replay)
    requires ops != [] && Replayed(world, remap, catalog, s, start, ops[..|ops| - 1], r)
    requires ReplayableAt(world, remap, catalog, s, ops, |ops| - 1)
    ensures Replayed(world, remap, catalog, s, start, ops, r')
  {
    var front, op := ops[..|ops| - 1], ops[|ops| - 1];
    var o := Sessions(world, s, front);
    if op.Register? || RefusedAtOnce(op) {
      UnreplayedIsFaithful(world, o, r, catalog, Granted(catalog, front), op);
      return r;
    }
    var next := Drive(world, o, op, Prefix(op));
    if op.AskRoot? {
      SkippedIsFaithful(world, remap, o, r, catalog, Granted(catalog, front), op);
    } else {
      StepIsFaithful(world, remap, catalog, o, r, Granted(catalog, front), op);
    }
    LedgerGrows(world, remap, start, o.ledger, next.ledger[|o.ledger|]);
    r' := ReplayOne(world, remap, r, next.ledger[|o.ledger|]).value;
  }

  lemma {:induction false} SessionIsFaithful(
      world: World, remap: Remap, catalog: map<string, Entry>, s: Session, start: Replay, ops: seq<Op>)
    returns (r: Replay)
    requires s.ledger == [] && Faithfully(s, start, catalog, {}) && AllReplayable(world, remap, catalog, s, ops)
    ensures Replayed(world, remap, catalog, s, start, ops, r)
    decreases |ops|
  {
    if ops == [] {
      r := start;
    } else {
      AllReplayableByLast(world, remap, catalog, s, ops);
      r := SessionIsFaithful(world, remap, catalog, s, start, ops[..|ops| - 1]);
      r := NextIsReplayed(world, remap, catalog, s, start, ops, r);
    }
  }

  // ----- the theorems -----

  lemma FreshIsFaithful(s: Session, catalog: map<string, Entry>, kinds: set<string>)
    requires s.ledger == [] && s.issued == 0 && s.tree.kids == map[]
    requires s.tree.root == Initial("root", kinds).(registry := s.tree.root.registry)
    ensures Faithfully(s, Replay(Session(FreshTree(catalog, kinds), 0, []), []), catalog, {})
  {
    assert Entries(catalog, {}) == map[];
  }

  lemma KindsAreKept(world: World, s: Session, op: Op)
    ensures Drive(world, s, op, Prefix(op)).tree.root.childKinds == s.tree.root.childKinds
  {
    if !op.Register? && !RefusedAtOnce(op) {
      IssueKeepsCatalog(world, s.tree, Correlation(Prefix(op), s.issued + 1), op);
    }
  }

  lemma {:induction false} SessionKeepsKinds(world: World, s: Session, ops: seq<Op>)
    ensures Sessions(world, s, ops).tree.root.childKinds == s.tree.root.childKinds
    decreases |ops|
  {
    if ops != [] {
      SessionKeepsKinds(world, s, ops[..|ops| - 1]);
      KindsAreKept(world, Sessions(world, s, ops[..|ops| - 1]), ops[|ops| - 1]);
    }
  }

  /**
   Any session, registering whenever it likes, whose operations are replayable when their turn
   comes: the replay does not raise, rebuilds the recorded tree cut to what was granted, and fails
   exactly the runs that were recorded without a response.
   */
  lemma ReplayIsFaithful(world: World, remap: Remap, kinds: set<string>, ops: seq<Op>)
    requires var s := Sessions(world, NewSession(kinds), ops);
      AllReplayable(world, remap, s.tree.catalog, NewSession(kinds), ops)
    ensures var s := Sessions(world, NewSession(kinds), ops);
      var replay := ReplaySession(world, remap, s);
      && replay.Some? && replay.value.failed == Unanswered(s.ledger)
      && Equivalent(s.tree, replay.value.session.tree, s.tree.catalog, Granted(s.tree.catalog, ops))
  {
    var s := Sessions(world, NewSession(kinds), ops);
    FreshIsFaithful(NewSession(kinds), s.tree.catalog, kinds);
    SessionKeepsKinds(world, NewSession(kinds), ops);
    var r := SessionIsFaithful(world, remap, s.tree.catalog, NewSession(kinds), FreshReplay(s), ops);
  }

  // ----- sessions that register first -----

  predicate AllRegister(ops: seq<Op>) {
    forall i :: 0 <= i < |ops| ==> ops[i].Register?
  }

  /** The root holds what is registered. */
  predicate HoldsCatalog(t: Tree) {
    t.root.registry == t.catalog
  }

  lemma {:induction false} RegisteredSession(world: World, kinds: set<string>, ops: seq<Op>)
    requires AllRegister(ops)
    ensures var s := Sessions(world, NewSession(kinds), ops);
      && s.ledger == [] && s.issued == 0 && s.tree.kids == map[] && HoldsCatalog(s.tree)
      && s.tree.root == Initial("root", kinds).(registry := s.tree.root.registry)
    decreases |ops|
  {
    if ops != [] { RegisteredSession(world, kinds, ops[..|ops| - 1]); }
  }

  lemma RunHoldsCatalog(world: World, t: Tree, d: Directive)
    requires d.body.Run? && HoldsCatalog(t)
    ensures HoldsCatalog(RunTree(world, t, d.cid, d.body.run).0)
  {
    match NamedChild(d)
    case None =>
      LocalShape(world, t, d);
      RunKeepsRegistry(world, t.root, d);
    case Some(child) =>
      if child in t.root.children && child in t.kids {
        DelegatedLeaves(world, t, d, child);
      } else {
        RefusedShape(world, t, d, child);
      }
  }

  lemma RunKeepsRegistry(world: World, s: State, d: Directive)
    requires d.body.Run?
    ensures RunStep(world, s, d).state.registry == s.registry
  {
  }

  lemma ConfigureHoldsCatalog(s: State, c: ConfigurePayload, catalog: map<string, Entry>)
    requires s.registry == catalog
    ensures ConfigureStep(s, c, catalog).0.state.registry == catalog
  {
    ConfiguredRegistry(s, c, catalog);
    CopiedAreCataloged(c.tasks, catalog);
    CopiedAreCataloged(c.verifiers, catalog);
    assert ConfigureStep(s, c, catalog).0.state.registry.Keys == catalog.Keys;
  }

  lemma IssueHoldsCatalog(world: World, t: Tree, cid: string, op: Op)
    requires !op.Register? && HoldsCatalog(t)
    ensures var t' := Issue(world, t, cid, op).0; HoldsCatalog(t') && t'.catalog == t.catalog
  {
    IssueKeepsCatalog(world, t, cid, op);
    match op
    case ConfigureRoot(c) => ConfigureHoldsCatalog(t.root, c, t.catalog);
    case RunTask(run) => RunHoldsCatalog(world, t, Directive(cid, Run(run)));
    case _ =>
  }

  lemma {:induction false} SessionHoldsCatalog(world: World, s: Session, ops: seq<Op>)
    requires NoRegister(ops) && HoldsCatalog(s.tree)
    ensures var t := Sessions(world, s, ops).tree; HoldsCatalog(t) && t.catalog == s.tree.catalog
    decreases |ops|
  {
    if ops != [] {
      var n := |ops| - 1;
      var o := Sessions(world, s, ops[..n]);
      SessionHoldsCatalog(world, s, ops[..n]);
      if !RefusedAtOnce(ops[n]) {
        IssueHoldsCatalog(world, o.tree, Correlation(Prefix(ops[n]), o.issued + 1), ops[n]);
      }
    }
  }

  /** A recorded operation whose replay neither raises nor fails was replayable. */
  lemma StepIsExact(
      world: World, remap: Remap, o: Session, r: Replay, granted: set<string>, op: Op, record: Record)
    requires Faithfully(o, r, o.tree.catalog, granted) && HoldsCatalog(o.tree) && IsReissued(op)
    requires record == Record(Correlation(Prefix(op), o.issued + 1), op, OutcomeNext(world, o, op))
    requires ReplayOne(world, remap, r, record).Some? && ReplayOne(world, remap, r, record).value.failed == r.failed
    ensures Replayable(world, remap, o.tree.catalog, o, granted, op)
    ensures op.RunTask? ==> record.outcome.Some?
  {
    if op.RunTask? { RunPassesAsExpected(world, remap, o, r, o.tree.catalog, granted, op.run, record); }
    if op.ConfigureChild? { ConfigureRaisesExactly(o, r, granted, op); }
  }

  /** A child configure raises on replay exactly when it carries an envelope or raised in the session. */
  lemma ConfigureRaisesExactly(o: Session, r: Replay, granted: set<string>, op: Op)
    requires Equivalent(o.tree, r.session.tree, o.tree.catalog, granted) && op.ConfigureChild? && !RefusedAtOnce(op)
    ensures ReplayRaises(r, op) <==> op.configure.envelope.Some? || ChildConfigureRaises(o.tree, op)
    ensures ChildConfigureRaises(o.tree, op) <==>
      op.identity in o.tree.kids && !ConfiguresSame(op.configure, o.tree.catalog, o.tree.catalog)
  {
    if op.identity in o.tree.kids {
      ConfigureFails(o.tree.kids[op.identity], op.configure, o.tree.catalog);
      ConfigureFails(r.session.tree.kids[op.identity], op.configure, o.tree.catalog);
    }
  }

  /** The replay has neither raised nor failed. */
  ghost predicate Passes(world: World, remap: Remap, start: Replay, ledger: seq<Record>) {
    ReplayAll(world, remap, start, ledger).Some? && ReplayAll(world, remap, start, ledger).value.failed == []
  }

  lemma FailedOnlyGrow(world: World, remap: Remap, r: Replay, record: Record)
    requires ReplayOne(world, remap, r, record).Some?
    ensures r.failed <= ReplayOne(world, remap, r, record).value.failed
  {
  }

  /** A replay that passes did so up to the last entry, and passes that. */
  lemma FrontPasses(world: World, remap: Remap, start: Replay, ledger: seq<Record>, record: Record)
    requires Passes(world, remap, start, ledger + [record])
    ensures Passes(world, remap, start, ledger)
    ensures var r := ReplayAll(world, remap, start, ledger).value;
      ReplayOne(world, remap, r, record).Some? && ReplayOne(world, remap, r, record).value.failed == r.failed
  {
    LedgerGrows(world, remap, start, ledger, record);
    FailedOnlyGrow(world, remap, ReplayAll(world, remap, start, ledger).value, record);
  }

  lemma LastIsExact(
      world: World, remap: Remap, s: Session, start: Replay, ops: seq<Op>, r: Replay, record: Record)
    requires ops != [] && NoRegister(ops) && HoldsCatalog(s.tree) && IsReissued(ops[|ops| - 1])
    requires Replayed(world, remap, s.tree.catalog, s, start, ops[..|ops| - 1], r)
    requires var o, op := Sessions(world, s, ops[..|ops| - 1]), ops[|ops| - 1];
      record == Record(Correlation(Prefix(op), o.issued + 1), op, OutcomeNext(world, o, op))
    requires ReplayOne(world, remap, r, record).Some? && ReplayOne(world, remap, r, record).value.failed == r.failed
    ensures ReplayableAt(world, remap, s.tree.catalog, s, ops, |ops| - 1) && (record.op.RunTask? ==>
      record.outcome.Some?)
  {
    var front := ops[..|ops| - 1];
    SessionHoldsCatalog(world, s, front);
    StepIsExact(world, remap, Sessions(world, s, front), r, Granted(s.tree.catalog, front), record.op, record);
  }

  lemma LastRecords(world: World, o: Session, op: Op)
    requires !op.Register? && !RefusedAtOnce(op)
    ensures Drive(world, o, op, Prefix(op)).ledger ==
      o.ledger + [Record(Correlation(Prefix(op), o.issued + 1), op, OutcomeNext(world, o, op))]
  {
  }

  /** A session that replays without failing was replayable throughout, and every run got an answer. */
  lemma {:induction false} SessionIsExact(world: World, remap: Remap, s: Session, start: Replay, ops: seq<Op>)
    requires s.ledger == [] && Faithfully(s, start, s.tree.catalog, {}) && NoRegister(ops) && HoldsCatalog(s.tree)
    requires Passes(world, remap, start, Sessions(world, s, ops).ledger)
    ensures AllReplayable(world, remap, s.tree.catalog, s, ops) && Unanswered(Sessions(world, s, ops).ledger) == []
    decreases |ops|
  {
    if ops != [] {
      var front, op := ops[..|ops| - 1], ops[|ops| - 1];
      var o := Sessions(world, s, front);
      if RefusedAtOnce(op) {
        SessionIsExact(world, remap, s, start, front);
      } else {
        var record := Record(Correlation(Prefix(op), o.issued + 1), op, OutcomeNext(world, o, op));
        LastRecords(world, o, op);
        FrontPasses(world, remap, start, o.ledger, record);
        UnansweredGrows(o.ledger, record);
        SessionIsExact(world, remap, s, start, front);
        if IsReissued(op) {
          var r := SessionIsFaithful(world, remap, s.tree.catalog, s, start, front);
          LastIsExact(world, remap, s, start, ops, r, record);
        }
      }
      assert IsReissued(op) || ReplayableAt(world, remap, s.tree.catalog, s, ops, |ops| - 1);
      AllReplayableByLast(world, remap, s.tree.catalog, s, ops);
    }
  }

  /** A session that registered first, and its fresh replay. */
  lemma RegisteredIsFaithful(world: World, kinds: set<string>, registrations: seq<Op>, ops: seq<Op>)
    requires AllRegister(registrations) && NoRegister(ops)
    ensures var s := Sessions(world, NewSession(kinds), registrations);
      var start := FreshReplay(Sessions(world, s, ops));
      s.ledger == [] && HoldsCatalog(s.tree) && Faithfully(s, start, s.tree.catalog, {})
  {
    var s := Sessions(world, NewSession(kinds), registrations);
    RegisteredSession(world, kinds, registrations);
    SessionHoldsCatalog(world, s, ops);
    SessionKeepsKinds(world, s, ops);
    FreshIsFaithful(s, s.tree.catalog, kinds);
  }

  /**
   A session that registers first replays without raising and without failing if and only if
   every run got a response and every operation was replayable when its turn came.
   */
  lemma ReplayPassesExactly(world: World, remap: Remap, kinds: set<string>, registrations: seq<Op>, ops: seq<Op>)
    requires AllRegister(registrations) && NoRegister(ops)
    ensures var s := Sessions(world, NewSession(kinds), registrations);
      var o := Sessions(world, s, ops);
      var passes := Passes(world, remap, FreshReplay(o), o.ledger);
      passes <==> Unanswered(o.ledger) == [] && AllReplayable(world, remap, s.tree.catalog, s, ops)
  {
    var s := Sessions(world, NewSession(kinds), registrations);
    var o := Sessions(world, s, ops);
    RegisteredIsFaithful(world, kinds, registrations, ops);
    if AllReplayable(world, remap, s.tree.catalog, s, ops) {
      var r := SessionIsFaithful(world, remap, s.tree.catalog, s, FreshReplay(o), ops);
    }
    if Passes(world, remap, FreshReplay(o), o.ledger) { SessionIsExact(world, remap, s, FreshReplay(o), ops); }
  }

  // ----- when the replay raises -----

  /** The replay reaches the entry, and the entry makes it raise. */
  ghost predicate RaisesAt(world: World, remap: Remap, start: Replay, ledger: seq<Record>, i: nat)
    requires i < |ledger|
  {
    var before := ReplayAll(world, remap, start, ledger[..i]);
    var op := ledger[i].op;
    && before.Some? && op.ConfigureChild?
    && (op.configure.envelope.Some?
        || (op.identity in before.value.session.tree.kids
          && !Succeeds(op.configure, before.value.session.tree.catalog)))
  }

  /** The replay raises exactly when it reaches a child configure with an envelope, or one that cannot succeed. */
  lemma {:induction false} ReplayRaisesExactly(world: World, remap: Remap, r: Replay, ledger: seq<Record>)
    ensures ReplayAll(world, remap, r, ledger).None? <==>
      exists i :: 0 <= i < |ledger| && RaisesAt(world, remap, r, ledger, i)
    decreases |ledger|
  {
    if ledger != [] {
      var n := |ledger| - 1;
      ReplayRaisesExactly(world, remap, r, ledger[..n]);
      RaisesSplit(world, remap, r, ledger);
      if ReplayAll(world, remap, r, ledger[..n]).Some? {
        LastRaises(world, remap, r, ledger);
      } else {
        StaysRaised(world, remap, r, ledger, n);
      }
    }
  }

  lemma RaisesSplit(world: World, remap: Remap, r: Replay, ledger: seq<Record>)
    requires ledger != []
    ensures var n := |ledger| - 1;
      (exists i :: 0 <= i < |ledger| && RaisesAt(world, remap, r, ledger, i)) <==>
        || (exists i :: 0 <= i < n && RaisesAt(world, remap, r, ledger[..n], i))
        || RaisesAt(world, remap, r, ledger, n)
  {
    var n := |ledger| - 1;
    forall i | 0 <= i < n
      ensures RaisesAt(world, remap, r, ledger, i) <==> RaisesAt(world, remap, r, ledger[..n], i)
    {
      assert ledger[..n][..i] == ledger[..i];
    }
  }

  lemma LastRaises(world: World, remap: Remap, r: Replay, ledger: seq<Record>)
    requires ledger != [] && ReplayAll(world, remap, r, ledger[..|ledger| - 1]).Some?
    ensures ReplayAll(world, remap, r, ledger).None? <==> RaisesAt(world, remap, r, ledger, |ledger| - 1)
  {
    var before, op := ReplayAll(world, remap, r, ledger[..|ledger| - 1]).value.session.tree, ledger[|ledger| - 1].op;
    if op.ConfigureChild? && op.identity in before.kids {
      ConfigureFails(before.kids[op.identity], op.configure, before.catalog);
    }
  }

  /** A child configure that was recorded, and carried an envelope or raised in the session. */
  ghost predicate RaisesOnRecord(world: World, s: Session, ops: seq<Op>, i: nat)
    requires i < |ops|
  {
    var op := ops[i];
    && op.ConfigureChild? && !RefusedAtOnce(op)
    && (op.configure.envelope.Some? || ChildConfigureRaises(Sessions(world, s, ops[..i]).tree, op))
  }

  ghost predicate OthersReplayable(world: World, remap: Remap, s: Session, ops: seq<Op>) {
    forall i {:trigger ReplayableAt(world, remap, s.tree.catalog, s, ops, i)} :: 0 <= i < |ops| ==>
      ops[i].ConfigureChild? || ReplayableAt(world, remap, s.tree.catalog, s, ops, i)
  }

  /** A child configure is replayable exactly when it does not raise on record. */
  lemma RaisesOrReplays(world: World, remap: Remap, s: Session, ops: seq<Op>, i: nat)
    requires NoRegister(ops) && HoldsCatalog(s.tree) && i < |ops| && ops[i].ConfigureChild?
    ensures RaisesOnRecord(world, s, ops, i) <==> !ReplayableAt(world, remap, s.tree.catalog, s, ops, i)
  {
    var o, op := Sessions(world, s, ops[..i]), ops[i];
    SessionHoldsCatalog(world, s, ops[..i]);
    if op.identity in o.tree.kids { ConfigureFails(o.tree.kids[op.identity], op.configure, o.tree.catalog); }
  }

  lemma FrontOthersReplayable(world: World, remap: Remap, s: Session, ops: seq<Op>)
    requires ops != [] && OthersReplayable(world, remap, s, ops)
    ensures OthersReplayable(world, remap, s, ops[..|ops| - 1])
  {
    forall i | 0 <= i < |ops| - 1
      ensures ops[i].ConfigureChild? || ReplayableAt(world, remap, s.tree.catalog, s, ops[..|ops| - 1], i)
    {
      SameInFront(world, remap, s.tree.catalog, s, ops, i);
      assert ops[i].ConfigureChild? || ReplayableAt(world, remap, s.tree.catalog, s, ops, i);
    }
  }

  /** Only a child configure is in the way: the replay raises there. */
  lemma {:induction false} UnreplayableRaises(world: World, remap: Remap, s: Session, start: Replay, ops: seq<Op>)
    requires s.ledger == [] && Faithfully(s, start, s.tree.catalog, {}) && NoRegister(ops) && HoldsCatalog(s.tree)
    requires OthersReplayable(world, remap, s, ops) && !AllReplayable(world, remap, s.tree.catalog, s, ops)
    ensures ReplayAll(world, remap, start, Sessions(world, s, ops).ledger).None?
    decreases |ops|
  {
    var front, op := ops[..|ops| - 1], ops[|ops| - 1];
    var o := Sessions(world, s, front);
    AllReplayableByLast(world, remap, s.tree.catalog, s, ops);
    if !op.Register? && !RefusedAtOnce(op) {
      LastRecords(world, o, op);
      LedgerGrows(world, remap, start, o.ledger,
        Record(Correlation(Prefix(op), o.issued + 1), op, OutcomeNext(world, o, op)));
    }
    if AllReplayable(world, remap, s.tree.catalog, s, front) {
      var r := SessionIsFaithful(world, remap, s.tree.catalog, s, start, front);
      SessionHoldsCatalog(world, s, front);
      assert !ReplayableAt(world, remap, s.tree.catalog, s, ops, |ops| - 1);
      ConfigureRaisesExactly(o, r, Granted(s.tree.catalog, front), op);
    } else {
      FrontOthersReplayable(world, remap, s, ops);
      UnreplayableRaises(world, remap, s, start, front);
    }
  }

  /**
   A session that registers first, and whose other operations were replayable when their turn
   came, replays without raising exactly when no child configure on record carried an envelope
   or raised in the session itself.
   */
  lemma ReplayRaisesOnRecord(world: World, remap: Remap, kinds: set<string>, registrations: seq<Op>, ops: seq<Op>)
    requires AllRegister(registrations) && NoRegister(ops)
    requires OthersReplayable(world, remap, Sessions(world, NewSession(kinds), registrations), ops)
    ensures var s := Sessions(world, NewSession(kinds), registrations);
      ReplaySession(world, remap, Sessions(world, s, ops)).None? <==>
        exists i :: 0 <= i < |ops| && RaisesOnRecord(world, s, ops, i)
  {
    var s := Sessions(world, NewSession(kinds), registrations);
    var start := FreshReplay(Sessions(world, s, ops));
    RegisteredIsFaithful(world, kinds, registrations, ops);
    forall i | 0 <= i < |ops| && ops[i].ConfigureChild?
      ensures RaisesOnRecord(world, s, ops, i) <==> !ReplayableAt(world, remap, s.tree.catalog, s, ops, i)
    {
      RaisesOrReplays(world, remap, s, ops, i);
    }
    if AllReplayable(world, remap, s.tree.catalog, s, ops) {
      var r := SessionIsFaithful(world, remap, s.tree.catalog, s, start, ops);
    } else {
      UnreplayableRaises(world, remap, s, start, ops);
    }
  }
  /** One recorded child configure with an envelope is enough: the session never replays. */
  lemma EnvelopedChildConfigureRaises(world: World, remap: Remap, s: Session, i: nat)
    requires i < |s.ledger| && s.ledger[i].op.ConfigureChild? && s.ledger[i].op.configure.envelope.Some?
    ensures ReplaySession(world, remap, s).None?
  {
    assert s.ledger[..i + 1][..i] == s.ledger[..i];
    StaysRaised(world, remap, FreshReplay(s), s.ledger, i + 1);
  }

  /** Such a session: a spawned child is granted an envelope, which succeeds and is recorded. */
  lemma EnvelopedSession(world: World, remap: Remap, kinds: set<string>, endpoint: string, envelope: Envelope)
    requires ValidEnvelope(envelope) && endpoint != "" && world.mayBind(endpoint)
    ensures var c := ConfigurePayload(Some(Some(envelope)), false, None, [], []);
      var spawned := Drive(world, NewSession(kinds), SpawnChild("worker", endpoint, None), "spawn");
      var s := Drive(world, spawned, ConfigureChild("worker", c), "configure-child");
      && "worker" in s.tree.kids && s.tree.kids["worker"].guard == Some(Guard(Some(envelope), 0, 0))
      && !ChildConfigureRaises(spawned.tree, ConfigureChild("worker", c))
      && ReplaySession(world, remap, s).None?
  {
    var c := ConfigurePayload(Some(Some(envelope)), false, None, [], []);
    var spawned := Drive(world, NewSession(kinds), SpawnChild("worker", endpoint, None), "spawn");
    assert "worker" in spawned.tree.kids;
    var s := Drive(world, spawned, ConfigureChild("worker", c), "configure-child");
    EnvelopedChildConfigureRaises(world, remap, s, 1);
  }

  // ----- the ledger is in order of issue -----

  ghost predicate Ordered(s: Session) {
    && (forall i :: 0 <= i < |s.ledger| ==> SeqOf(s.ledger[i].cid) <= s.issued)
    && forall i, j :: 0 <= i < j < |s.ledger| ==> SeqOf(s.ledger[i].cid) < SeqOf(s.ledger[j].cid)
  }

  lemma DriveKeepsOrder(world: World, s: Session, op: Op)
    requires Ordered(s)
    ensures Ordered(Drive(world, s, op, Prefix(op)))
  {
    if !op.Register? && !RefusedAtOnce(op) {
      var cid := Correlation(Prefix(op), s.issued + 1);
      SeqOfCorrelation(Prefix(op), s.issued + 1);
      AppendKeepsOrder(s, Record(cid, op, Issue(world, s.tree, cid, op).1), Issue(world, s.tree, cid, op).0);
    }
  }

  lemma AppendKeepsOrder(s: Session, record: Record, tree: Tree)
    requires Ordered(s) && SeqOf(record.cid) == s.issued + 1
    ensures Ordered(Session(tree, s.issued + 1, s.ledger + [record]))
  {
  }

  /** The numbers read off the ids increase along the ledger, so sorting by them changes nothing. */
  lemma {:induction false} LedgerIsOrdered(world: World, s: Session, ops: seq<Op>)
    requires Ordered(s)
    ensures Ordered(Sessions(world, s, ops))
    decreases |ops|
  {
    if ops != [] {
      var n := |ops| - 1;
      LedgerIsOrdered(world, s, ops[..n]);
      DriveKeepsOrder(world, Sessions(world, s, ops[..n]), ops[n]);
    }
  }

  // ----- sessions that do not replay -----

  /** A task that gives back what it was passed under "state". */
  function EchoWorld(): World {
    World((callable: Callable, args: Args) => Returned(if "state" in args then args["state"] else P.Null),
      (callable: Callable, value: Value) => Accepts, (endpoint: string) => true)
  }

  function Grant(name: string): ConfigurePayload {
    ConfigurePayload(None, false, None, [name], [])
  }

  function EchoRun(path: string): RunPayload {
    RunPayload(Some("echo"), map["state" := P.Str(path)], None, None)
  }

  /** Register, grant, run with a string under "state". */
  function EchoSession(path: string): Session {
    var world := EchoWorld();
    var registered := Drive(world, NewSession({}), Op.Register("echo", "echo", ""), "register");
    var granted := Drive(world, registered, ConfigureRoot(Grant("echo")), "configure");
    Drive(world, granted, RunTask(EchoRun(path)), "run")
  }

  function EchoRoot(): State {
    Initial("root", {}).(registry := map["echo" := Entry(Some("echo"), "")])
  }

  /** Granting the task gives a root that holds nothing, or the catalog already, the catalog. */
  lemma EchoConfigures(root: State)
    requires (root.registry == map[] || root == EchoRoot()) && root.(registry := map[]) == Initial("root", {})
    ensures ConfigureStep(root, Grant("echo"), EchoRoot().registry) == (Step(EchoRoot(), []), None)
  {
    var catalog := EchoRoot().registry;
    assert ["echo"][1..] == [];
    assert RegisterAll(root.registry, ["echo"], catalog) ==
      RegisterAll(root.registry["echo" := catalog["echo"]], [], catalog);
    assert root.registry["echo" := catalog["echo"]] == catalog;
  }

  function EchoTree(): Tree {
    Tree(EchoRoot().registry, EchoRoot(), map[])
  }

  lemma EchoRuns(s: Session, path: string, prefix: string)
    requires s.tree == EchoTree()
    ensures LastOutcome(Drive(EchoWorld(), s, RunTask(EchoRun(path)), prefix)) ==
      Some(Outcome(ResultResponse, P.Str(path), None))
  {
    var d := Directive(Correlation(prefix, s.issued + 1), Run(EchoRun(path)));
    LocalShape(EchoWorld(), EchoTree(), d);
    assert RunStep(EchoWorld(), EchoRoot(), d) == Answer(EchoWorld(), EchoRoot(), d, "echo", P.Str(path));
  }

  lemma EchoGrants(s: Session, prefix: string)
    requires s.tree == EchoTree() || s.tree == FreshTree(EchoRoot().registry, {})
    ensures Drive(EchoWorld(), s, ConfigureRoot(Grant("echo")), prefix).tree == EchoTree()
  {
    EchoConfigures(s.tree.root);
  }

  lemma EchoRegisters()
    ensures Drive(EchoWorld(), NewSession({}), Op.Register("echo", "echo", ""), "register") ==
      Session(EchoTree(), 0, [])
  {
  }

  lemma TwoRecords(world: World, remap: Remap, r: Replay, ledger: seq<Record>)
    requires |ledger| == 2
    ensures ReplayAll(world, remap, r, ledger) ==
      match ReplayOne(world, remap, r, ledger[0])
      case None => None
      case Some(next) => ReplayOne(world, remap, next, ledger[1])
  {
    assert ledger == [ledger[0]] + [ledger[1]] && [ledger[0]] == [] + [ledger[0]];
    LedgerGrows(world, remap, r, [ledger[0]], ledger[1]);
    LedgerGrows(world, remap, r, [], ledger[0]);
  }

  /**
   A string passed under "state" is taken for a path: the run was granted everything it
   looked up and still fails its replay, because the path moved.
   */
  lemma RemappedRunFails(remap: Remap, path: string)
    requires remap(path) != path
    ensures var s := EchoSession(path);
      && |s.ledger| == 2 && s.ledger[1].outcome == Some(Outcome(ResultResponse, P.Str(path), None))
      && ReplaySession(EchoWorld(), remap, s).Some?
      && ReplaySession(EchoWorld(), remap, s).value.failed == [s.ledger[1].cid]
  {
    EchoRegisters();
    var granted := Drive(EchoWorld(), Session(EchoTree(), 0, []), ConfigureRoot(Grant("echo")), "configure");
    EchoGrants(Session(EchoTree(), 0, []), "configure");
    EchoRuns(granted, path, "run");
    EchoReplays(remap, path, granted.ledger[0], EchoSession(path).ledger[1]);
    TwoRecords(EchoWorld(), remap, FreshReplay(EchoSession(path)), EchoSession(path).ledger);
  }

  lemma EchoReplays(remap: Remap, path: string, configured: Record, ran: Record)
    requires configured.op == ConfigureRoot(Grant("echo")) && ran.op == RunTask(EchoRun(path))
    requires ran.outcome != Some(Outcome(ResultResponse, P.Str(remap(path)), None))
    ensures var start := Replay(Session(FreshTree(EchoRoot().registry, {}), 0, []), []);
      var next := ReplayOne(EchoWorld(), remap, start, configured);
      && next.Some? && next.value.failed == []
      && var last := ReplayOne(EchoWorld(), remap, next.value, ran);
      last.Some? && last.value.failed == [ran.cid]
  {
    var start := Replay(Session(FreshTree(EchoRoot().registry, {}), 0, []), []);
    EchoGrants(start.session, "replay");
    var next := Drive(EchoWorld(), start.session, configured.op, "replay");
    EchoRuns(next, remap(path), "replay-run");
    assert RemapArgs(remap, EchoRun(path).args) == EchoRun(remap(path)).args;
  }

  /** Configure first, run, and register only then. */
  function LateSession(path: string): Session {
    var world := EchoWorld();
    var configured := Drive(world, NewSession({}), ConfigureRoot(Grant("echo")), "configure");
    var ran := Drive(world, configured, RunTask(EchoRun(path)), "run");
    Drive(world, ran, Op.Register("echo", "echo", ""), "register")
  }

  lemma EarlyConfigure()
    ensures Drive(EchoWorld(), NewSession({}), ConfigureRoot(Grant("echo")), "configure").tree == FreshTree(map[], {})
  {
    ConfiguredState(Initial("root", {}), Grant("echo"), map[]);
  }

  lemma EarlyRun(s: Session, path: string)
    requires s.tree == FreshTree(map[], {})
    ensures var next := Drive(EchoWorld(), s, RunTask(EchoRun(path)), "run");
      next.tree == s.tree && LastOutcome(next) == ErrorOf(UnknownTask("echo"))
  {
    LocalShape(EchoWorld(), s.tree, Directive(Correlation("run", s.issued + 1), Run(EchoRun(path))));
  }

  /** A configure that failed because its task was registered later goes through on replay, and the run with it. */
  lemma LateRegistrationFails(remap: Remap, path: string)
    ensures var s := LateSession(path);
      && |s.ledger| == 2 && s.ledger[1].outcome == ErrorOf(UnknownTask("echo"))
      && ReplaySession(EchoWorld(), remap, s).Some?
      && ReplaySession(EchoWorld(), remap, s).value.failed == [s.ledger[1].cid]
  {
    EarlyConfigure();
    var configured := Drive(EchoWorld(), NewSession({}), ConfigureRoot(Grant("echo")), "configure");
    EarlyRun(configured, path);
    var ran := Drive(EchoWorld(), configured, RunTask(EchoRun(path)), "run");
    assert LateSession(path) == Session(EchoTree(), ran.issued, ran.ledger);
    EchoReplays(remap, path, ran.ledger[0], ran.ledger[1]);
    TwoRecords(EchoWorld(), remap, FreshReplay(LateSession(path)), ran.ledger);
  }

  /** A registered task that was never granted runs, because registering made it the root's own; its replay fails. */
  lemma UngrantedRunFails(
      world: World, remap: Remap, kinds: set<string>, name: string, callable: Callable, run: RunPayload, value: Value)
    requires run == RunPayload(Some(name), run.args, None, None) && world.run(callable, run.args) == Returned(value)
    ensures var registered := Drive(world, NewSession(kinds), Op.Register(name, callable, ""), "register");
      var s := Drive(world, registered, RunTask(run), "run");
      && s.ledger == [Record(Correlation("run", 1), RunTask(run), Some(Outcome(ResultResponse, value, None)))]
      && ReplaySession(world, remap, s).Some?
      && ReplaySession(world, remap, s).value.failed == [Correlation("run", 1)]
  {
    var registered := Drive(world, NewSession(kinds), Op.Register(name, callable, ""), "register");
    RegisteredRuns(world, registered, name, callable, run, value);
    var s := Drive(world, registered, RunTask(run), "run");
    UnknownRunFails(world, remap, FreshReplay(s), s.ledger[0]);
    assert s.ledger == [] + [s.ledger[0]];
    LedgerGrows(world, remap, FreshReplay(s), [], s.ledger[0]);
  }

  lemma RegisteredRuns(world: World, s: Session, name: string, callable: Callable, run: RunPayload, value: Value)
    requires run == RunPayload(Some(name), run.args, None, None) && world.run(callable, run.args) == Returned(value)
    requires ResolveCallable(s.tree.root.registry, name) == Some(callable) && s.tree.root.guard.None?
    requires s.tree.root.verifier.None? && s.tree.root.usedKeys == {} && s.tree.root.results == map[]
    ensures LastOutcome(Drive(world, s, RunTask(run), "run")) == Some(Outcome(ResultResponse, value, None))
  {
    var d := Directive(Correlation("run", s.issued + 1), Run(run));
    LocalShape(world, s.tree, d);
    assert RunStep(world, s.tree.root, d) == Answer(world, s.tree.root, d, name, value);
  }

  lemma UnknownRunFails(world: World, remap: Remap, r: Replay, record: Record)
    requires record.op.RunTask? && record.op.run.task.Some? && record.op.run.child.None?
    requires r.session.tree.root == Initial("root", r.session.tree.root.childKinds)
    requires record.outcome.Some? && record.outcome.value.terminal.ResultResponse?
    ensures ReplayOne(world, remap, r, record).Some?
    ensures ReplayOne(world, remap, r, record).value.failed == r.failed + [record.cid]
  {
    var op := Reissued(remap, record.op);
    LocalShape(world, r.session.tree, Directive(Correlation("replay-run", r.session.issued + 1), Run(op.run)));
  }
}
