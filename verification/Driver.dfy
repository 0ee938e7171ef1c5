/**
 The driver's session: numbered directives recorded in a ledger as they are issued, each
 one atomic round trip through the root agent and, when delegated, its child; and the
 replay that issues a recorded ledger again on a fresh tree.
 */
module Driver {
  import opened Wrappers
  import P = Ports
  import opened AgentMachine

  // ----- correlation ids -----

  function Digit(n: nat): char
    requires n < 10
  {
    ('0' as int + n) as char
  }

  function Decimal(n: nat): string {
    if n < 10 then [Digit(n)] else Decimal(n / 10) + [Digit(n % 10)]
  }

  function Correlation(prefix: string, n: nat): string {
    prefix + "-" + Decimal(n)
  }

  predicate AllDigits(s: string) {
    forall i :: 0 <= i < |s| ==> '0' <= s[i] <= '9'
  }

  function Numeral(s: string): nat
    requires AllDigits(s)
  {
    if s == "" then 0 else Numeral(s[..|s| - 1]) * 10 + (s[|s| - 1] as int - '0' as int)
  }

  /** What follows the last dash. */
  function AfterDash(s: string): Option<string> {
    if s == "" then None
    else
      var n := |s| - 1;
      if s[n] == '-' then Some("")
      else
        match AfterDash(s[..n])
        case None => None
        case Some(rest) => Some(rest + [s[n]])
  }

  /** The place of a correlation id in the order of issue; anything else sorts first. */
  function SeqOf(cid: string): nat {
    match AfterDash(cid)
    case None => 0
    case Some(rest) => if rest != "" && AllDigits(rest) then Numeral(rest) else 0
  }

  lemma {:induction false} DecimalIsBack(n: nat)
    ensures Decimal(n) != "" && AllDigits(Decimal(n)) && Numeral(Decimal(n)) == n
    decreases n
  {
    if n < 10 {
      assert Decimal(n)[..0] == "";
    } else {
      DecimalIsBack(n / 10);
      assert Decimal(n)[..|Decimal(n)| - 1] == Decimal(n / 10);
    }
  }

  lemma {:induction false} AfterDashIsBack(prefix: string, rest: string)
    requires forall i :: 0 <= i < |rest| ==> rest[i] != '-'
    ensures AfterDash(prefix + "-" + rest) == Some(rest)
    decreases |rest|
  {
    if rest != "" {
      var n := |rest| - 1;
      AfterDashIsBack(prefix, rest[..n]);
      assert prefix + "-" + rest == prefix + "-" + rest[..n] + [rest[n]];
      assert (prefix + "-" + rest)[..|prefix + "-" + rest| - 1] == prefix + "-" + rest[..n];
      assert rest == rest[..n] + [rest[n]];
    }
  }

  /** Whatever the prefix, the number of an id can be read off it: ids with different numbers differ. */
  lemma SeqOfCorrelation(prefix: string, n: nat)
    ensures SeqOf(Correlation(prefix, n)) == n
  {
    DecimalIsBack(n);
    AfterDashIsBack(prefix, Decimal(n));
  }

  // ----- one round trip -----

  datatype Op =
    | Register(name: string, callable: Callable, sourceUrl: string)
    | ConfigureRoot(configure: ConfigurePayload)
    | ConfigureChild(identity: string, configure: ConfigurePayload)
    | SpawnChild(identity: string, endpoint: string, kind: Option<string>)
    | RunTask(run: RunPayload)
    | AskRoot(name: string)

  /** What _same_outcome compares: terminal kind, value and error. */
  datatype Outcome = Outcome(terminal: ResponseKind, value: Value, error: Option<Reason>)

  datatype Record = Record(cid: string, op: Op, outcome: Option<Outcome>)

  datatype Tree = Tree(catalog: map<string, Entry>, root: State, kids: map<string, State>)

  function OutcomeOf(r: Response): Outcome {
    Outcome(r.kind, r.value, r.error)
  }

  /** The response a handled directive was answered with, if any. */
  function Answered(step: Step): Option<Outcome> {
    if step.effects == [] then None
    else
      match step.effects[|step.effects| - 1]
      case Sent(r) => Some(OutcomeOf(r))
      case Relayed(r) => Some(OutcomeOf(r))
      case _ => None
  }

  function Delegating(s: State, cid: string, child: string): State {
    s.(delegated := s.delegated[cid := child])
  }

  /** A run: handled by the root, or sent to its child and the child's answer relayed. */
  function RunTree(world: World, t: Tree, cid: string, run: RunPayload): (Tree, Option<Outcome>) {
    var d := Directive(cid, Run(run));
    match NamedChild(d)
    case None =>
      var step := RunStep(world, t.root, d);
      (t.(root := step.state), Answered(step))
    case Some(child) =>
      if child !in t.root.children then (t, Some(OutcomeOf(Error(t.root, cid, UnknownChild(child)))))
      else
        var root := Delegating(t.root, cid, child);
        if child !in t.kids then (t.(root := root), None)
        else
          var below := RunStep(world, t.kids[child], Stripped(d));
          var kids := t.kids[child := below.state];
          if below.effects == [] || !below.effects[|below.effects| - 1].Sent? then
            (t.(root := root, kids := kids), None)
          else
            var up := DrainStep(world, root, child, Message(below.effects[|below.effects| - 1].response));
            (t.(root := up.state, kids := kids), Answered(up))
  }

  /** The tree after an operation, and the outcome recorded for it. */
  function Issue(world: World, t: Tree, cid: string, op: Op): (Tree, Option<Outcome>) {
    match op
    case Register(name, callable, url) =>
      var entry := AgentMachine.Entry(Some(callable), url);
      (t.(catalog := t.catalog[name := entry], root := t.root.(registry := t.root.registry[name := entry])), None)
    case ConfigureRoot(c) =>
      var (step, failure) := ConfigureStep(t.root, c, t.catalog);
      (t.(root := step.state), Some(OutcomeOf(ConfigureAnswer(t.root, cid, failure))))
    case ConfigureChild(child, c) =>
      if child !in t.kids then (t, None)
      else (t.(kids := t.kids[child := ConfigureStep(t.kids[child], c, t.catalog).0.state]), None)
    case SpawnChild(child, endpoint, kind) =>
      var step := SpawnStep(world, t.root, Directive(cid, Spawn(child, endpoint, kind)));
      var isNew := child !in t.root.children && child in step.state.children;
      var kids := if isNew then t.kids[child := Initial(child, t.root.childKinds)] else t.kids;
      (t.(root := step.state, kids := kids), Answered(step))
    case RunTask(run) => RunTree(world, t, cid, run)
    case AskRoot(name) => (t, Some(OutcomeOf(Resolved(t.root, cid, name))))
  }

  /** A child configure that raises: no such name, or bounds that are not valid. */
  predicate ChildConfigureRaises(t: Tree, op: Op) {
    op.ConfigureChild? && op.identity in t.kids && ConfigureStep(t.kids[op.identity], op.configure, t.catalog).1.Some?
  }

  // ----- sessions -----

  datatype Session = Session(tree: Tree, issued: nat, ledger: seq<Record>)

  function FreshTree(catalog: map<string, Entry>, kinds: set<string>): Tree {
    Tree(catalog, Initial("root", kinds), map[])
  }

  function NewSession(kinds: set<string>): Session {
    Session(FreshTree(map[], kinds), 0, [])
  }

  function Prefix(op: Op): string {
    match op
    case Register(_, _, _) => "register"
    case ConfigureRoot(_) => "configure"
    case ConfigureChild(_, _) => "configure-child"
    case SpawnChild(_, _, _) => "spawn"
    case RunTask(_) => "run"
    case AskRoot(_) => "resolve"
  }

  function ReplayPrefix(op: Op): string {
    match op
    case ConfigureChild(_, _) => "configure-child"
    case RunTask(_) => "replay-run"
    case _ => "replay"
  }

  /** One numbered and recorded round trip. */
  function Roundtripped(world: World, s: Session, op: Op, prefix: string): Session {
    var cid := Correlation(prefix, s.issued + 1);
    var (tree, outcome) := Issue(world, s.tree, cid, op);
    Session(tree, s.issued + 1, s.ledger + [Record(cid, op, outcome)])
  }

  predicate GoodEnvelope(c: ConfigurePayload) {
    c.envelope.Some? && c.envelope.value.Some? ==> ValidEnvelope(c.envelope.value.value)
  }

  /** Bounds that the driver refuses before it issues the configure. */
  predicate RefusedAtOnce(op: Op) {
    (op.ConfigureRoot? || op.ConfigureChild?) && !GoodEnvelope(op.configure)
  }

  /**
   Register changes the tree only; a refused configure changes nothing, though a child's has
   taken its number by then; everything else takes a number and is recorded.
   */
  function Drive(world: World, s: Session, op: Op, prefix: string): Session {
    if op.Register? then s.(tree := Issue(world, s.tree, "", op).0)
    else if RefusedAtOnce(op) then s.(issued := s.issued + if op.ConfigureChild? then 1 else 0)
    else Roundtripped(world, s, op, prefix)
  }

  function Sessions(world: World, s: Session, ops: seq<Op>): Session {
    if ops == [] then s
    else
      var n := |ops| - 1;
      Drive(world, Sessions(world, s, ops[..n]), ops[n], Prefix(ops[n]))
  }

  // ----- replay -----

  // Where a replay puts a store path: the same path always goes to the same fresh one.
  type Remap = string -> string

  function RemapKey(remap: Remap, args: Args, key: string): Args {
    if key in args && args[key].Str? then args[key := P.Str(remap(args[key].s))] else args
  }

  /** _remap_state_paths on a run's arguments: strings under "state" and "trajectory" are taken for paths. */
  function RemapArgs(remap: Remap, args: Args): Args {
    RemapKey(remap, RemapKey(remap, args, "state"), "trajectory")
  }

  function Reissued(remap: Remap, op: Op): Op {
    if op.RunTask? then RunTask(op.run.(args := RemapArgs(remap, op.run.args))) else op
  }

  datatype Replay = Replay(session: Session, failed: seq<string>)

  /** The recorded envelope is no keyword of configure_child; a configure that raised once raises again. */
  predicate ReplayRaises(r: Replay, op: Op) {
    || (op.ConfigureChild? && op.configure.envelope.Some?)
    || ChildConfigureRaises(r.session.tree, op)
  }

  function LastOutcome(s: Session): Option<Outcome> {
    if s.ledger == [] then None else s.ledger[|s.ledger| - 1].outcome
  }

  /** One recorded entry; None once the replay raises. Failed runs are listed by their recorded id. */
  function ReplayOne(world: World, remap: Remap, r: Replay, record: Record): Option<Replay> {
    if ReplayRaises(r, record.op) then None
    else if record.op.AskRoot? || record.op.Register? then Some(r)
    else
      var s := Roundtripped(world, r.session, Reissued(remap, record.op), ReplayPrefix(record.op));
      if record.op.RunTask? && !(record.outcome.Some? && LastOutcome(s) == record.outcome)
      then Some(Replay(s, r.failed + [record.cid]))
      else Some(Replay(s, r.failed))
  }

  function ReplayAll(world: World, remap: Remap, r: Replay, ledger: seq<Record>): Option<Replay> {
    if ledger == [] then Some(r)
    else
      match ReplayAll(world, remap, r, ledger[..|ledger| - 1])
      case None => None
      case Some(before) => ReplayOne(world, remap, before, ledger[|ledger| - 1])
  }

  /** A fresh tree with the session's catalog, and nothing else of its. */
  function FreshReplay(s: Session): Replay {
    Replay(Session(FreshTree(s.tree.catalog, s.tree.root.childKinds), 0, []), [])
  }

  function ReplaySession(world: World, remap: Remap, s: Session): Option<Replay> {
    ReplayAll(world, remap, FreshReplay(s), s.ledger)
  }

  // ----- the driver object -----

  class CbpDriver {
    const world: World
    var tree: Tree
    var issued: nat
    var ledger: seq<Record>

    function State(): Session
      reads this
    {
      Session(tree, issued, ledger)
    }

    constructor (world: World, kinds: set<string>)
      ensures State() == NewSession(kinds) && this.world == world
    {
      this.world := world;
      tree, issued, ledger := FreshTree(map[], kinds), 0, [];
    }

    method NextCorrelation(prefix: string) returns (cid: string)
      modifies `issued
      ensures issued == old(issued) + 1 && cid == Correlation(prefix, issued) && SeqOf(cid) == issued
    {
      issued := issued + 1;
      SeqOfCorrelation(prefix, issued);
      return Correlation(prefix, issued);
    }

    /** Record the directive, let the tree act on it, then record its outcome in the same entry. */
    method Roundtrip(op: Op, prefix: string) returns (outcome: Option<Outcome>)
      modifies this
      ensures State() == Roundtripped(world, old(State()), op, prefix) && outcome == LastOutcome(State())
    {
      var cid := NextCorrelation(prefix);
      ledger := ledger + [Record(cid, op, None)];
      var (after, answer) := Issue(world, tree, cid, op);
      tree, outcome := after, answer;
      ledger := ledger[..|ledger| - 1] + [Record(cid, op, outcome)];
    }

    method RegisterCallable(name: string, callable: Callable, sourceUrl: string)
      modifies `tree
      ensures State() == Drive(world, old(State()), Op.Register(name, callable, sourceUrl), "register")
    {
      var entry := AgentMachine.Entry(Some(callable), sourceUrl);
      var root := tree.root.(registry := tree.root.registry[name := entry]);
      tree := tree.(catalog := tree.catalog[name := entry], root := root);
    }

    /** Any operation a caller asks for. */
    method Perform(op: Op)
      modifies this
      ensures State() == Drive(world, old(State()), op, Prefix(op))
    {
      if op.Register? {
        RegisterCallable(op.name, op.callable, op.sourceUrl);
      } else if RefusedAtOnce(op) {
        if op.ConfigureChild? { var cid := NextCorrelation(Prefix(op)); }
      } else {
        var outcome := Roundtrip(op, Prefix(op));
      }
    }

    /** Issue the recorded directives again on a fresh driver, comparing every run's outcome. */
    method Replayed(remap: Remap) returns (raised: bool, failed: seq<string>, again: Session)
      ensures ReplaySession(world, remap, State()) == if raised then None else Some(Replay(again, failed))
    {
      var driver := new CbpDriver(world, tree.root.childKinds);
      driver.tree := driver.tree.(catalog := tree.catalog);
      failed, again := [], driver.State();
      ghost var start := FreshReplay(State());
      for i := 0 to |ledger|
        invariant driver.world == world && again == driver.State()
        invariant ReplayAll(world, remap, start, ledger[..i]) == Some(Replay(again, failed))
      {
        var record := ledger[i];
        assert ledger[..i + 1][..i] == ledger[..i];
        if ReplayRaises(Replay(again, failed), record.op) {
          StaysRaised(world, remap, start, ledger, i + 1);
          return true, [], again;
        }
        if record.op.AskRoot? || record.op.Register? { continue; }
        var outcome := driver.Roundtrip(Reissued(remap, record.op), ReplayPrefix(record.op));
        if record.op.RunTask? && !(record.outcome.Some? && outcome == record.outcome) {
          failed := failed + [record.cid];
        }
        again := driver.State();
      }
      assert ledger[..|ledger|] == ledger;
      return false, failed, again;
    }
  }

  lemma {:induction false} StaysRaised(world: World, remap: Remap, r: Replay, ledger: seq<Record>, i: nat)
    requires i <= |ledger| && ReplayAll(world, remap, r, ledger[..i]).None?
    ensures ReplayAll(world, remap, r, ledger).None?
    decreases |ledger| - i
  {
    if i < |ledger| {
      assert ledger[..i + 1][..i] == ledger[..i];
      StaysRaised(world, remap, r, ledger, i + 1);
    } else {
      assert ledger[..i] == ledger;
    }
  }
}
