/** What a session records, what a replay issues again, and which child configures raise. */
module DriverLaws {
  import opened Wrappers
  import P = Ports
  import opened AgentMachine
  import L = AgentLaws
  import opened Driver

  // ----- what replay rewrites -----

  /** Replay moves a string under either of two keys of a run's arguments, and changes nothing else. */
  lemma ReissuedMovesPaths(remap: Remap, op: Op, key: string)
    ensures !op.RunTask? ==> Reissued(remap, op) == op
    ensures op.RunTask? ==>
      var args, run := op.run.args, op.run;
      && Reissued(remap, op).RunTask? && Reissued(remap, op).run.(args := args) == run
      && var moved := Reissued(remap, op).run.args;
         && (key in moved <==> key in args)
         && (key in args && (key == "state" || key == "trajectory") && args[key].Str? ==>
              moved[key] == P.Str(remap(args[key].s)))
         && (key in args && !((key == "state" || key == "trajectory") && args[key].Str?) ==> moved[key] == args[key])
  {
  }

  // ----- what a session records -----

  function KindName(op: Op): string {
    match op
    case Register(_, _, _) => "register"
    case ConfigureRoot(_) => "configure"
    case ConfigureChild(_, _) => "configure-child"
    case SpawnChild(_, _, _) => "spawn"
    case RunTask(_) => "run"
    case AskRoot(_) => "resolve"
  }

  predicate BringsNegativeBounds(op: Op) {
    (op.ConfigureRoot? && L.HasNegativeBound(op.configure)) || (op.ConfigureChild? && L.HasNegativeBound(op.configure))
  }

  /**
   Registering puts the callable in the catalog and the root's registry and records nothing;
   negative bounds are refused and record nothing; anything else takes the next number and is
   recorded, at the end, with its outcome.
   */
  lemma DriveRecords(world: World, s: Session, op: Op)
    ensures var after := Drive(world, s, op, Prefix(op));
      if op.Register? then
        var entry := AgentMachine.Entry(Some(op.callable), op.sourceUrl);
        && after == s.(tree := after.tree)
        && after.tree.catalog == s.tree.catalog[op.name := entry]
        && after.tree.root == s.tree.root.(registry := s.tree.root.registry[op.name := entry])
        && after.tree.kids == s.tree.kids
      else if BringsNegativeBounds(op) then
        after == s.(issued := after.issued) && after.issued == s.issued + if op.ConfigureChild? then 1 else 0
      else
        && after.issued == s.issued + 1 && |after.ledger| == |s.ledger| + 1
        && after.ledger[..|s.ledger|] == s.ledger
        && after.ledger[|s.ledger|].cid == KindName(op) + "-" + Decimal(s.issued + 1)
        && after.ledger[|s.ledger|].op == op
        && (after.tree, after.ledger[|s.ledger|].outcome) == Issue(world, s.tree, after.ledger[|s.ledger|].cid, op)
  {
    assert RefusedAtOnce(op) == BringsNegativeBounds(op);
  }

  /** A child configure raises exactly on negative bounds or a name that the catalog does not have. */
  lemma ChildConfigureRaisesExactly(t: Tree, op: Op)
    ensures ChildConfigureRaises(t, op) <==>
      && op.ConfigureChild? && op.identity in t.kids
      && (L.HasNegativeBound(op.configure)
          || exists name :: name in op.configure.tasks + op.configure.verifiers && name !in t.catalog)
  {
    if op.ConfigureChild? && op.identity in t.kids {
      var n := L.ConfigureSets(t.kids[op.identity], op.configure, t.catalog);
      var names := op.configure.tasks + op.configure.verifiers;
      assert n < |names| ==> names[n] in names;
    }
  }

  // ----- what a replay issues -----

  /** The configures, spawns and runs of a ledger, in order, with their paths moved. */
  function ReissuedOps(remap: Remap, ledger: seq<Record>): seq<Op> {
    if ledger == [] then []
    else
      var op := ledger[|ledger| - 1].op;
      ReissuedOps(remap, ledger[..|ledger| - 1])
        + if op.Register? || op.AskRoot? then [] else [Reissued(remap, op)]
  }

  function OpsOf(ledger: seq<Record>): seq<Op> {
    seq(|ledger|, i requires 0 <= i < |ledger| => ledger[i].op)
  }

  ghost predicate IsRunOf(ledger: seq<Record>, cid: string) {
    exists i :: 0 <= i < |ledger| && ledger[i].cid == cid && ledger[i].op.RunTask?
  }

  /** A replay that does not raise issues these and nothing else, in order, and fails only recorded runs. */
  lemma {:induction false} ReplayIssues(world: World, remap: Remap, r: Replay, ledger: seq<Record>)
    requires ReplayAll(world, remap, r, ledger).Some?
    ensures var after := ReplayAll(world, remap, r, ledger).value;
      && OpsOf(after.session.ledger) == OpsOf(r.session.ledger) + ReissuedOps(remap, ledger)
      && after.session.issued == r.session.issued + |ReissuedOps(remap, ledger)|
      && forall cid :: cid in after.failed ==> cid in r.failed || IsRunOf(ledger, cid)
    decreases |ledger|
  {
    if ledger != [] {
      var n := |ledger| - 1;
      ReplayIssues(world, remap, r, ledger[..n]);
      var before := ReplayAll(world, remap, r, ledger[..n]).value;
      var after := ReplayAll(world, remap, r, ledger).value;
      OneIsIssued(world, remap, before, ledger[n]);
      assert forall cid :: IsRunOf(ledger[..n], cid) ==> IsRunOf(ledger, cid);
    }
  }

  function ReplayName(op: Op): string {
    if op.RunTask? then "replay-run" else if op.ConfigureChild? then "configure-child" else "replay"
  }

  /** One recorded entry: issued under its own name and the next number, or passed over. */
  lemma OneIsIssued(world: World, remap: Remap, r: Replay, record: Record)
    requires ReplayOne(world, remap, r, record).Some?
    ensures var after := ReplayOne(world, remap, r, record).value;
      var issued := if record.op.Register? || record.op.AskRoot? then [] else [Reissued(remap, record.op)];
      && OpsOf(after.session.ledger) == OpsOf(r.session.ledger) + issued
      && after.session.issued == r.session.issued + |issued|
      && (issued != [] ==>
            after.session.ledger[|r.session.ledger|].cid == ReplayName(record.op) + "-" + Decimal(after.session.issued))
      && (after.failed == r.failed || (after.failed == r.failed + [record.cid] && record.op.RunTask?))
  {
  }
}
