/** run_flow: validation, port mode, and the scheduled run that refines the recursive meaning. */
module Schedule {
  import opened Wrappers
  import opened Names
  import opened Digraph
  import opened Ports
  import opened Flow

  /** Why a run failed. An empty in-port or a full buffer is not among the reasons: see RunComponent. */
  datatype Failure =
    | InvalidNetwork | BadStepLimit | TooManyComponents | UndeclaredPort
    | TaskRaised(id: string) | Unverified(id: string) | OutputRejected(id: string)

  /** What the driver replies to a component that got all its inputs. */
  ghost function ReplyAt(net: Net, driver: Driver, id: string): Reply
    requires ValidNet(net) && id in net.components && Inputs(net, driver, id, |net.edges|).Some?
  {
    var c := net.components[id];
    driver(c.task, c.args + IipsFor(net.iips, id) + Inputs(net, driver, id, |net.edges|).value, c.verifier, c.child)
  }

  /**
   The component got all its inputs, and on them its own task raised, or went unverified, or
   gave an output that one of its edges does not carry.
   */
  ghost predicate FailsAt(net: Net, driver: Driver, failure: Failure, id: string)
    requires ValidNet(net)
  {
    && id in net.components && Inputs(net, driver, id, |net.edges|).Some?
    && var reply := ReplyAt(net, driver, id);
      match failure
      case TaskRaised(at) => at == id && reply.Raised?
      case Unverified(at) => at == id && reply.Responded? && !reply.verified
      case OutputRejected(at) => at == id && reply.Responded? && reply.verified && CarriesTooLittle(net, driver, id)
      case _ => false
  }

  /** What a failed component adds to the results: nothing if it raised, else its own failed result. */
  ghost predicate FailedResults(
      net: Net, driver: Driver, failure: Failure, id: string, results: seq<StepResult>, results': seq<StepResult>)
    requires ValidNet(net) && FailsAt(net, driver, failure, id)
  {
    results' == results + if failure.TaskRaised? then [] else
      [StepResult(|results|, id, net.components[id].task, failure.OutputRejected?, ReplyAt(net, driver, id).value)]
  }

  ghost predicate CarriesTooLittle(net: Net, driver: Driver, id: string)
    requires ValidNet(net)
  {
    exists e :: e in net.edges && e.source == id && Carried(net, driver, e).None?
  }

  datatype StepResult = StepResult(step: nat, id: string, task: string, verified: bool, value: Value)

  datatype FlowResult = FlowResult(failure: Option<Failure>, results: seq<StepResult>, completed: nat)

  /** Before and after each component: a packet waits on exactly the wires from done to not done. */
  ghost predicate BufferAt(net: Net, driver: Driver, wires: Wires, i: nat, done: set<string>)
    requires ValidNet(net) && Wired(net, wires) && i < |wires|
    reads wires
  {
    WireState(net, driver, i, done, wires[i].buffer, wires[i].sent)
  }

  ghost predicate WireState(net: Net, driver: Driver, i: nat, done: set<string>, buffer: seq<Value>, sent: nat)
    requires ValidNet(net) && i < |net.edges|
  {
    var e := net.edges[i];
    if e.source in done then
      && Carried(net, driver, e).Some? && sent == 1
      && buffer == if e.target in done then [] else [Carried(net, driver, e).value]
    else
      buffer == [] && sent == 0
  }

  ghost predicate Buffered(net: Net, driver: Driver, wires: Wires, done: set<string>)
    requires ValidNet(net) && Wired(net, wires)
    reads wires
  {
    && (forall id :: id in done ==> id in net.components && Eval(net, driver, id).Some?)
    && forall i {:trigger BufferAt(net, driver, wires, i, done)} :: 0 <= i < |wires| ==>
      BufferAt(net, driver, wires, i, done)
  }

  /** A component whose sources are done and whose targets are not. */
  ghost predicate Next(net: Net, done: set<string>, id: string) {
    && id in net.components && id !in done
    && forall e :: e in net.edges ==> (e.target == id ==> e.source in done) && (e.source == id ==> e.target !in done)
  }

  ghost function PacketOf(net: Net, driver: Driver, c: BoundedConnection): Option<Value>
    requires ValidNet(net)
  {
    if c.source in net.components && c.target in net.components && Eval(net, driver, c.source).Some?
    then Delivered(net, c, Eval(net, driver, c.source).value)
    else None
  }

  ghost function AllPackets(net: Net, driver: Driver, wires: Wires): (packet: map<BoundedConnection, Value>)
    requires ValidNet(net) && Wired(net, wires)
  {
    map c | c in wires && PacketOf(net, driver, c).Some? :: PacketOf(net, driver, c).value
  }

  lemma PacketIsCarried(net: Net, driver: Driver, wires: Wires, i: nat)
    requires ValidNet(net) && Wired(net, wires) && i < |wires|
    ensures PacketOf(net, driver, wires[i]) == Carried(net, driver, net.edges[i])
  {
    assert WiredAs(wires[i], net.edges[i]);
    assert net.edges[i] in net.edges && ValidEdge(net, net.edges[i]);
  }

  lemma AllPacketsArePackets(net: Net, driver: Driver, wires: Wires)
    requires ValidNet(net) && Wired(net, wires)
    ensures Packets(net, driver, wires, AllPackets(net, driver, wires))
  {
    forall i | 0 <= i < |wires| && Carried(net, driver, net.edges[i]).Some?
      ensures wires[i] in AllPackets(net, driver, wires)
        && AllPackets(net, driver, wires)[wires[i]] == Carried(net, driver, net.edges[i]).value
    {
      PacketIsCarried(net, driver, wires, i);
    }
  }

  /** The wires into the next component each hold exactly their packet. */
  lemma IntoIsReady(net: Net, driver: Driver, wires: Wires, done: set<string>, id: string)
    requires ValidNet(net) && Wired(net, wires) && Buffered(net, driver, wires, done) && Next(net, done, id)
    ensures Fed(net, driver, id, |net.edges|)
    ensures forall c :: c in wires && c.target == id ==>
      c in AllPackets(net, driver, wires) && c.buffer == [AllPackets(net, driver, wires)[c]]
  {
    forall i | 0 <= i < |wires| && net.edges[i].target == id
      ensures Carried(net, driver, net.edges[i]).Some?
      ensures wires[i] in AllPackets(net, driver, wires)
        && wires[i].buffer == [AllPackets(net, driver, wires)[wires[i]]]
    {
      assert net.edges[i] in net.edges;
      assert BufferAt(net, driver, wires, i, done);
      PacketIsCarried(net, driver, wires, i);
    }
    forall c | c in wires && c.target == id
      ensures c in AllPackets(net, driver, wires) && c.buffer == [AllPackets(net, driver, wires)[c]]
    {
      var i :| 0 <= i < |wires| && wires[i] == c;
      assert WiredAs(wires[i], net.edges[i]);
    }
  }

  /** The wires in the order they are received from, their packets, and what these make of the template. */
  lemma SortedIntoIsReady(
      net: Net, driver: Driver, wires: Wires, id: string, done: set<string>, template: map<string, Value>)
    requires ValidNet(net) && Wired(net, wires) && Buffered(net, driver, wires, done) && Next(net, done, id)
    ensures var sorted := SortByKey(TargetPort, Into(wires, id));
      && Distinct(sorted) && (forall c :: c in sorted <==> c in Into(wires, id))
      && Covers(AllPackets(net, driver, wires), sorted)
      && (forall i :: 0 <= i < |sorted| ==> sorted[i].buffer == [AllPackets(net, driver, wires)[sorted[i]]])
      && Inputs(net, driver, id, |net.edges|).Some?
      && Overlay(template, sorted, AllPackets(net, driver, wires))
        == template + Inputs(net, driver, id, |net.edges|).value
  {
    var packet := AllPackets(net, driver, wires);
    var into := Into(wires, id);
    AllPacketsArePackets(net, driver, wires);
    IntoIsReady(net, driver, wires, done, id);
    IntoMembers(wires, id);
    assert wires[..|wires|] == wires;
    InputsAreOverlay(net, driver, wires, packet, id, |net.edges|, template);
    SortKeepsWires(TargetPort, into);
    SortedOverlay(template, into, packet);
    var sorted := SortByKey(TargetPort, into);
    forall i | 0 <= i < |sorted|
      ensures sorted[i].buffer == [packet[sorted[i]]]
    {
      assert sorted[i] in sorted;
    }
  }

  /** Gathering the arguments of the next component never finds an empty in-port. */
  method Gather(net: Net, ghost driver: Driver, wires: Wires, into: Wires, id: string, ghost done: set<string>)
    returns (args: map<string, Value>)
    requires ValidNet(net) && Wired(net, wires) && Buffered(net, driver, wires, done) && Next(net, done, id)
    requires into == Into(wires, id)
    modifies set c | c in into :: c`buffer
    ensures Inputs(net, driver, id, |net.edges|).Some?
    ensures args == net.components[id].args + IipsFor(net.iips, id) + Inputs(net, driver, id, |net.edges|).value
    ensures forall c :: c in into ==> c.buffer == []
  {
    var template := net.components[id].args + IipsFor(net.iips, id);
    SortedIntoIsReady(net, driver, wires, id, done, template);
    var sorted := SortByKey(TargetPort, into);
    var received := ReceiveAll(sorted, template, AllPackets(net, driver, wires));
    if received.None? {
      assert false;
    }
    args := received.value;
  }

  /** The next component's own wires are empty, so sending on them never meets a full buffer. */
  lemma OutIsEmpty(net: Net, driver: Driver, wires: Wires, done: set<string>, id: string)
    requires ValidNet(net) && Wired(net, wires) && Buffered(net, driver, wires, done) && Next(net, done, id)
    ensures forall c :: c in OutOf(wires, id) ==>
      c in wires && c.buffer == [] && c.sent == 0 && 1 <= c.capacity && c.target != id
    ensures forall c :: c in OutOf(wires, id) ==> c.source in net.components && c.target in net.components
  {
    OutOfMembers(wires, id);
    forall c | c in OutOf(wires, id)
      ensures c in wires && c.buffer == [] && c.sent == 0 && 1 <= c.capacity && c.target != id
      ensures c.source in net.components && c.target in net.components
    {
      assert c in wires;
      var i :| 0 <= i < |wires| && wires[i] == c;
      assert WiredAs(wires[i], net.edges[i]);
      assert net.edges[i] in net.edges && ValidEdge(net, net.edges[i]);
      assert BufferAt(net, driver, wires, i, done);
    }
  }

  lemma RejectedOutputBlocks(net: Net, driver: Driver, wires: Wires, id: string, value: Value)
    requires ValidNet(net) && Wired(net, wires) && id in net.components
    requires Eval(net, driver, id) == Some(value)
    requires exists c :: c in OutOf(wires, id) && PacketOf(net, driver, c).None?
    ensures exists other :: other in net.components && Eval(net, driver, other).None?
    ensures CarriesTooLittle(net, driver, id)
  {
    OutOfMembers(wires, id);
    var c :| c in OutOf(wires, id) && PacketOf(net, driver, c).None?;
    var i :| 0 <= i < |wires| && wires[i] == c;
    PacketIsCarried(net, driver, wires, i);
    BlockedTarget(net, driver, i);
    assert WiredAs(wires[i], net.edges[i]) && net.edges[i] in net.edges;
  }

  /** One wire after a component has received, run and sent. */
  lemma WireAdvances(
      net: Net, driver: Driver, wires: Wires, done: set<string>, id: string, i: nat, buffer: seq<Value>, sent: nat)
    requires ValidNet(net) && Wired(net, wires) && i < |wires|
    requires Next(net, done, id) && WireState(net, driver, i, done, buffer, sent)
    requires wires[i].target == id ==> wires[i].buffer == [] && wires[i].sent == sent
    requires wires[i].source == id ==>
      PacketOf(net, driver, wires[i]).Some? && wires[i].buffer == [PacketOf(net, driver, wires[i]).value]
        && wires[i].sent == sent + 1
    requires wires[i].source != id && wires[i].target != id ==> wires[i].buffer == buffer && wires[i].sent == sent
    ensures BufferAt(net, driver, wires, i, done + {id})
  {
    assert WiredAs(wires[i], net.edges[i]);
    assert net.edges[i] in net.edges && ValidEdge(net, net.edges[i]);
    PacketIsCarried(net, driver, wires, i);
  }

  /** Gather the next component's arguments and run its task: its meaning, or the task's own failure. */
  method Attempt(net: Net, driver: Driver, wires: Wires, into: Wires, id: string, ghost done: set<string>)
    returns (failure: Option<Failure>, value: Option<Value>)
    requires ValidNet(net) && Wired(net, wires) && Buffered(net, driver, wires, done) && Next(net, done, id)
    requires into == Into(wires, id)
    modifies set c | c in into :: c`buffer
    ensures forall c :: c in into ==> c.buffer == []
    ensures failure.None? ==> value.Some? && Eval(net, driver, id) == value
    ensures failure.Some? ==> FailsAt(net, driver, failure.value, id) && Eval(net, driver, id).None?
    ensures failure.Some? ==> !failure.value.OutputRejected?
    ensures failure.Some? ==>
      value == if failure.value.TaskRaised? then None else Some(ReplyAt(net, driver, id).value)
  {
    var component := net.components[id];
    var args := Gather(net, driver, wires, into, id, done);
    var reply := driver(component.task, args, component.verifier, component.child);
    if reply.Raised? {
      return Some(TaskRaised(id)), None;
    }
    return if reply.verified then None else Some(Unverified(id)), Some(reply.value);
  }

  /**
   One component: gather its arguments, run its task, send its outputs. It fails only
   where the recursive meaning does, never on an empty in-port or a full buffer.
   */
  method RunComponent(
      net: Net, driver: Driver, wires: Wires, into: Wires, out: Wires, id: string, ghost done: set<string>)
    returns (failure: Option<Failure>, value: Option<Value>)
    requires ValidNet(net) && Wired(net, wires) && Buffered(net, driver, wires, done) && Next(net, done, id)
    requires into == Into(wires, id) && out == OutOf(wires, id)
    modifies wires
    ensures failure.None? ==> Eval(net, driver, id).Some? && value == Eval(net, driver, id)
    ensures failure.None? ==> Buffered(net, driver, wires, done + {id})
    ensures failure.Some? ==> exists other :: other in net.components && Eval(net, driver, other).None?
    ensures failure.Some? ==> FailsAt(net, driver, failure.value, id)
    ensures failure.Some? ==>
      value == if failure.value.TaskRaised? then None else Some(ReplyAt(net, driver, id).value)
  {
    IntoMembers(wires, id);
    OutOfMembers(wires, id);
    OutIsEmpty(net, driver, wires, done, id);
    ghost var buffers := seq(|wires|, i requires 0 <= i < |wires| reads wires => wires[i].buffer);
    ghost var counts := seq(|wires|, i requires 0 <= i < |wires| reads wires => wires[i].sent);
    forall i | 0 <= i < |wires|
      ensures WireState(net, driver, i, done, buffers[i], counts[i])
    {
      assert BufferAt(net, driver, wires, i, done);
    }
    failure, value := Attempt(net, driver, wires, into, id, done);
    if failure.Some? {
      return;
    }
    var failed := Send(net, driver, wires, out, id, value.value, done);
    if failed {
      return Some(OutputRejected(id)), value;
    }
    forall i | 0 <= i < |wires|
      ensures BufferAt(net, driver, wires, i, done + {id})
    {
      assert wires[i] in wires;
      WireAdvances(net, driver, wires, done, id, i, buffers[i], counts[i]);
    }
  }

  method Send(
      net: Net, ghost driver: Driver, wires: Wires, out: Wires, id: string, value: Value, ghost done: set<string>)
    returns (failed: bool)
    requires ValidNet(net) && Wired(net, wires) && id in net.components && Eval(net, driver, id) == Some(value)
    requires out == OutOf(wires, id)
    requires forall c :: c in out ==> c.buffer == [] && 1 <= c.capacity
    requires forall c :: c in out ==> c.source in net.components && c.target in net.components
    modifies set c | c in out
    ensures failed ==> exists other :: other in net.components && Eval(net, driver, other).None?
    ensures failed ==> CarriesTooLittle(net, driver, id)
    ensures !failed ==> forall c :: c in out ==>
      PacketOf(net, driver, c).Some? && c.buffer == [PacketOf(net, driver, c).value] && c.sent == old(c.sent) + 1
  {
    OutOfMembers(wires, id);
    SortKeepsWires(SourcePort, out);
    var sorted := SortByKey(SourcePort, out);
    failed := SendAll(net, sorted, value);
    assert forall c :: c in out ==> PacketOf(net, driver, c) == Delivered(net, c, value);
    if failed {
      RejectedOutputBlocks(net, driver, wires, id, value);
    }
  }

  lemma NextInOrder(net: Net, order: seq<string>, i: nat)
    requires ValidNet(net) && Topological(NetEdges(net), net.components.Keys, order) && i < |order|
    ensures Next(net, Elements(order[..i]), order[i])
  {
    var id := order[i];
    assert id in Elements(order);
    forall e | e in net.edges
      ensures e.target == id ==> e.source in order[..i]
      ensures e.source == id ==> e.target !in order[..i]
    {
      assert (e.source, e.target) in NetEdges(net);
      assert Before(order, e.source, e.target);
      var a, b :| 0 <= a < b < |order| && order[a] == e.source && order[b] == e.target;
      if e.target == id {
        DistinctIndex(order, b, i);
        assert order[..i][a] == e.source;
      }
      if e.source == id {
        DistinctIndex(order, a, i);
        assert e.target !in order[..i] by { LaterIsNotListed(order, i, b); }
      }
    }
  }

  lemma LaterIsNotListed(order: seq<string>, i: nat, b: nat)
    requires Distinct(order) && i < b < |order|
    ensures order[b] !in order[..i]
  {
  }

  ghost predicate Meaningful(net: Net, driver: Driver)
    requires ValidNet(net)
  {
    forall id :: id in net.components ==> Eval(net, driver, id).Some?
  }

  /** The results of a run so far: the meaning of each component, in schedule order. */
  ghost predicate ResultsAre(net: Net, driver: Driver, order: seq<string>, results: seq<StepResult>)
    requires ValidNet(net)
  {
    && |results| <= |order|
    && forall i :: 0 <= i < |results| ==>
      && order[i] in net.components
      && Eval(net, driver, order[i]).Some?
      && results[i] == StepResult(i, order[i], net.components[order[i]].task, true, Eval(net, driver, order[i]).value)
  }

  lemma ResultsGrow(net: Net, driver: Driver, order: seq<string>, results: seq<StepResult>, r: StepResult)
    requires ValidNet(net) && ResultsAre(net, driver, order, results) && |results| < |order|
    requires order[|results|] in net.components && Eval(net, driver, order[|results|]).Some?
    requires r == StepResult(|results|, order[|results|], net.components[order[|results|]].task, true,
      Eval(net, driver, order[|results|]).value)
    ensures ResultsAre(net, driver, order, results + [r])
  {
  }

  /** The schedule's turn at one position. */
  method RunTurn(net: Net, driver: Driver, order: seq<string>, wires: Wires,
      incoming: map<string, Wires>, outgoing: map<string, Wires>, idx: nat, results: seq<StepResult>)
    returns (failure: Option<Failure>, results': seq<StepResult>)
    requires ValidNet(net) && Topological(NetEdges(net), net.components.Keys, order) && Wired(net, wires)
    requires incoming.Keys == net.components.Keys == outgoing.Keys
    requires forall id :: id in net.components ==> incoming[id] == Into(wires, id) && outgoing[id] == OutOf(wires, id)
    requires idx < |order| && Buffered(net, driver, wires, Elements(order[..idx]))
    requires |results| == idx && ResultsAre(net, driver, order, results)
    modifies wires
    ensures failure.None? ==> Buffered(net, driver, wires, Elements(order[..idx + 1]))
    ensures failure.None? ==> |results'| == idx + 1 && ResultsAre(net, driver, order, results')
    ensures failure.Some? ==> !Meaningful(net, driver) && FailsAt(net, driver, failure.value, order[idx])
    ensures failure.Some? ==> FailedResults(net, driver, failure.value, order[idx], results, results')
  {
    var cid := order[idx];
    NextInOrder(net, order, idx);
    ElementsAppend(order, idx);
    var value;
    failure, value := RunComponent(net, driver, wires, incoming[cid], outgoing[cid], cid, Elements(order[..idx]));
    results' := results;
    if value.Some? {
      var verified := failure.None? || !failure.value.Unverified?;
      var r := StepResult(idx, cid, net.components[cid].task, verified, value.value);
      if failure.None? {
        ResultsGrow(net, driver, order, results, r);
      }
      results' := results + [r];
    }
  }

  /** The run stopped at the first component that failed, with the meanings of those before it. */
  ghost predicate Stopped(net: Net, driver: Driver, order: seq<string>, result: FlowResult)
    requires ValidNet(net) && result.failure.Some?
  {
    && result.completed < |order| && FailsAt(net, driver, result.failure.value, order[result.completed])
    && result.completed <= |result.results|
    && var before := result.results[..result.completed];
      && ResultsAre(net, driver, order, before)
      && FailedResults(net, driver, result.failure.value, order[result.completed], before, result.results)
  }

  /**
   The scheduled run. Under every topological schedule it succeeds exactly when every
   component has a meaning, its results are the meanings, every connection has carried
   exactly one packet, and every buffer is empty.
   */
  method RunSchedule(net: Net, driver: Driver, order: seq<string>, wires: Wires) returns (result: FlowResult)
    requires ValidNet(net) && Topological(NetEdges(net), net.components.Keys, order)
    requires Wired(net, wires) && forall c :: c in wires ==> c.buffer == [] && c.sent == 0
    modifies wires
    ensures result.failure.None? <==> Meaningful(net, driver)
    ensures result.failure.None? ==>
      |result.results| == |order| == result.completed && ResultsAre(net, driver, order, result.results)
    ensures result.failure.None? ==> forall c :: c in wires ==> c.buffer == [] && c.sent == 1
    ensures result.failure.Some? ==> Stopped(net, driver, order, result)
  {
    EndsAreComponents(net, wires);
    var incoming, outgoing := Index(wires, net.components.Keys);
    var results: seq<StepResult> := [];
    assert Buffered(net, driver, wires, Elements(order[..0])) by {
      forall i | 0 <= i < |wires|
        ensures BufferAt(net, driver, wires, i, Elements(order[..0]))
      {
        assert wires[i] in wires;
      }
    }
    for idx := 0 to |order|
      invariant Buffered(net, driver, wires, Elements(order[..idx]))
      invariant |results| == idx && ResultsAre(net, driver, order, results)
    {
      var failure, results' := RunTurn(net, driver, order, wires, incoming, outgoing, idx, results);
      if failure.Some? {
        assert results'[..idx] == results;
        return FlowResult(failure, results', idx);
      }
      results := results';
    }
    assert order[..|order|] == order;
    AllDelivered(net, driver, wires, order);
    return FlowResult(None, results, |results|);
  }

  lemma EndsAreComponents(net: Net, wires: Wires)
    requires ValidNet(net) && Wired(net, wires)
    ensures forall c :: c in wires ==> c.source in net.components && c.target in net.components
  {
    forall c | c in wires
      ensures c.source in net.components && c.target in net.components
    {
      var i :| 0 <= i < |wires| && wires[i] == c;
      assert WiredAs(c, net.edges[i]) && net.edges[i] in net.edges && ValidEdge(net, net.edges[i]);
    }
  }

  lemma AllDelivered(net: Net, driver: Driver, wires: Wires, order: seq<string>)
    requires ValidNet(net) && Wired(net, wires)
    requires Elements(order) == net.components.Keys && Buffered(net, driver, wires, Elements(order))
    ensures Meaningful(net, driver)
    ensures forall c :: c in wires ==> c.buffer == [] && c.sent == 1
  {
    forall c | c in wires
      ensures c.buffer == [] && c.sent == 1
    {
      var i :| 0 <= i < |wires| && wires[i] == c;
      assert BufferAt(net, driver, wires, i, Elements(order));
      assert net.edges[i] in net.edges && ValidEdge(net, net.edges[i]);
    }
  }

  /** Two topological schedules of one network give every component the same value. */
  lemma ScheduleDoesNotMatter(
      net: Net, driver: Driver, order: seq<string>, results: seq<StepResult>,
      order': seq<string>, results': seq<StepResult>, i: nat)
    requires ValidNet(net)
    requires Topological(NetEdges(net), net.components.Keys, order)
      && Topological(NetEdges(net), net.components.Keys, order')
    requires |results| == |order| && ResultsAre(net, driver, order, results)
    requires |results'| == |order'| && ResultsAre(net, driver, order', results')
    requires i < |results|
    ensures exists j :: 0 <= j < |results'| && results'[j].id == results[i].id && results'[j].value == results[i].value
  {
    assert order[i] in Elements(order);
    var j :| 0 <= j < |order'| && order'[j] == order[i];
    assert results'[j].id == results[i].id;
  }
}
