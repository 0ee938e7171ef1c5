/**
 Packet flow over bounded connections: run_flow moves one packet along every
 connection in a topological schedule and computes the recursive meaning.
 */
module Flow {
  import opened Wrappers
  import opened Names
  import opened Ports

  /** A bounded FIFO buffer; neither end ever blocks. */
  class BoundedConnection {
    const source: string
    const sourcePort: string
    const target: string
    const targetPort: string
    const capacity: nat
    var buffer: seq<Value>
    ghost var sent: nat

    constructor (e: Edge)
      requires 1 <= e.capacity <= MAX_CONNECTION_CAPACITY
      ensures source == e.source && sourcePort == e.sourceField && target == e.target && targetPort == e.targetArg
      ensures capacity == e.capacity && buffer == [] && sent == 0
    {
      source, sourcePort, target, targetPort, capacity := e.source, e.sourceField, e.target, e.targetArg, e.capacity;
      buffer := [];
      sent := 0;
    }

    /** False stands for the back-pressure error: a full buffer is left as it was. */
    method Send(value: Value) returns (ok: bool)
      modifies this
      ensures ok <==> |old(buffer)| < capacity
      ensures buffer == if ok then old(buffer) + [value] else old(buffer)
      ensures sent == if ok then old(sent) + 1 else old(sent)
    {
      ok := |buffer| < capacity;
      if ok {
        buffer := buffer + [value];
        sent := sent + 1;
      }
    }

    /** None stands for the deadlock error: an empty buffer has no packet. */
    method Receive() returns (value: Option<Value>)
      modifies this`buffer
      ensures value.None? <==> old(buffer) == []
      ensures value.Some? ==> value.value == old(buffer)[0] && buffer == old(buffer)[1..]
      ensures value.None? ==> buffer == old(buffer)
    {
      if buffer == [] {
        return None;
      }
      value := Some(buffer[0]);
      buffer := buffer[1..];
    }
  }

  type Wires = seq<BoundedConnection>

  // ----- stable sorting by port name -----

  ghost function WithKey(key: BoundedConnection -> string, wires: Wires, port: string): Wires {
    if wires == [] then []
    else
      var rest := WithKey(key, wires[1..], port);
      if key(wires[0]) == port then [wires[0]] + rest else rest
  }

  function InsertByKey(key: BoundedConnection -> string, c: BoundedConnection, wires: Wires): (r: Wires)
    ensures multiset(r) == multiset(wires) + multiset{c}
    ensures forall port :: WithKey(key, r, port) == WithKey(key, [c] + wires, port)
  {
    assert ([c] + wires)[1..] == wires;
    if wires == [] || !Less(key(wires[0]), key(c)) then [c] + wires
    else
      var rest := InsertByKey(key, c, wires[1..]);
      assert wires == [wires[0]] + wires[1..];
      assert ([wires[0]] + rest)[1..] == rest;
      assert ([c] + wires[1..])[1..] == wires[1..];
      LessIrreflexive(key(c));
      [wires[0]] + rest
  }

  /** sorted(wires, key=...): stable, so wires into the same port keep their order. */
  function SortByKey(key: BoundedConnection -> string, wires: Wires): (r: Wires)
    ensures multiset(r) == multiset(wires)
    ensures forall port :: WithKey(key, r, port) == WithKey(key, wires, port)
  {
    if wires == [] then []
    else
      var rest := SortByKey(key, wires[1..]);
      assert wires == [wires[0]] + wires[1..];
      assert ([wires[0]] + rest)[1..] == rest;
      InsertByKey(key, wires[0], rest)
  }

  // ----- overriding arguments by packets -----

  ghost predicate Covers(packet: map<BoundedConnection, Value>, wires: Wires) {
    forall i :: 0 <= i < |wires| ==> wires[i] in packet
  }

  ghost function Overlay(
      args: map<string, Value>, wires: Wires, packet: map<BoundedConnection, Value>): map<string, Value>
    requires Covers(packet, wires)
  {
    if wires == [] then args
    else
      var n := |wires| - 1;
      Overlay(args, wires[..n], packet)[wires[n].targetPort := packet[wires[n]]]
  }

  const TargetPort: BoundedConnection -> string := (c: BoundedConnection) => c.targetPort
  const SourcePort: BoundedConnection -> string := (c: BoundedConnection) => c.sourcePort

  lemma {:induction false} WithKeyAppend(key: BoundedConnection -> string, a: Wires, b: Wires, port: string)
    ensures WithKey(key, a + b, port) == WithKey(key, a, port) + WithKey(key, b, port)
  {
    if a == [] {
      assert a + b == b;
    } else {
      assert (a + b)[1..] == a[1..] + b;
      WithKeyAppend(key, a[1..], b, port);
    }
  }

  lemma {:induction false} WithKeyMembers(
      key: BoundedConnection -> string, wires: Wires, port: string, c: BoundedConnection)
    ensures c in WithKey(key, wires, port) <==> c in wires && key(c) == port
  {
    if wires != [] { WithKeyMembers(key, wires[1..], port, c); }
  }

  /** After an overlay a port holds the packet of the last wire into it, if there is one. */
  lemma {:induction false} OverlayAtPort(
      args: map<string, Value>, wires: Wires, packet: map<BoundedConnection, Value>, port: string)
    requires Covers(packet, wires)
    ensures forall c :: c in WithKey(TargetPort, wires, port) ==> c in packet
    ensures var last := WithKey(TargetPort, wires, port);
      if last == [] then port in Overlay(args, wires, packet) <==> port in args
      else port in Overlay(args, wires, packet)
    ensures var last := WithKey(TargetPort, wires, port);
      port in Overlay(args, wires, packet) ==>
      Overlay(args, wires, packet)[port] == if last == [] then args[port] else packet[last[|last| - 1]]
    decreases |wires|
  {
    forall c
      ensures c in WithKey(TargetPort, wires, port) <==> c in wires && c.targetPort == port
    {
      WithKeyMembers(TargetPort, wires, port, c);
    }
    if wires != [] {
      var n := |wires| - 1;
      OverlayAtPort(args, wires[..n], packet, port);
      WithKeyAppend(TargetPort, wires[..n], [wires[n]], port);
      assert wires == wires[..n] + [wires[n]];
      assert [wires[n]][1..] == [];
    }
  }

  lemma SortKeepsMembers(key: BoundedConnection -> string, wires: Wires)
    ensures forall c :: c in SortByKey(key, wires) ==> c in wires
    ensures forall c :: c in wires ==> c in SortByKey(key, wires)
  {
    assert forall c :: c in SortByKey(key, wires) ==> c in multiset(wires);
    assert forall c :: c in wires ==> c in multiset(SortByKey(key, wires));
  }

  lemma SameWithKeySameOverlay(args: map<string, Value>, a: Wires, b: Wires, packet: map<BoundedConnection, Value>)
    requires Covers(packet, a)
    requires Covers(packet, b)
    requires forall port :: WithKey(TargetPort, a, port) == WithKey(TargetPort, b, port)
    ensures Overlay(args, a, packet) == Overlay(args, b, packet)
  {
    var x, y := Overlay(args, a, packet), Overlay(args, b, packet);
    forall port
      ensures port in x <==> port in y
      ensures port in x && port in y ==> x[port] == y[port]
    {
      OverlayAtPort(args, a, packet, port);
      OverlayAtPort(args, b, packet, port);
    }
    assert x.Keys == y.Keys;
  }

  /** A stable sort by port changes no argument. */
  lemma SortedOverlay(args: map<string, Value>, wires: Wires, packet: map<BoundedConnection, Value>)
    requires Covers(packet, wires)
    ensures Covers(packet, SortByKey(TargetPort, wires))
    ensures Overlay(args, SortByKey(TargetPort, wires), packet) == Overlay(args, wires, packet)
  {
    var sorted := SortByKey(TargetPort, wires);
    SortKeepsMembers(TargetPort, wires);
    forall i | 0 <= i < |sorted|
      ensures sorted[i] in packet
    {
      assert sorted[i] in multiset(sorted);
      assert sorted[i] in wires;
    }
    SameWithKeySameOverlay(args, SortByKey(TargetPort, wires), wires, packet);
  }

  lemma {:induction false} SortKeepsWires(key: BoundedConnection -> string, wires: Wires)
    requires Distinct(wires)
    ensures Distinct(SortByKey(key, wires))
    ensures forall c :: c in SortByKey(key, wires) ==> c in wires
    ensures forall c :: c in wires ==> c in SortByKey(key, wires)
  {
    SortKeepsMembers(key, wires);
    SameMultisetDistinct(SortByKey(key, wires), wires);
  }

  lemma SameMultisetDistinct(a: Wires, b: Wires)
    requires multiset(a) == multiset(b) && Distinct(b)
    ensures Distinct(a)
  {
    forall i, j | 0 <= i < j < |a|
      ensures a[i] != a[j]
    {
      if a[i] == a[j] {
        assert a == a[..j] + [a[j]] + a[j + 1..];
        assert a[i] in a[..j];
        OnceInDistinct(b, a[i]);
      }
    }
  }

  lemma {:induction false} OnceInDistinct(s: Wires, c: BoundedConnection)
    requires Distinct(s)
    ensures multiset(s)[c] <= 1
  {
    if s != [] {
      assert s == [s[0]] + s[1..];
      OnceInDistinct(s[1..], c);
      if c == s[0] { assert c !in s[1..]; }
    }
  }

  // ----- moving packets -----

  /** Receive one packet from every wire into the arguments; None stands for the deadlock outcome. */
  method ReceiveAll(wires: Wires, args: map<string, Value>, ghost packet: map<BoundedConnection, Value>)
    returns (result: Option<map<string, Value>>)
    requires Distinct(wires)
    requires Covers(packet, wires)
    requires forall i :: 0 <= i < |wires| && wires[i].buffer != [] ==> wires[i].buffer == [packet[wires[i]]]
    modifies set c | c in wires :: c`buffer
    ensures result.None? <==> exists c :: c in wires && old(c.buffer) == []
    ensures result.Some? ==> result.value == Overlay(args, wires, packet)
    ensures result.Some? ==> forall c :: c in wires ==> c.buffer == []
  {
    var filled := args;
    for i := 0 to |wires|
      invariant forall j :: 0 <= j < i ==> old(wires[j].buffer) != [] && wires[j].buffer == []
      invariant forall j :: i <= j < |wires| ==> wires[j].buffer == old(wires[j].buffer)
      invariant filled == Overlay(args, wires[..i], packet)
    {
      assert wires[i] in wires;
      var value := wires[i].Receive();
      if value.None? {
        return None;
      }
      assert old(wires[i].buffer) == [packet[wires[i]]];
      assert wires[..i + 1][..i] == wires[..i];
      filled := filled[wires[i].targetPort := value.value];
    }
    assert wires[..|wires|] == wires;
    return Some(filled);
  }

  /** Send what each wire's edge delivers of a value; true stands for an extraction or type error. */
  method SendAll(net: Net, wires: Wires, value: Value) returns (failed: bool)
    requires Distinct(wires)
    requires forall c :: c in wires ==> c.buffer == [] && 1 <= c.capacity
    requires forall c :: c in wires ==> c.source in net.components && c.target in net.components
    modifies set c | c in wires
    ensures failed <==> exists c :: c in wires && Delivered(net, c, value).None?
    ensures !failed ==> forall c :: c in wires ==>
      Delivered(net, c, value).Some? && c.buffer == [Delivered(net, c, value).value] && c.sent == old(c.sent) + 1
  {
    for i := 0 to |wires|
      invariant forall j :: 0 <= j < i ==>
        Delivered(net, wires[j], value).Some? && wires[j].buffer == [Delivered(net, wires[j], value).value]
      invariant forall j :: 0 <= j < i ==> wires[j].sent == old(wires[j].sent) + 1
      invariant forall j :: i <= j < |wires| ==> wires[j].buffer == [] && wires[j].sent == old(wires[j].sent)
    {
      var c := wires[i];
      assert c in wires;
      var packet := Delivered(net, c, value);
      if packet.None? {
        return true;
      }
      var ok := c.Send(packet.value);
      if !ok {
        assert false;
      }
    }
    return false;
  }

  /** What a wire's edge delivers of its source's value. */
  function Delivered(net: Net, c: BoundedConnection, value: Value): Option<Value>
    requires c.source in net.components && c.target in net.components
  {
    Deliver(net.components[c.source], c.sourcePort, net.components[c.target], c.targetPort, value)
  }

  // ----- wiring -----

  ghost predicate WiredAs(c: BoundedConnection, e: Edge) {
    c.source == e.source && c.sourcePort == e.sourceField && c.target == e.target && c.targetPort == e.targetArg
  }

  ghost predicate Wired(net: Net, wires: Wires) {
    && |wires| == |net.edges| && Distinct(wires)
    && forall i :: 0 <= i < |wires| ==> WiredAs(wires[i], net.edges[i]) && 1 <= wires[i].capacity
  }

  method Connect(net: Net) returns (wires: Wires)
    requires ValidNet(net)
    ensures Wired(net, wires)
    ensures fresh(wires) && forall c :: c in wires ==> c.buffer == [] && c.sent == 0
  {
    wires := [];
    for i := 0 to |net.edges|
      invariant |wires| == i && Distinct(wires)
      invariant forall j :: 0 <= j < i ==> WiredAs(wires[j], net.edges[j]) && 1 <= wires[j].capacity
      invariant fresh(wires) && forall c :: c in wires ==> c.buffer == [] && c.sent == 0
    {
      assert net.edges[i] in net.edges && ValidEdge(net, net.edges[i]);
      var c := new BoundedConnection(net.edges[i]);
      wires := wires + [c];
    }
  }

  /** The wires into a component, in edge order. */
  function Into(wires: Wires, id: string): Wires {
    if wires == [] then []
    else
      var n := |wires| - 1;
      Into(wires[..n], id) + if wires[n].target == id then [wires[n]] else []
  }

  /** The wires out of a component, in edge order. */
  function OutOf(wires: Wires, id: string): Wires {
    if wires == [] then []
    else
      var n := |wires| - 1;
      OutOf(wires[..n], id) + if wires[n].source == id then [wires[n]] else []
  }

  lemma {:induction false} IntoMembers(wires: Wires, id: string)
    ensures forall c :: c in Into(wires, id) ==> c in wires && c.target == id
    ensures forall c :: c in wires && c.target == id ==> c in Into(wires, id)
    ensures Distinct(wires) ==> Distinct(Into(wires, id))
  {
    if wires != [] {
      var n := |wires| - 1;
      IntoMembers(wires[..n], id);
      assert wires == wires[..n] + [wires[n]];
    }
  }

  lemma {:induction false} OutOfMembers(wires: Wires, id: string)
    ensures forall c :: c in OutOf(wires, id) ==> c in wires && c.source == id
    ensures forall c :: c in wires && c.source == id ==> c in OutOf(wires, id)
    ensures Distinct(wires) ==> Distinct(OutOf(wires, id))
  {
    if wires != [] {
      var n := |wires| - 1;
      OutOfMembers(wires[..n], id);
      assert wires == wires[..n] + [wires[n]];
    }
  }

  lemma IntoGrows(wires: Wires, i: nat, id: string)
    requires i < |wires|
    ensures Into(wires[..i + 1], id) == Into(wires[..i], id) + if wires[i].target == id then [wires[i]] else []
  {
    assert wires[..i + 1][..i] == wires[..i];
  }

  lemma OutOfGrows(wires: Wires, i: nat, id: string)
    requires i < |wires|
    ensures OutOf(wires[..i + 1], id) == OutOf(wires[..i], id) + if wires[i].source == id then [wires[i]] else []
  {
    assert wires[..i + 1][..i] == wires[..i];
  }

  /** setdefault(target, []).append(connection), and the same by source. */
  method Index(wires: Wires, ids: set<string>) returns (incoming: map<string, Wires>, outgoing: map<string, Wires>)
    requires forall c :: c in wires ==> c.source in ids && c.target in ids
    ensures incoming.Keys == ids == outgoing.Keys
    ensures forall id :: id in ids ==> incoming[id] == Into(wires, id) && outgoing[id] == OutOf(wires, id)
  {
    incoming := map id | id in ids :: [];
    outgoing := map id | id in ids :: [];
    for i := 0 to |wires|
      invariant incoming.Keys == ids == outgoing.Keys
      invariant forall id :: id in ids ==> incoming[id] == Into(wires[..i], id) && outgoing[id] == OutOf(wires[..i], id)
    {
      var c := wires[i];
      assert c in wires;
      forall id
        ensures Into(wires[..i + 1], id) == Into(wires[..i], id) + if c.target == id then [c] else []
        ensures OutOf(wires[..i + 1], id) == OutOf(wires[..i], id) + if c.source == id then [c] else []
      {
        IntoGrows(wires, i, id);
        OutOfGrows(wires, i, id);
      }
      incoming := incoming[c.target := incoming[c.target] + [c]];
      outgoing := outgoing[c.source := outgoing[c.source] + [c]];
    }
    assert wires[..|wires|] == wires;
  }

  // ----- packets and the recursive meaning -----

  /** What an edge carries in the recursive meaning. */
  ghost function Carried(net: Net, driver: Driver, e: Edge): Option<Value>
    requires ValidNet(net) && e in net.edges
  {
    SourceHasFewerAncestors(net, e);
    match Eval(net, driver, e.source)
    case None => None
    case Some(value) => Deliver(net.components[e.source], e.sourceField, net.components[e.target], e.targetArg, value)
  }

  ghost predicate Fed(net: Net, driver: Driver, id: string, k: nat)
    requires ValidNet(net) && k <= |net.edges|
  {
    forall i :: 0 <= i < k && net.edges[i].target == id ==> Carried(net, driver, net.edges[i]).Some?
  }

  /** The packet on every wire that carries one. */
  ghost predicate Packets(net: Net, driver: Driver, wires: Wires, packet: map<BoundedConnection, Value>)
    requires ValidNet(net) && Wired(net, wires)
  {
    forall i :: 0 <= i < |wires| && Carried(net, driver, net.edges[i]).Some? ==>
      wires[i] in packet && packet[wires[i]] == Carried(net, driver, net.edges[i]).value
  }

  lemma InputsStep(net: Net, driver: Driver, id: string, k: nat)
    requires ValidNet(net) && 0 < k <= |net.edges| && Inputs(net, driver, id, k - 1).Some?
    ensures var e := net.edges[k - 1];
      if e.target != id then Inputs(net, driver, id, k) == Inputs(net, driver, id, k - 1)
      else if Carried(net, driver, e).None? then Inputs(net, driver, id, k).None?
      else
        var before := Inputs(net, driver, id, k - 1).value;
        Inputs(net, driver, id, k) == Some(before[e.targetArg := Carried(net, driver, e).value])
  {
  }

  lemma OverlayStep(args: map<string, Value>, front: Wires, c: BoundedConnection, packet: map<BoundedConnection, Value>)
    requires Covers(packet, front) && c in packet
    ensures Covers(packet, front + [c])
    ensures Overlay(args, front + [c], packet) == Overlay(args, front, packet)[c.targetPort := packet[c]]
  {
    assert (front + [c])[..|front|] == front;
  }

  /** Overlaying the packets of the wires into a component gives its inputs. */
  lemma {:induction false} InputsAreOverlay(
      net: Net, driver: Driver, wires: Wires, packet: map<BoundedConnection, Value>, id: string, k: nat,
      args: map<string, Value>)
    requires ValidNet(net) && Wired(net, wires) && Packets(net, driver, wires, packet)
    requires k <= |net.edges| && Fed(net, driver, id, k)
    ensures Covers(packet, Into(wires[..k], id))
    ensures Inputs(net, driver, id, k).Some?
    ensures Overlay(args, Into(wires[..k], id), packet) == args + Inputs(net, driver, id, k).value
  {
    if k > 0 {
      InputsAreOverlay(net, driver, wires, packet, id, k - 1, args);
      InputsStep(net, driver, id, k);
      IntoGrows(wires, k - 1, id);
      if net.edges[k - 1].target == id {
        EdgeIsWired(net, driver, wires, packet, id, k);
        OverlayInput(args, Into(wires[..k - 1], id), wires[k - 1], packet, Inputs(net, driver, id, k - 1).value);
      } else {
        EdgeIsElsewhere(net, wires, id, k);
      }
    }
  }

  /** An edge into the component: its wire carries its packet. */
  lemma EdgeIsWired(
      net: Net, driver: Driver, wires: Wires, packet: map<BoundedConnection, Value>, id: string, k: nat)
    requires ValidNet(net) && Wired(net, wires) && Packets(net, driver, wires, packet)
    requires 0 < k <= |net.edges| && Fed(net, driver, id, k) && net.edges[k - 1].target == id
    ensures wires[k - 1].target == id && wires[k - 1].targetPort == net.edges[k - 1].targetArg
    ensures Carried(net, driver, net.edges[k - 1]).Some? && wires[k - 1] in packet
    ensures packet[wires[k - 1]] == Carried(net, driver, net.edges[k - 1]).value
  {
    assert WiredAs(wires[k - 1], net.edges[k - 1]);
  }

  lemma EdgeIsElsewhere(net: Net, wires: Wires, id: string, k: nat)
    requires Wired(net, wires) && 0 < k <= |net.edges| && net.edges[k - 1].target != id
    ensures Into(wires[..k], id) == Into(wires[..k - 1], id)
  {
    assert WiredAs(wires[k - 1], net.edges[k - 1]);
    IntoGrows(wires, k - 1, id);
  }

  lemma OverlayInput(
      args: map<string, Value>, front: Wires, c: BoundedConnection, packet: map<BoundedConnection, Value>,
      inputs: map<string, Value>)
    requires Covers(packet, front) && c in packet && Overlay(args, front, packet) == args + inputs
    ensures Covers(packet, front + [c])
    ensures Overlay(args, front + [c], packet) == args + inputs[c.targetPort := packet[c]]
  {
    OverlayStep(args, front, c, packet);
  }

  /** An edge that carries nothing leaves its target without a meaning. */
  lemma {:induction false} BlockedInputs(net: Net, driver: Driver, i: nat, k: nat)
    requires ValidNet(net) && i < k <= |net.edges| && Carried(net, driver, net.edges[i]).None?
    ensures Inputs(net, driver, net.edges[i].target, k).None?
  {
    if k > i + 1 { BlockedInputs(net, driver, i, k - 1); }
  }

  lemma BlockedTarget(net: Net, driver: Driver, i: nat)
    requires ValidNet(net) && i < |net.edges| && Carried(net, driver, net.edges[i]).None?
    ensures net.edges[i].target in net.components && Eval(net, driver, net.edges[i].target).None?
  {
    SourceHasFewerAncestors(net, net.edges[i]);
    BlockedInputs(net, driver, i, |net.edges|);
  }
}
