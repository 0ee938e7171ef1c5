/**
 What a run of a network comes to, said of the values alone: every component ran on its
 template, its initial packets and what crossed the last wire into each port, and every wire
 was crossed. There is at most one such family of values, and it is the recursive meaning.
 */
module FlowLaws {
  import opened Wrappers
  import opened Digraph
  import opened Ports
  import opened Flow
  import opened Schedule

  // ----- what crosses a wire -----

  function TypeName(value: Value): string {
    match value
    case Null => "null"
    case Bool(_) => "bool"
    case Int(_) => "int"
    case Float(_) => "float"
    case Str(_) => "str"
    case List(_) => "list"
    case Dict(_) => "dict"
  }

  /** A value has its own type and "any", and no other; the known types are those of some value. */
  lemma ValuesHaveOneType(value: Value, name: string)
    ensures MatchesType(value, name) <==> name == TypeName(value) || name == "any"
    ensures IsKnownType(name) <==> name == "any" || exists v :: name == TypeName(v)
  {
    var all := [Null, Bool(true), Int(0), Float(0.0), Str(""), List([]), Dict(map[])];
    assert TypeName(all[0]) == "null" && TypeName(all[1]) == "bool" && TypeName(all[2]) == "int"
      && TypeName(all[3]) == "float" && TypeName(all[4]) == "str" && TypeName(all[5]) == "list"
      && TypeName(all[6]) == "dict";
  }

  /** Ports may be connected exactly when some value is of both their types. */
  lemma CompatibleExactly(source: string, target: string)
    ensures TypesCompatible(source, target) <==> exists v :: MatchesType(v, source) && MatchesType(v, target)
  {
    if TypesCompatible(source, target) {
      ValuesHaveOneType(Null, source);
      ValuesHaveOneType(Null, target);
      var name := EffectiveType(source, target);
      if name == "any" {
        assert MatchesType(Null, source) && MatchesType(Null, target);
      } else {
        var v :| name == TypeName(v);
        assert MatchesType(v, source) && MatchesType(v, target);
      }
    }
    if v :| MatchesType(v, source) && MatchesType(v, target) {
      ValuesHaveOneType(v, source);
      ValuesHaveOneType(v, target);
    }
  }

  predicate Declares(types: map<string, string>, port: string, value: Value) {
    port in types ==> MatchesType(value, types[port])
  }

  /**
   The value v crosses the edge: it is the field of the source's mapping that the edge names,
   or all of what is no mapping, from a sole out-port; and it is of both declared types.
   */
  predicate Crosses(net: Net, e: Edge, value: Value, v: Value)
    requires e.source in net.components && e.target in net.components
  {
    && (if value.Dict? then e.sourceField in value.fields && v == value.fields[e.sourceField]
        else |net.components[e.source].outPorts| == 1 && v == value)
    && Declares(net.components[e.source].outTypes, e.sourceField, v)
    && Declares(net.components[e.target].inTypes, e.targetArg, v)
  }

  lemma CrossingIsDelivery(net: Net, e: Edge, value: Value, v: Value)
    requires ValidNet(net) && e in net.edges && ValidEdge(net, e)
    ensures Deliver(net.components[e.source], e.sourceField, net.components[e.target], e.targetArg, value) == Some(v)
      <==> Crosses(net, e, value, v)
  {
    EffectiveTypeIsBoth(v, TypeOf(net.components[e.source].outTypes, e.sourceField),
      TypeOf(net.components[e.target].inTypes, e.targetArg));
    ValuesHaveOneType(v, "any");
  }

  // ----- what a component runs on -----

  /** The edge at k is the last one into the port. */
  ghost predicate LastInto(edges: seq<Edge>, id: string, port: string, k: int) {
    && 0 <= k < |edges| && edges[k].target == id && edges[k].targetArg == port
    && forall j :: k < j < |edges| ==> (edges[j].target, edges[j].targetArg) != (id, port)
  }

  ghost predicate IsWired(edges: seq<Edge>, id: string, port: string) {
    exists e :: e in edges && e.target == id && e.targetArg == port
  }

  ghost predicate HasIip(iips: seq<Iip>, id: string, port: string) {
    exists iip :: iip in iips && iip.component == id && iip.port == port
  }

  /** At every port: what crossed its last wire, else its initial packet, else what the template says. */
  ghost predicate RunsOn(net: Net, vals: map<string, Value>, id: string, args: map<string, Value>)
    requires id in net.components && forall e :: e in net.edges ==>
      e.source in net.components && e.target in net.components && e.source in vals
  {
    && (forall port, k :: LastInto(net.edges, id, port, k) ==>
         port in args && Crosses(net, net.edges[k], vals[net.edges[k].source], args[port]))
    && (forall iip :: iip in net.iips && iip.component == id ==>
         iip.port in args && args[iip.port] == iip.value)
    && (forall port :: !IsWired(net.edges, id, port) && !HasIip(net.iips, id, port) ==>
         (port in args <==> port in net.components[id].args)
         && (port in args ==> args[port] == net.components[id].args[port]))
  }

  lemma {:induction false} LastExists(edges: seq<Edge>, id: string, port: string)
    requires IsWired(edges, id, port)
    ensures exists k :: LastInto(edges, id, port, k)
    decreases |edges|
  {
    var n := |edges| - 1;
    if edges[n].target == id && edges[n].targetArg == port {
      assert LastInto(edges, id, port, n);
    } else {
      var e :| e in edges && e.target == id && e.targetArg == port;
      assert edges == edges[..n] + [edges[n]];
      LastExists(edges[..n], id, port);
      var k :| LastInto(edges[..n], id, port, k);
      assert LastInto(edges, id, port, k);
    }
  }

  lemma RunsOnOneThing(
      net: Net, vals: map<string, Value>, id: string, args: map<string, Value>, args': map<string, Value>)
    requires id in net.components && forall e :: e in net.edges ==>
      e.source in net.components && e.target in net.components && e.source in vals
    requires RunsOn(net, vals, id, args) && RunsOn(net, vals, id, args')
    ensures args == args'
  {
    forall port
      ensures port in args <==> port in args'
      ensures port in args && port in args' ==> args[port] == args'[port]
    {
      if IsWired(net.edges, id, port) {
        LastExists(net.edges, id, port);
        var k :| LastInto(net.edges, id, port, k);
        assert net.edges[k] in net.edges;
      }
    }
    assert args.Keys == args'.Keys;
  }

  // ----- the arguments of the recursive meaning -----

  /** At a port, the inputs hold what the last of the first k edges into it carries, if there is one. */
  ghost predicate HoldAt(
      edges: seq<Edge>, carried: seq<Option<Value>>, k: nat, id: string, port: string, inputs: map<string, Value>)
  {
    && k <= |edges| == |carried| && (port in inputs <==> IsWired(edges[..k], id, port))
    && forall i :: LastInto(edges[..k], id, port, i) ==> port in inputs && carried[i] == Some(inputs[port])
  }

  lemma HoldAtGrows(
      edges: seq<Edge>, carried: seq<Option<Value>>, k: nat, id: string, port: string, before: map<string, Value>,
      after: map<string, Value>)
    requires k < |edges| && HoldAt(edges, carried, k, id, port, before)
    requires if edges[k].target == id
      then carried[k].Some? && after == before[edges[k].targetArg := carried[k].value] else after == before
    ensures HoldAt(edges, carried, k + 1, id, port, after)
  {
    EdgesGrow(edges, id, port, k);
  }

  ghost predicate AreCarried(net: Net, driver: Driver, carried: seq<Option<Value>>)
    requires ValidNet(net)
  {
    |carried| == |net.edges| && forall i :: 0 <= i < |carried| ==> carried[i] == Carried(net, driver, net.edges[i])
  }

  lemma InputsGrow(
      net: Net, driver: Driver, carried: seq<Option<Value>>, id: string, k: nat, before: map<string, Value>)
    returns (inputs: map<string, Value>)
    requires ValidNet(net) && AreCarried(net, driver, carried) && 0 < k <= |net.edges| && Fed(net, driver, id, k)
    requires Inputs(net, driver, id, k - 1) == Some(before)
    ensures Inputs(net, driver, id, k) == Some(inputs)
    ensures if net.edges[k - 1].target == id
      then carried[k - 1].Some? && inputs == before[net.edges[k - 1].targetArg := carried[k - 1].value]
      else inputs == before
  {
    InputsStep(net, driver, id, k);
    inputs := if net.edges[k - 1].target == id then before[net.edges[k - 1].targetArg := carried[k - 1].value]
      else before;
  }

  /** The inputs after one more edge. */
  ghost predicate Steps(
      edges: seq<Edge>, carried: seq<Option<Value>>, id: string, inputs: seq<map<string, Value>>, k: int)
  {
    && 0 <= k < |edges| == |carried| && k + 1 < |inputs|
    && if edges[k].target == id
       then carried[k].Some? && inputs[k + 1] == inputs[k][edges[k].targetArg := carried[k].value]
       else inputs[k + 1] == inputs[k]
  }

  lemma {:induction false} HeldAt(
      edges: seq<Edge>, carried: seq<Option<Value>>, id: string, inputs: seq<map<string, Value>>, k: nat, port: string)
    requires k < |inputs| && k <= |edges| == |carried| && inputs[0] == map[]
    requires forall j :: 0 <= j < k ==> Steps(edges, carried, id, inputs, j)
    ensures HoldAt(edges, carried, k, id, port, inputs[k])
  {
    if k > 0 {
      HeldAt(edges, carried, id, inputs, k - 1, port);
      assert Steps(edges, carried, id, inputs, k - 1);
      HoldAtGrows(edges, carried, k - 1, id, port, inputs[k - 1], inputs[k]);
    }
  }

  lemma {:induction false} InputsStepwise(
      net: Net, driver: Driver, carried: seq<Option<Value>>, id: string, k: nat)
    returns (inputs: seq<map<string, Value>>)
    requires ValidNet(net) && AreCarried(net, driver, carried) && k <= |net.edges| && Fed(net, driver, id, k)
    ensures |inputs| == k + 1 && inputs[0] == map[] && Inputs(net, driver, id, k) == Some(inputs[k])
    ensures forall j :: 0 <= j < k ==> Steps(net.edges, carried, id, inputs, j)
  {
    if k == 0 {
      inputs := [map[]];
    } else {
      var before := InputsStepwise(net, driver, carried, id, k - 1);
      var last := InputsGrow(net, driver, carried, id, k, before[k - 1]);
      inputs := before + [last];
      forall j | 0 <= j < k
        ensures Steps(net.edges, carried, id, inputs, j)
      {
        if j < k - 1 { assert Steps(net.edges, carried, id, before, j); }
      }
    }
  }

  lemma EdgesGrow(edges: seq<Edge>, id: string, port: string, k: nat)
    requires k < |edges|
    ensures var into := edges[k].target == id && edges[k].targetArg == port;
      && (IsWired(edges[..k + 1], id, port) <==> IsWired(edges[..k], id, port) || into)
      && forall i ::
        LastInto(edges[..k + 1], id, port, i) <==> if into then i == k else LastInto(edges[..k], id, port, i)
  {
    assert edges[..k + 1] == edges[..k] + [edges[k]];
    var shorter, longer := edges[..k], edges[..k + 1];
    assert longer[k] == edges[k] && forall j :: 0 <= j < k ==> longer[j] == shorter[j];
    forall i
      ensures LastInto(longer, id, port, i) <==>
        if edges[k].target == id && edges[k].targetArg == port then i == k else LastInto(shorter, id, port, i)
    {
      if LastInto(shorter, id, port, i) { assert (longer[i].target, longer[i].targetArg) == (id, port); }
    }
  }

  /** The initial packets of a component are each at their own port. */
  lemma {:induction false} IipsAtPorts(iips: seq<Iip>, id: string)
    requires UniqueIips(iips)
    ensures forall port :: port in IipsFor(iips, id) <==> HasIip(iips, id, port)
    ensures forall iip :: iip in iips && iip.component == id ==>
      iip.port in IipsFor(iips, id) && IipsFor(iips, id)[iip.port] == iip.value
    decreases |iips|
  {
    if iips != [] {
      var n := |iips| - 1;
      IipsAtPorts(iips[..n], id);
      assert iips == iips[..n] + [iips[n]];
      forall iip | iip in iips[..n] && iip.component == id
        ensures iips[n].component == id ==> iip.port != iips[n].port
      {
        var i :| 0 <= i < n && iips[i] == iip;
      }
    }
  }

  // ----- the flow of a network -----

  /**
   One value for each component, such that each ran on what the others' values make of its
   ports and replied, verified, with its own, and something crosses every edge.
   */
  ghost predicate IsFlow(net: Net, driver: Driver, vals: map<string, Value>)
    requires ValidNet(net)
  {
    && vals.Keys == net.components.Keys
    && (forall e :: e in net.edges ==> ValidEdge(net, e) && exists v :: Crosses(net, e, vals[e.source], v))
    && forall id :: id in net.components ==> RepliesWith(net, driver, vals, id)
  }

  ghost predicate RepliesWith(net: Net, driver: Driver, vals: map<string, Value>, id: string)
    requires ValidNet(net) && vals.Keys == net.components.Keys && id in net.components
  {
    var c := net.components[id];
    EndsAreThere(net);
    exists args :: RunsOn(net, vals, id, args) && driver(c.task, args, c.verifier, c.child) == Responded(true, vals[id])
  }

  lemma EndsAreThere(net: Net)
    requires ValidNet(net)
    ensures forall e :: e in net.edges ==> e.source in net.components && e.target in net.components
  {
    assert forall e :: e in net.edges ==> ValidEdge(net, e);
  }

  /** The sources of a component have their meanings as values, and something crosses each of its edges. */
  ghost predicate SourcesMean(net: Net, driver: Driver, vals: map<string, Value>, id: string)
    requires ValidNet(net)
  {
    forall e :: e in net.edges && e.target == id ==>
      && ValidEdge(net, e) && e.source in vals && Eval(net, driver, e.source) == Some(vals[e.source])
      && Carried(net, driver, e).Some?
  }

  lemma CarriedCrosses(net: Net, driver: Driver, e: Edge, value: Value, v: Value)
    requires ValidNet(net) && e in net.edges && ValidEdge(net, e) && Eval(net, driver, e.source) == Some(value)
    ensures Carried(net, driver, e) == Some(v) <==> Crosses(net, e, value, v)
  {
    CrossingIsDelivery(net, e, value, v);
  }

  /** Inputs that hold at every port what was carried there are what the component runs on. */
  lemma InputsRunOn(
      net: Net, driver: Driver, vals: map<string, Value>, carried: seq<Option<Value>>, id: string,
      inputs: map<string, Value>)
    requires ValidNet(net) && id in net.components && vals.Keys == net.components.Keys
    requires SourcesMean(net, driver, vals, id) && AreCarried(net, driver, carried)
    requires forall port :: HoldAt(net.edges, carried, |net.edges|, id, port, inputs)
    requires forall e :: e in net.edges ==> e.source in net.components && e.target in net.components
    ensures RunsOn(net, vals, id, net.components[id].args + IipsFor(net.iips, id) + inputs)
  {
    assert net.edges[..|net.edges|] == net.edges;
    IipsAtPorts(net.iips, id);
    var args := net.components[id].args + IipsFor(net.iips, id) + inputs;
    forall port, k | LastInto(net.edges, id, port, k)
      ensures port in args && Crosses(net, net.edges[k], vals[net.edges[k].source], args[port])
    {
      var e := net.edges[k];
      assert HoldAt(net.edges, carried, |net.edges|, id, port, inputs);
      assert e in net.edges && IsWired(net.edges, id, port);
      CarriedCrosses(net, driver, e, vals[e.source], args[port]);
    }
    forall iip | iip in net.iips && iip.component == id
      ensures iip.port in args && args[iip.port] == iip.value
    {
      assert HoldAt(net.edges, carried, |net.edges|, id, iip.port, inputs);
      assert !IsWired(net.edges, id, iip.port);
    }
    forall port | !IsWired(net.edges, id, port)
      ensures port !in inputs
    {
      assert HoldAt(net.edges, carried, |net.edges|, id, port, inputs);
    }
  }

  /** The arguments of the recursive meaning are the ones that the component runs on. */
  lemma MeaningRunsOn(net: Net, driver: Driver, vals: map<string, Value>, id: string)
    requires ValidNet(net) && id in net.components && vals.Keys == net.components.Keys
    requires SourcesMean(net, driver, vals, id)
    ensures Inputs(net, driver, id, |net.edges|).Some?
    ensures forall e :: e in net.edges ==> e.source in net.components && e.target in net.components
    ensures RunsOn(net, vals, id,
      net.components[id].args + IipsFor(net.iips, id) + Inputs(net, driver, id, |net.edges|).value)
  {
    EndsAreThere(net);
    var carried := seq(|net.edges|, i requires 0 <= i < |net.edges| => Carried(net, driver, net.edges[i]));
    var inputs := InputsStepwise(net, driver, carried, id, |net.edges|);
    forall port
      ensures HoldAt(net.edges, carried, |net.edges|, id, port, inputs[|net.edges|])
    {
      HeldAt(net.edges, carried, id, inputs, |net.edges|, port);
    }
    InputsRunOn(net, driver, vals, carried, id, inputs[|net.edges|]);
  }

  /** A flow gives every component its meaning. */
  lemma {:induction false} FlowIsMeaning(net: Net, driver: Driver, vals: map<string, Value>, id: string)
    requires ValidNet(net) && IsFlow(net, driver, vals) && id in net.components
    ensures Eval(net, driver, id) == Some(vals[id])
    decreases |Ancestors(NetEdges(net), net.components.Keys, id)|
  {
    EndsAreThere(net);
    forall e | e in net.edges && e.target == id
      ensures ValidEdge(net, e) && Eval(net, driver, e.source) == Some(vals[e.source])
      ensures Carried(net, driver, e).Some?
    {
      SourceHasFewerAncestors(net, e);
      FlowIsMeaning(net, driver, vals, e.source);
      var v :| Crosses(net, e, vals[e.source], v);
      CarriedCrosses(net, driver, e, vals[e.source], v);
    }
    MeaningRunsOn(net, driver, vals, id);
    assert RepliesWith(net, driver, vals, id);
    var c := net.components[id];
    var args :| RunsOn(net, vals, id, args) && driver(c.task, args, c.verifier, c.child) == Responded(true, vals[id]);
    RunsOnOneThing(net, vals, id, args, c.args + IipsFor(net.iips, id) + Inputs(net, driver, id, |net.edges|).value);
  }

  ghost function Meanings(net: Net, driver: Driver): map<string, Value>
    requires ValidNet(net) && Meaningful(net, driver)
  {
    map id | id in net.components :: Eval(net, driver, id).value
  }

  /** When every component has a meaning, the meanings are a flow. */
  lemma MeaningIsFlow(net: Net, driver: Driver)
    requires ValidNet(net) && Meaningful(net, driver)
    ensures IsFlow(net, driver, Meanings(net, driver))
  {
    var vals := Meanings(net, driver);
    EndsAreThere(net);
    forall e | e in net.edges
      ensures ValidEdge(net, e) && Carried(net, driver, e).Some?
      ensures exists v :: Crosses(net, e, vals[e.source], v)
    {
      var i :| 0 <= i < |net.edges| && net.edges[i] == e;
      if Carried(net, driver, e).None? { BlockedTarget(net, driver, i); }
      CarriedCrosses(net, driver, e, vals[e.source], Carried(net, driver, e).value);
    }
    forall id | id in net.components
      ensures RepliesWith(net, driver, vals, id)
    {
      MeaningRunsOn(net, driver, vals, id);
      MeaningReplies(net, driver, vals, id);
    }
  }

  lemma MeaningReplies(net: Net, driver: Driver, vals: map<string, Value>, id: string)
    requires ValidNet(net) && id in net.components && vals.Keys == net.components.Keys
    requires Eval(net, driver, id) == Some(vals[id]) && Inputs(net, driver, id, |net.edges|).Some?
    requires forall e :: e in net.edges ==> e.source in net.components && e.target in net.components
    requires RunsOn(net, vals, id,
      net.components[id].args + IipsFor(net.iips, id) + Inputs(net, driver, id, |net.edges|).value)
    ensures RepliesWith(net, driver, vals, id)
  {
  }

  /** A network has a flow exactly when every component has a meaning, and then just the one. */
  lemma FlowExactly(net: Net, driver: Driver, vals: map<string, Value>)
    requires ValidNet(net)
    ensures IsFlow(net, driver, vals) <==> Meaningful(net, driver) && vals == Meanings(net, driver)
  {
    if IsFlow(net, driver, vals) {
      forall id | id in net.components
        ensures Eval(net, driver, id) == Some(vals[id])
      {
        FlowIsMeaning(net, driver, vals, id);
      }
      assert vals == Meanings(net, driver);
    }
    if Meaningful(net, driver) { MeaningIsFlow(net, driver); }
  }

  // ----- what is wrong with a network -----

  /** The edge is one that validate raises on. */
  ghost predicate BadEdge(net: Net, e: Edge) {
    || '.' in e.source || '.' in e.target || e.source !in net.components || e.target !in net.components
    || e.capacity < 1 || e.capacity > 1024
    || (net.components[e.source].outPorts != [] && e.sourceField !in net.components[e.source].outPorts)
    || (net.components[e.target].inPorts != [] && e.targetArg !in net.components[e.target].inPorts)
    || forall v ::
      !Declares(net.components[e.source].outTypes, e.sourceField, v)
        || !Declares(net.components[e.target].inTypes, e.targetArg, v)
  }

  ghost predicate BadIip(net: Net, iip: Iip) {
    || iip.component !in net.components || iip.port == ""
    || iip.port !in net.components[iip.component].inPorts
    || !Declares(net.components[iip.component].inTypes, iip.port, iip.value)
    || exists e :: e in net.edges && e.target == iip.component && e.targetArg == iip.port
  }

  ghost predicate RepeatsAnIip(net: Net, i: int, j: int) {
    0 <= i < j < |net.iips| && net.iips[i].component == net.iips[j].component && net.iips[i].port == net.iips[j].port
  }

  ghost predicate UndeclaredStream(net: Net, id: string, port: string) {
    id in net.components && port in net.components[id].stream && port !in net.components[id].outPorts
  }

  /** The network has an edge, an initial packet, a stream or a cycle that validate raises on. */
  ghost predicate Defective(net: Net) {
    || (exists e :: e in net.edges && BadEdge(net, e))
    || (exists iip :: iip in net.iips && BadIip(net, iip))
    || (exists i, j :: RepeatsAnIip(net, i, j))
    || (exists id, port :: UndeclaredStream(net, id, port))
    || exists id :: Reaches(NetEdges(net), id, id)
  }

  lemma EdgesAreGoodExactly(net: Net, e: Edge)
    requires e in net.edges
    ensures ValidEdge(net, e) <==> !BadEdge(net, e) && e.source != e.target
  {
    if e.source in net.components && e.target in net.components {
      var from, to := net.components[e.source].outTypes, net.components[e.target].inTypes;
      CompatibleExactly(TypeOf(from, e.sourceField), TypeOf(to, e.targetArg));
      forall v
        ensures Declares(from, e.sourceField, v) <==> MatchesType(v, TypeOf(from, e.sourceField))
        ensures Declares(to, e.targetArg, v) <==> MatchesType(v, TypeOf(to, e.targetArg))
      {
        ValuesHaveOneType(v, "any");
      }
    }
  }

  lemma IipsAreGoodExactly(net: Net, iip: Iip)
    ensures (ValidIip(net, iip) && forall e :: e in net.edges ==> (e.target, e.targetArg) != (iip.component, iip.port))
      <==> !BadIip(net, iip)
  {
    ValuesHaveOneType(iip.value, "any");
  }

  /** A network is valid exactly when it has no defect. */
  lemma DefectsExactly(net: Net)
    ensures ValidNet(net) <==> !Defective(net)
  {
    forall e | e in net.edges
      ensures ValidEdge(net, e) <==> !BadEdge(net, e) && e.source != e.target
      ensures e.source == e.target ==> Reaches(NetEdges(net), e.source, e.source)
    {
      EdgesAreGoodExactly(net, e);
      if e.source == e.target { EdgeReaches(NetEdges(net), e.source, e.target); }
    }
    forall iip | iip in net.iips
      ensures (ValidIip(net, iip)
          && forall e :: e in net.edges ==> (e.target, e.targetArg) != (iip.component, iip.port))
        <==> !BadIip(net, iip)
    {
      IipsAreGoodExactly(net, iip);
    }
    RepeatsExactly(net);
  }

  lemma RepeatsExactly(net: Net)
    ensures UniqueIips(net.iips) <==> !exists i, j :: RepeatsAnIip(net, i, j)
    ensures (forall id :: id in net.components ==> ValidStreams(net.components[id]))
      <==> !exists id, port :: UndeclaredStream(net, id, port)
  {
    if UniqueIips(net.iips) {
      forall i, j
        ensures !RepeatsAnIip(net, i, j)
      {
      }
    } else {
      var i, j :| 0 <= i < j < |net.iips|
        && (net.iips[i].component, net.iips[i].port) == (net.iips[j].component, net.iips[j].port);
      assert RepeatsAnIip(net, i, j);
    }
    if id :| id in net.components && !ValidStreams(net.components[id]) {
      var port :| port in net.components[id].stream && port !in net.components[id].outPorts;
      assert UndeclaredStream(net, id, port);
    }
  }
}
