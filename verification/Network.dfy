/** The component network as it is built up, validated, ordered and run. */
module Network {
  import opened Wrappers
  import opened Names
  import opened Digraph
  import opened Kahn
  import opened Ports
  import opened Flow
  import opened Schedule
  import opened FlowLaws

  ghost predicate UniqueNonEmpty(names: seq<string>) {
    Distinct(names) && "" !in names
  }

  ghost predicate TypesDeclared(types: map<string, string>, declared: seq<string>) {
    forall name :: name in types ==> name != "" && name in declared && IsKnownType(types[name])
  }

  /** What add_component accepts. */
  ghost predicate AcceptableComponent(c: Component) {
    && c.id != "" && '.' !in c.id
    && UniqueNonEmpty(c.inPorts) && UniqueNonEmpty(c.outPorts)
    && TypesDeclared(c.inTypes, c.inPorts) && TypesDeclared(c.outTypes, c.outPorts)
  }

  ghost predicate RepeatsOrOmitsAName(names: seq<string>) {
    "" in names || exists i, j :: 0 <= i < j < |names| && names[i] == names[j]
  }

  /** A port that is not declared, or a type that no value has. */
  ghost predicate TypesNothing(types: map<string, string>, declared: seq<string>) {
    exists name :: name in types
      && (name == "" || name !in declared || forall v :: !MatchesType(v, types[name]))
  }

  /** What add_component refuses. */
  ghost predicate Malformed(c: Component) {
    || c.id == "" || '.' in c.id
    || RepeatsOrOmitsAName(c.inPorts) || RepeatsOrOmitsAName(c.outPorts)
    || TypesNothing(c.inTypes, c.inPorts) || TypesNothing(c.outTypes, c.outPorts)
  }

  lemma AcceptableExactly(c: Component)
    ensures AcceptableComponent(c) <==> !Malformed(c)
  {
    TypesExactly(c.inTypes, c.inPorts);
    TypesExactly(c.outTypes, c.outPorts);
  }

  lemma TypesExactly(types: map<string, string>, declared: seq<string>)
    ensures TypesDeclared(types, declared) <==> !TypesNothing(types, declared)
  {
    forall name | name in types
      ensures IsKnownType(types[name]) <==> exists v :: MatchesType(v, types[name])
    {
      CompatibleExactly(types[name], types[name]);
    }
  }

  method CheckNames(names: seq<string>) returns (ok: bool)
    ensures ok <==> UniqueNonEmpty(names)
  {
    var seen: set<string> := {};
    for i := 0 to |names|
      invariant UniqueNonEmpty(names[..i]) && seen == Elements(names[..i])
    {
      ElementsAppend(names, i);
      if names[i] == "" || names[i] in seen {
        assert names[i] == "" || names[i] in names[..i];
        return false;
      }
      seen := seen + {names[i]};
    }
    assert names[..|names|] == names;
    return true;
  }

  method CheckTypes(types: map<string, string>, declared: seq<string>) returns (ok: bool)
    ensures ok <==> TypesDeclared(types, declared)
  {
    var left := types.Keys;
    while left != {}
      invariant left <= types.Keys
      invariant forall name :: name in types && name !in left ==>
        name != "" && name in declared && IsKnownType(types[name])
      decreases left
    {
      var name :| name in left;
      if name == "" || name !in declared || !IsKnownType(types[name]) {
        return false;
      }
      left := left - {name};
    }
    return true;
  }

  method KeysOf(components: map<string, Component>) returns (ids: seq<string>)
    ensures Distinct(ids) && Elements(ids) == components.Keys
  {
    ids := [];
    var left := components.Keys;
    while left != {}
      invariant Distinct(ids) && Elements(ids) + left == components.Keys && Elements(ids) !! left
      decreases left
    {
      var id :| id in left;
      ghost var before := ids;
      ids := ids + [id];
      assert Elements(ids) == Elements(before) + {id};
      left := left - {id};
    }
  }

  function ArcList(edges: seq<Edge>): EdgeList {
    seq(|edges|, i requires 0 <= i < |edges| => (edges[i].source, edges[i].target))
  }

  lemma ArcsAreNetEdges(net: Net)
    ensures EdgeSet(ArcList(net.edges)) == NetEdges(net)
  {
    forall e | e in NetEdges(net)
      ensures e in EdgeSet(ArcList(net.edges))
    {
      var x :| x in net.edges && e == (x.source, x.target);
      var i :| 0 <= i < |net.edges| && net.edges[i] == x;
      assert ArcList(net.edges)[i] == e;
    }
  }

  ghost function PresetPorts(iips: seq<Iip>): set<(string, string)> {
    set iip | iip in iips :: (iip.component, iip.port)
  }

  lemma PresetOneMore(iips: seq<Iip>, n: nat)
    requires n < |iips|
    ensures var preset, port := PresetPorts(iips[..n]), (iips[n].component, iips[n].port);
      && PresetPorts(iips[..n + 1]) == preset + {port}
      && (port in preset ==> !UniqueIips(iips))
      && (port !in preset && UniqueIips(iips[..n]) ==> UniqueIips(iips[..n + 1]))
  {
    assert iips[..n + 1] == iips[..n] + [iips[n]];
    if (iips[n].component, iips[n].port) in PresetPorts(iips[..n]) {
      var other :| 0 <= other < n && (iips[other].component, iips[other].port) == (iips[n].component, iips[n].port);
    }
  }

  /** A growing network: components by id, edges and initial packets in insertion order. */
  class ComponentNetwork {
    var components: map<string, Component>
    var edges: seq<Edge>
    var iips: seq<Iip>

    ghost function Graph(): Net
      reads this
    {
      Net(components, edges, iips)
    }

    /** Every component is filed under its own id and was acceptable when it was added. */
    ghost predicate Valid()
      reads this
    {
      forall id :: id in components ==> components[id].id == id && AcceptableComponent(components[id])
    }

    /** A result is of an acceptable component, filed under the id it reports and run as it was declared. */
    ghost predicate RanAcceptable(result: StepResult)
      reads this
    {
      && result.id in components && components[result.id].id == result.id
      && AcceptableComponent(components[result.id]) && components[result.id].task == result.task
    }

    constructor ()
      ensures Valid() && Graph() == Net(map[], [], [])
    {
      components, edges, iips := map[], [], [];
    }

    /** Add or replace a component; a malformed one is refused and changes nothing. */
    method AddComponent(c: Component) returns (ok: bool)
      requires Valid()
      modifies this`components
      ensures Valid() && ok == AcceptableComponent(c) && (ok <==> !Malformed(c))
      ensures components == if ok then old(components)[c.id := c] else old(components)
    {
      var inNames := CheckNames(c.inPorts);
      var outNames := CheckNames(c.outPorts);
      var inTypes := CheckTypes(c.inTypes, c.inPorts);
      var outTypes := CheckTypes(c.outTypes, c.outPorts);
      AcceptableExactly(c);
      ok := c.id != "" && '.' !in c.id && inNames && outNames && inTypes && outTypes;
      if ok {
        components := components[c.id := c];
      }
    }

    method AddEdge(e: Edge)
      modifies this`edges
      ensures edges == old(edges) + [e]
    {
      edges := edges + [e];
    }

    method AddIip(iip: Iip)
      modifies this`iips
      ensures iips == old(iips) + [iip]
    {
      iips := iips + [iip];
    }

    method CheckEdges() returns (ok: bool)
      ensures ok <==> forall e :: e in edges ==> ValidEdge(Graph(), e)
    {
      for i := 0 to |edges|
        invariant forall j :: 0 <= j < i ==> ValidEdge(Graph(), edges[j])
      {
        var e := edges[i];
        if '.' in e.source || '.' in e.target
          || e.source !in components || e.target !in components
          || e.source == e.target
          || !(1 <= e.capacity <= MAX_CONNECTION_CAPACITY)
        {
          assert !ValidEdge(Graph(), edges[i]);
          return false;
        }
        var source, target := components[e.source], components[e.target];
        if (source.outPorts != [] && e.sourceField !in source.outPorts)
          || (target.inPorts != [] && e.targetArg !in target.inPorts)
          || !TypesCompatible(TypeOf(source.outTypes, e.sourceField), TypeOf(target.inTypes, e.targetArg))
        {
          assert !ValidEdge(Graph(), edges[i]);
          return false;
        }
      }
      return true;
    }

    method CheckIips() returns (ok: bool, seen: set<(string, string)>)
      ensures ok <==> (forall iip :: iip in iips ==> ValidIip(Graph(), iip)) && UniqueIips(iips)
      ensures ok ==> seen == PresetPorts(iips)
    {
      seen := {};
      for i := 0 to |iips|
        invariant forall j :: 0 <= j < i ==> ValidIip(Graph(), iips[j])
        invariant UniqueIips(iips[..i])
        invariant seen == PresetPorts(iips[..i])
      {
        var iip := iips[i];
        assert iip in iips;
        PresetOneMore(iips, i);
        if iip.component !in components || iip.port == "" {
          return false, seen;
        }
        if (iip.component, iip.port) in seen {
          return false, seen;
        }
        seen := seen + {(iip.component, iip.port)};
        var c := components[iip.component];
        if iip.port !in c.inPorts || !MatchesType(iip.value, TypeOf(c.inTypes, iip.port)) {
          return false, seen;
        }
      }
      assert iips[..|iips|] == iips;
      return true, seen;
    }

    method CheckConflicts(seen: set<(string, string)>) returns (ok: bool)
      ensures ok <==> forall e :: e in edges ==> (e.target, e.targetArg) !in seen
    {
      for i := 0 to |edges|
        invariant forall j :: 0 <= j < i ==> (edges[j].target, edges[j].targetArg) !in seen
      {
        if (edges[i].target, edges[i].targetArg) in seen {
          assert edges[i] in edges;
          return false;
        }
      }
      return true;
    }

    method CheckStreams() returns (ok: bool)
      ensures ok <==> forall id :: id in components ==> ValidStreams(components[id])
    {
      var left := components.Keys;
      while left != {}
        invariant left <= components.Keys
        invariant forall id :: id in components && id !in left ==> ValidStreams(components[id])
        decreases left
      {
        var id :| id in left;
        if exists port :: port in components[id].stream && port !in components[id].outPorts {
          return false;
        }
        left := left - {id};
      }
      return true;
    }

    /** validate, for networks without nested subnets. */
    method Validate() returns (ok: bool)
      ensures ok <==> ValidNet(Graph())
      ensures ok <==> !Defective(Graph())
    {
      DefectsExactly(Graph());
      ok := CheckEdges();
      if !ok {
        return;
      }
      var seen;
      ok, seen := CheckIips();
      if !ok {
        return;
      }
      ok := CheckConflicts(seen);
      assert ok <==> forall e, iip :: e in edges && iip in iips ==>
        (e.target, e.targetArg) != (iip.component, iip.port);
      if !ok {
        return;
      }
      ok := CheckStreams();
      if !ok {
        return;
      }
      var ids := KeysOf(components);
      ArcsAreNetEdges(Graph());
      assert Closed(NetEdges(Graph()), components.Keys) by {
        forall u, v | (u, v) in NetEdges(Graph())
          ensures u in components && v in components
        {
          var e :| e in edges && (u, v) == (e.source, e.target);
          assert ValidEdge(Graph(), e);
        }
      }
      ok := AcceptsAcyclic(ids, ArcList(edges));
    }

    /** topological_order: refused on an invalid network, otherwise the least order. */
    method TopologicalOrder() returns (order: Option<seq<string>>)
      ensures order.Some? <==> ValidNet(Graph())
      ensures order.Some? ==> order.value == LeastOrder(NetEdges(Graph()), components.Keys)
      ensures order.Some? ==> Topological(NetEdges(Graph()), components.Keys, order.value)
    {
      var ok := Validate();
      if !ok {
        return None;
      }
      var ids := KeysOf(components);
      ArcsAreNetEdges(Graph());
      ValidNetIsClosed(Graph());
      var sorted := SortedListOrder(ids, ArcList(edges));
      LeastOrderExactly(NetEdges(Graph()), components.Keys);
      return Some(sorted);
    }

    method CheckPorts() returns (ok: bool)
      requires ValidNet(Graph())
      ensures ok <==> PortMode(Graph())
    {
      for i := 0 to |edges|
        invariant forall j :: 0 <= j < i ==> ValidEdge(Graph(), edges[j]) && PortEdge(Graph(), edges[j])
      {
        var e := edges[i];
        assert e in edges && ValidEdge(Graph(), e);
        if e.sourceField !in components[e.source].outPorts || e.targetArg !in components[e.target].inPorts {
          return false;
        }
      }
      return true;
    }

    /**
     run_flow. A run succeeds exactly on a valid network in port mode, within the step limit,
     in which every component has a meaning, which is when the network has a flow; its results
     are then the meanings in the least topological order, and the values of the only flow.
     Any other run is refused for the first reason there is, or stops at the first component
     that fails, with the results of those before it.
     */
    method RunFlow(driver: Driver, stepLimit: Option<int>) returns (result: FlowResult)
      ensures result.failure.None? <==> Refusal(stepLimit).None? && Meaningful(Graph(), driver)
      ensures result.failure.None? <==>
        Refusal(stepLimit).None? && exists vals :: IsFlow(Graph(), driver, vals)
      ensures result.failure.None? ==>
        && |result.results| == |components| == result.completed
        && ResultsAre(Graph(), driver, LeastOrder(NetEdges(Graph()), components.Keys), result.results)
        && ResultsFlow(Graph(), driver, result.results)
      ensures Refusal(stepLimit).Some? ==> result == FlowResult(Refusal(stepLimit), [], 0)
      ensures Refusal(stepLimit).None? && result.failure.Some? ==>
        Stopped(Graph(), driver, LeastOrder(NetEdges(Graph()), components.Keys), result)
      ensures Valid() && result.failure.None? ==>
        forall i :: 0 <= i < |result.results| ==> RanAcceptable(result.results[i])
    {
      var order := TopologicalOrder();
      if order.None? {
        return FlowResult(Some(InvalidNetwork), [], 0);
      }
      var limit := if stepLimit.Some? then stepLimit.value else DEFAULT_STEP_LIMIT;
      if limit <= 0 {
        return FlowResult(Some(BadStepLimit), [], 0);
      }
      DistinctCardinality(order.value);
      assert |components| == |components.Keys| == |order.value|;
      if |order.value| > limit {
        return FlowResult(Some(TooManyComponents), [], 0);
      }
      var ports := CheckPorts();
      if !ports {
        return FlowResult(Some(UndeclaredPort), [], 0);
      }
      var net := Net(components, edges, iips);
      var wires := Connect(net);
      result := RunSchedule(net, driver, order.value, wires);
      ResultsAreTheFlow(net, driver, order.value, result);
    }

    /** Why a run is refused before anything runs; 512 components when no limit is given. */
    ghost function Refusal(stepLimit: Option<int>): Option<Failure>
      reads this
    {
      var limit := if stepLimit.Some? then stepLimit.value else 512;
      if !ValidNet(Graph()) then Some(InvalidNetwork)
      else if limit <= 0 then Some(BadStepLimit)
      else if |components| > limit then Some(TooManyComponents)
      else if !PortMode(Graph()) then Some(UndeclaredPort)
      else None
    }
  }

  /** Each result's value is what the component has in every flow of the network. */
  ghost predicate ResultsFlow(net: Net, driver: Driver, results: seq<StepResult>)
    requires ValidNet(net)
  {
    forall vals, i :: IsFlow(net, driver, vals) && 0 <= i < |results| ==>
      results[i].id in vals && results[i].verified && results[i].value == vals[results[i].id]
  }

  lemma ResultsAreTheFlow(net: Net, driver: Driver, order: seq<string>, result: FlowResult)
    requires ValidNet(net) && (result.failure.None? <==> Meaningful(net, driver))
    requires result.failure.None? ==> ResultsAre(net, driver, order, result.results)
    ensures result.failure.None? <==> exists vals :: IsFlow(net, driver, vals)
    ensures result.failure.None? ==> ResultsFlow(net, driver, result.results)
  {
    forall vals
      ensures IsFlow(net, driver, vals) <==> Meaningful(net, driver) && vals == Meanings(net, driver)
    {
      FlowExactly(net, driver, vals);
    }
    if Meaningful(net, driver) { assert IsFlow(net, driver, Meanings(net, driver)); }
  }
}
