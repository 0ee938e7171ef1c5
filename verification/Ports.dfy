/**
 Component networks with declared, typed ports: values, components, edges and
 initial packets, what validation demands of them, and the recursive meaning of
 running one.
 */
module Ports {
  import opened Wrappers
  import opened Digraph

  datatype Value =
    | Null | Bool(b: bool) | Int(i: int) | Float(r: real) | Str(s: string)
    | List(items: seq<Value>) | Dict(fields: map<string, Value>)

  const ANY := "any"
  const MAX_CONNECTION_CAPACITY: nat := 1024
  const DEFAULT_STEP_LIMIT: int := 512

  predicate IsKnownType(name: string) {
    name in {"str", "int", "float", "bool", "dict", "list", "null", ANY}
  }

  predicate TypesCompatible(source: string, target: string) {
    IsKnownType(source) && IsKnownType(target) && (source == target || source == ANY || target == ANY)
  }

  predicate MatchesType(value: Value, name: string) {
    match name
    case "str" => value.Str?
    case "int" => value.Int?
    case "float" => value.Float?
    case "bool" => value.Bool?
    case "dict" => value.Dict?
    case "list" => value.List?
    case "null" => value.Null?
    case _ => name == ANY
  }

  function EffectiveType(source: string, target: string): string {
    if source == ANY then target else source
  }

  /** Between compatible ports the one enforced type implies both declared ones, and is implied by them. */
  lemma EffectiveTypeIsBoth(value: Value, source: string, target: string)
    requires TypesCompatible(source, target)
    ensures MatchesType(value, EffectiveType(source, target)) <==>
      MatchesType(value, source) && MatchesType(value, target)
  {
  }

  datatype Component = Component(
    id: string, task: string, args: map<string, Value>, verifier: Option<string>, child: Option<string>,
    inPorts: seq<string>, outPorts: seq<string>, inTypes: map<string, string>, outTypes: map<string, string>,
    stream: seq<string>)

  datatype Edge = Edge(source: string, sourceField: string, target: string, targetArg: string, capacity: int)

  datatype Iip = Iip(component: string, port: string, value: Value)

  datatype Net = Net(components: map<string, Component>, edges: seq<Edge>, iips: seq<Iip>)

  function TypeOf(types: map<string, string>, port: string): string {
    if port in types then types[port] else ANY
  }

  ghost function NetEdges(net: Net): Edges {
    set e | e in net.edges :: (e.source, e.target)
  }

  // ----- what validate demands -----

  ghost predicate ValidEdge(net: Net, e: Edge) {
    && '.' !in e.source && '.' !in e.target
    && e.source in net.components && e.target in net.components && e.source != e.target
    && 1 <= e.capacity <= MAX_CONNECTION_CAPACITY
    && (net.components[e.source].outPorts != [] ==> e.sourceField in net.components[e.source].outPorts)
    && (net.components[e.target].inPorts != [] ==> e.targetArg in net.components[e.target].inPorts)
    && TypesCompatible(
         TypeOf(net.components[e.source].outTypes, e.sourceField),
         TypeOf(net.components[e.target].inTypes, e.targetArg))
  }

  ghost predicate ValidIip(net: Net, iip: Iip) {
    && iip.component in net.components && iip.port != ""
    && iip.port in net.components[iip.component].inPorts
    && MatchesType(iip.value, TypeOf(net.components[iip.component].inTypes, iip.port))
  }

  ghost predicate UniqueIips(iips: seq<Iip>) {
    forall i, j :: 0 <= i < j < |iips| ==> (iips[i].component, iips[i].port) != (iips[j].component, iips[j].port)
  }

  ghost predicate ValidStreams(component: Component) {
    forall port :: port in component.stream ==> port in component.outPorts
  }

  ghost predicate ValidNet(net: Net) {
    && (forall e :: e in net.edges ==> ValidEdge(net, e))
    && (forall iip :: iip in net.iips ==> ValidIip(net, iip))
    && UniqueIips(net.iips)
    && (forall e, iip :: e in net.edges && iip in net.iips ==> (e.target, e.targetArg) != (iip.component, iip.port))
    && (forall id :: id in net.components ==> ValidStreams(net.components[id]))
    && Acyclic(NetEdges(net))
  }

  lemma ValidNetIsClosed(net: Net)
    requires ValidNet(net)
    ensures Closed(NetEdges(net), net.components.Keys)
  {
    forall u, v | (u, v) in NetEdges(net)
      ensures u in net.components && v in net.components
    {
      var e :| e in net.edges && (u, v) == (e.source, e.target);
      assert ValidEdge(net, e);
    }
  }

  /** Port mode: every edge endpoint declares the port it uses. */
  ghost predicate PortEdge(net: Net, e: Edge)
    requires e.source in net.components && e.target in net.components
  {
    e.sourceField in net.components[e.source].outPorts && e.targetArg in net.components[e.target].inPorts
  }

  ghost predicate PortMode(net: Net)
    requires ValidNet(net)
  {
    forall e :: e in net.edges ==> ValidEdge(net, e) && PortEdge(net, e)
  }

  // ----- the recursive meaning -----

  datatype Reply = Raised | Responded(verified: bool, value: Value)

  /** The driver as a deterministic function of task, arguments, verifier and child. */
  type Driver = (string, map<string, Value>, Option<string>, Option<string>) -> Reply

  /** _extract_output: a named field of a mapping, or the whole value of a sole out-port. */
  function ExtractOutput(output: Value, port: string, outPorts: seq<string>): Option<Value> {
    if output.Dict? then (if port in output.fields then Some(output.fields[port]) else None)
    else if |outPorts| == 1 then Some(output)
    else None
  }

  /** What an edge delivers of its source's value: extracted, and of the enforced type. */
  function Deliver(source: Component, field: string, target: Component, arg: string, value: Value): Option<Value> {
    match ExtractOutput(value, field, source.outPorts)
    case None => None
    case Some(v) =>
      if MatchesType(v, EffectiveType(TypeOf(source.outTypes, field), TypeOf(target.inTypes, arg)))
        then Some(v) else None
  }

  function IipsFor(iips: seq<Iip>, id: string): map<string, Value> {
    if iips == [] then map[]
    else
      var n := |iips| - 1;
      var rest := IipsFor(iips[..n], id);
      if iips[n].component == id then rest[iips[n].port := iips[n].value] else rest
  }

  lemma SourceHasFewerAncestors(net: Net, e: Edge)
    requires ValidNet(net) && e in net.edges
    ensures e.source in net.components && e.target in net.components
    ensures |Ancestors(NetEdges(net), net.components.Keys, e.source)|
      < |Ancestors(NetEdges(net), net.components.Keys, e.target)|
  {
    assert ValidEdge(net, e);
    AncestorsShrink(NetEdges(net), net.components.Keys, e.source, e.target);
  }

  /** What the first k edges feed into a component, later edges over earlier ones. */
  ghost function Inputs(net: Net, driver: Driver, id: string, k: nat): Option<map<string, Value>>
    requires ValidNet(net) && k <= |net.edges|
    decreases |Ancestors(NetEdges(net), net.components.Keys, id)|, k
  {
    if k == 0 then Some(map[])
    else
      var e := net.edges[k - 1];
      match Inputs(net, driver, id, k - 1)
      case None => None
      case Some(m) =>
        if e.target != id then Some(m)
        else
          SourceHasFewerAncestors(net, e);
          match Eval(net, driver, e.source)
          case None => None
          case Some(value) =>
            match Deliver(net.components[e.source], e.sourceField, net.components[e.target], e.targetArg, value)
            case None => None
            case Some(v) => Some(m[e.targetArg := v])
  }

  function Outcome(reply: Reply): Option<Value> {
    if reply.Responded? && reply.verified then Some(reply.value) else None
  }

  /**
   The meaning of a component: run its task on its template, overridden by its initial
   packets, overridden by what its sources' meanings deliver.
   */
  ghost function Eval(net: Net, driver: Driver, id: string): Option<Value>
    requires ValidNet(net) && id in net.components
    decreases |Ancestors(NetEdges(net), net.components.Keys, id)|, |net.edges| + 1
  {
    var c := net.components[id];
    match Inputs(net, driver, id, |net.edges|)
    case None => None
    case Some(m) => Outcome(driver(c.task, c.args + IipsFor(net.iips, id) + m, c.verifier, c.child))
  }
}
