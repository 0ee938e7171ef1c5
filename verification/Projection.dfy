/**
 What an n8n projection of a design is: JSON-shaped values on both sides, the grouping of
 edges and initial packets under their target's node, and its inverse.
 Every failure of the adapter is the one adapter error, written None.
 */
module Projection {
  import opened Wrappers
  import P = Ports

  type Value = P.Value

  type Object = map<string, Value>

  // Python's str().
  type Show = Value -> string

  const DESIGN_SCHEMA := "design.v1"
  const PROJECTION := "cbp.n8n.projection/v1"
  const NODE_TYPE := "cbp.component"
  const COMPONENT_REQUIRED: set<string> := {"id", "task"}
  const COMPONENT_OPTIONAL: set<string> := {"args", "verifier", "child", "ports", "port_types", "stream", "external"}

  datatype Requested = Requested(name: string, requested: string)

  datatype EnvelopeGrant = EnvelopeGrant(component: string, bounds: Object)

  datatype Design = Design(
    id: string, network: Object, title: string, components: seq<Requested>, metadata: Object,
    envelopes: seq<EnvelopeGrant>, schema: string)

  ghost predicate IsShow(show: Show) {
    forall s: string :: show(P.Str(s)) == s
  }

  /** What constructing a Design demands. */
  predicate ValidDesign(d: Design) {
    && d.schema == DESIGN_SCHEMA && d.id != ""
    && (forall i :: 0 <= i < |d.components| ==> d.components[i].name != "" && d.components[i].requested != "")
    && (forall i, j :: 0 <= i < j < |d.components| ==> d.components[i].name != d.components[j].name)
    && (forall i :: 0 <= i < |d.envelopes| ==> d.envelopes[i].component != "")
    && forall i, j :: 0 <= i < j < |d.envelopes| ==> d.envelopes[i].component != d.envelopes[j].component
  }

  // ----- objects -----

  function Restrict(m: Object, keys: set<string>): Object {
    map k | k in m && k in keys :: m[k]
  }

  predicate KnownKeys(m: Object, required: set<string>, optional: set<string>) {
    required <= m.Keys <= required + optional
  }

  function Field(m: Object, key: string, default: Value): Value {
    if key in m then m[key] else default
  }

  predicate AllDicts(items: seq<Value>) {
    forall i :: 0 <= i < |items| ==> items[i].Dict?
  }

  function Fields(items: seq<Value>): seq<Object>
    requires AllDicts(items)
  {
    seq(|items|, i requires 0 <= i < |items| => items[i].fields)
  }

  function AsDicts(objects: seq<Object>): seq<Value> {
    seq(|objects|, i requires 0 <= i < |objects| => P.Dict(objects[i]))
  }

  // ----- edges and initial packets, grouped by the component they feed -----

  datatype Kind = Edges | Iips

  type Ordered = (int, Object)

  function Required(kind: Kind): set<string> {
    if kind.Edges? then {"source", "source_field", "target", "target_arg"} else {"component", "port", "value"}
  }

  function Optionals(kind: Kind): set<string> {
    if kind.Edges? then {"capacity"} else {}
  }

  function OwnerKey(kind: Kind): string {
    if kind.Edges? then "target" else "component"
  }

  predicate KnownItem(kind: Kind, item: Object) {
    KnownKeys(item, Required(kind), Optionals(kind)) && (kind.Edges? ==> item["target"].Str?)
  }

  predicate KnownItems(kind: Kind, items: seq<Object>) {
    forall i :: 0 <= i < |items| ==> KnownItem(kind, items[i])
  }

  /** The node an item is filed under; a packet's component is read through str(). */
  function Owner(show: Show, kind: Kind, item: Object): string
    requires KnownItem(kind, item)
  {
    if kind.Edges? then item["target"].s else show(item["component"])
  }

  function Entry(kind: Kind, item: Object, order: int): Value
    requires KnownItem(kind, item)
  {
    if kind.Edges? then
      P.Dict(map["from" := item["source"], "field" := item["source_field"], "arg" := item["target_arg"]]
        + Restrict(item, {"capacity"}) + map["cbp_order" := P.Int(order)])
    else P.Dict(map["port" := item["port"], "value" := item["value"], "cbp_order" := P.Int(order)])
  }

  /** The items filed under an owner, each with its place in the list. */
  function Owned(show: Show, kind: Kind, items: seq<Object>, owner: string): (r: seq<Ordered>)
    requires KnownItems(kind, items)
    ensures forall i :: 0 <= i < |r| ==>
      0 <= r[i].0 < |items| && r[i].1 == items[r[i].0] && Owner(show, kind, r[i].1) == owner
  {
    if items == [] then []
    else
      var n := |items| - 1;
      Owned(show, kind, items[..n], owner) + if Owner(show, kind, items[n]) == owner then [(n, items[n])] else []
  }

  function EntriesFor(show: Show, kind: Kind, items: seq<Object>, owner: string): seq<Value>
    requires KnownItems(kind, items)
  {
    var owned := Owned(show, kind, items, owner);
    seq(|owned|, i requires 0 <= i < |owned| => Entry(kind, owned[i].1, owned[i].0))
  }

  predicate IsOrder(order: Value) {
    order.Int? && order.i >= 0
  }

  function ParseEntry(kind: Kind, name: string, entry: Value, index: nat): (r: Option<Ordered>)
    ensures r.Some? ==> KnownItem(kind, r.value.1) && r.value.1[OwnerKey(kind)] == P.Str(name)
  {
    if !entry.Dict? then None
    else
      var e := entry.fields;
      var order := Field(e, "cbp_order", P.Int(index));
      if kind.Edges? then
        if KnownKeys(e, {"from", "field", "arg"}, {"capacity", "cbp_order"}) && IsOrder(order) then
          var edge := map["source" := e["from"], "source_field" := e["field"], "target" := P.Str(name),
                          "target_arg" := e["arg"]];
          Some((order.i, edge + Restrict(e, {"capacity"})))
        else None
      else if KnownKeys(e, {"port", "value"}, {"cbp_order"}) && IsOrder(order) then
        Some((order.i, map["component" := P.Str(name), "port" := e["port"], "value" := e["value"]]))
      else None
  }

  function ParseEntries(kind: Kind, name: string, entries: seq<Value>): Option<seq<Ordered>> {
    if forall i :: 0 <= i < |entries| ==> ParseEntry(kind, name, entries[i], i).Some? then
      Some(seq(|entries|, i requires 0 <= i < |entries| && ParseEntry(kind, name, entries[i], i).Some? =>
        ParseEntry(kind, name, entries[i], i).value))
    else None
  }

  /** What a Python for-loop over the value yields, when it can only yield dictionaries. */
  function Iterate(value: Value): Option<seq<Value>> {
    match value
    case List(items) => Some(items)
    case Dict(fields) => if fields == map[] then Some([]) else None
    case Str(s) => if s == "" then Some([]) else None
    case _ => None
  }

  // ----- nodes -----

  predicate KnownComponent(c: Object) {
    KnownKeys(c, COMPONENT_REQUIRED, COMPONENT_OPTIONAL)
  }

  function NodeBody(c: Object, inputs: seq<Value>, iips: seq<Value>): Object
    requires KnownComponent(c)
  {
    map["task" := c["task"]] + Restrict(c, COMPONENT_OPTIONAL) + map["inputs" := P.List(inputs), "iips" := P.List(iips)]
  }

  function Node(name: string, index: nat, body: Object): Value {
    P.Dict(map[
      "id" := P.Str("cbp-" + name), "name" := P.Str(name), "type" := P.Str(NODE_TYPE), "typeVersion" := P.Int(1),
      "position" := P.List([P.Int(index % 6 * 220), P.Int(index / 6 * 140)]),
      "parameters" := P.Dict(map["cbp" := P.Dict(body)])])
  }

  datatype NodeParts = NodeParts(name: string, component: Object, edges: seq<Ordered>, iips: seq<Ordered>)

  function Side(kind: Kind, node: NodeParts): seq<Ordered> {
    if kind.Edges? then node.edges else node.iips
  }

  function ParseBody(name: string, body: Object): (r: Option<NodeParts>)
    ensures r.Some? ==> WellFiled(Edges, r.value) && WellFiled(Iips, r.value)
  {
    if !(body.Keys <= {"task", "inputs", "iips"} + COMPONENT_OPTIONAL) || "task" !in body then None
    else
      var component := map["id" := P.Str(name), "task" := body["task"]] + Restrict(body, COMPONENT_OPTIONAL);
      match (Iterate(Field(body, "inputs", P.List([]))), Iterate(Field(body, "iips", P.List([]))))
      case (Some(inputs), Some(iips)) =>
        var edges, packets := ParseEntries(Edges, name, inputs), ParseEntries(Iips, name, iips);
        if edges.Some? && packets.Some? then Some(NodeParts(name, component, edges.value, packets.value)) else None
      case _ => None
  }

  function ParseNode(node: Value): (r: Option<NodeParts>)
    ensures r.Some? ==> WellFiled(Edges, r.value) && WellFiled(Iips, r.value)
  {
    if !node.Dict? || Field(node.fields, "type", P.Null) != P.Str(NODE_TYPE) then None
    else
      var name, parameters := Field(node.fields, "name", P.Null), Field(node.fields, "parameters", P.Null);
      if !name.Str? || name.s == "" || !parameters.Dict? then None
      else
        var body := Field(parameters.fields, "cbp", P.Null);
        if body.Dict? then ParseBody(name.s, body.fields) else None
  }

  predicate DistinctNames(nodes: seq<NodeParts>) {
    forall i, j :: 0 <= i < j < |nodes| ==> nodes[i].name != nodes[j].name
  }

  /** Every node parsed, their names all different. */
  function ParseNodes(nodes: seq<Value>): (r: Option<seq<NodeParts>>)
    ensures r.Some? ==> AllWellFiled(r.value)
  {
    if forall i :: 0 <= i < |nodes| ==> ParseNode(nodes[i]).Some? then
      var parts := seq(|nodes|, i requires 0 <= i < |nodes| && ParseNode(nodes[i]).Some? => ParseNode(nodes[i]).value);
      if DistinctNames(parts) then Some(parts) else None
    else None
  }

  /** Every item of the node is filed under its name. */
  predicate WellFiled(kind: Kind, node: NodeParts) {
    forall i :: 0 <= i < |Side(kind, node)| ==>
      KnownItem(kind, Side(kind, node)[i].1) && Side(kind, node)[i].1[OwnerKey(kind)] == P.Str(node.name)
  }

  predicate AllWellFiled(nodes: seq<NodeParts>) {
    forall i :: 0 <= i < |nodes| ==> WellFiled(Edges, nodes[i]) && WellFiled(Iips, nodes[i])
  }

  function Gathered(kind: Kind, nodes: seq<NodeParts>): (r: seq<Ordered>)
    requires AllWellFiled(nodes)
    ensures forall i :: 0 <= i < |r| ==>
      KnownItem(kind, r[i].1) && Seen(r[i].1[OwnerKey(kind)], nodes)
  {
    if nodes == [] then [] else Gathered(kind, nodes[..|nodes| - 1]) + Side(kind, nodes[|nodes| - 1])
  }

  function ComponentsOf(nodes: seq<NodeParts>): seq<Object> {
    seq(|nodes|, i requires 0 <= i < |nodes| => nodes[i].component)
  }

  // ----- restoring the order -----

  predicate InOrder(s: seq<Ordered>) {
    forall i, j :: 0 <= i < j < |s| ==> s[i].0 <= s[j].0
  }

  function InsertOrdered(x: Ordered, s: seq<Ordered>): (r: seq<Ordered>)
    requires InOrder(s)
    ensures InOrder(r) && multiset(r) == multiset(s) + multiset{x}
  {
    if s == [] || x.0 < s[0].0 then [x] + s
    else
      assert s == [s[0]] + s[1..];
      var rest := InsertOrdered(x, s[1..]);
      FrontInOrder(s[0], x, s[1..], rest);
      [s[0]] + rest
  }

  lemma FrontInOrder(front: Ordered, x: Ordered, s: seq<Ordered>, rest: seq<Ordered>)
    requires InOrder([front] + s) && InOrder(rest) && multiset(rest) == multiset(s) + multiset{x} && front.0 <= x.0
    ensures InOrder([front] + rest)
  {
    forall j | 0 <= j < |rest|
      ensures front.0 <= rest[j].0
    {
      assert ([front] + s)[0] == front && rest[j] in multiset(rest);
      if rest[j] != x {
        assert rest[j] in multiset(s);
        var k :| 0 <= k < |s| && s[k] == rest[j];
        assert ([front] + s)[k + 1] == s[k];
      }
    }
  }

  /** list.sort with the order as key: stable, so later items go after equal ones. */
  function SortOrdered(s: seq<Ordered>): (r: seq<Ordered>)
    ensures InOrder(r) && multiset(r) == multiset(s)
  {
    if s == [] then []
    else
      var n := |s| - 1;
      assert s == s[..n] + [s[n]];
      InsertOrdered(s[n], SortOrdered(s[..n]))
  }

  lemma SortedMembers(s: seq<Ordered>)
    ensures forall i :: 0 <= i < |SortOrdered(s)| ==> exists j :: 0 <= j < |s| && s[j] == SortOrdered(s)[i]
  {
    forall i | 0 <= i < |SortOrdered(s)|
      ensures exists j :: 0 <= j < |s| && s[j] == SortOrdered(s)[i]
    {
      assert SortOrdered(s)[i] in multiset(s);
    }
  }

  /** Sorted, the orders must be 0, 1, 2, and so on. */
  function Arrange(raw: seq<Ordered>): (r: Option<seq<Object>>)
    ensures r.Some? ==> forall i :: 0 <= i < |r.value| ==> exists j :: 0 <= j < |raw| && raw[j].1 == r.value[i]
  {
    var sorted := SortOrdered(raw);
    SortedMembers(raw);
    if forall k :: 0 <= k < |sorted| ==> sorted[k].0 == k then
      Some(seq(|sorted|, i requires 0 <= i < |sorted| => sorted[i].1))
    else None
  }

  // ----- the visual connections -----

  function Hop(target: Value, index: int): Value {
    P.Dict(map["node" := target, "type" := P.Str("main"), "index" := P.Int(index)])
  }

  function HopsFrom(show: Show, edges: seq<Object>, source: string): seq<Value>
    requires KnownItems(Edges, edges)
  {
    if edges == [] then []
    else
      var n := |edges| - 1;
      var before := HopsFrom(show, edges[..n], source);
      if show(edges[n]["source"]) == source then before + [Hop(edges[n]["target"], |before|)] else before
  }

  function Sources(show: Show, edges: seq<Object>): set<string>
    requires KnownItems(Edges, edges)
  {
    set i | 0 <= i < |edges| :: show(edges[i]["source"])
  }

  function Slot(hops: seq<Value>): Value {
    P.Dict(map["main" := P.List([P.List(hops)])])
  }

  function Connections(show: Show, edges: seq<Object>): Object
    requires KnownItems(Edges, edges)
  {
    map source | source in Sources(show, edges) :: Slot(HopsFrom(show, edges, source))
  }

  // ----- the network -----

  datatype Parts = Parts(components: seq<Object>, edges: seq<Object>, iips: seq<Object>)

  predicate KnownComponents(components: seq<Object>) {
    forall i :: 0 <= i < |components| ==> KnownComponent(components[i])
  }

  predicate KnownParts(parts: Parts) {
    && KnownComponents(parts.components)
    && KnownItems(Edges, parts.edges) && KnownItems(Iips, parts.iips)
  }

  function PartsOf(network: Object): Option<Parts> {
    if !(network.Keys <= {"components", "edges", "iips"}) then None
    else
      match (Field(network, "components", P.Null), Field(network, "edges", P.List([])),
        Field(network, "iips", P.List([])))
      case (List(components), List(edges), List(iips)) =>
        if AllDicts(components) && AllDicts(edges) && AllDicts(iips) then
          var parts := Parts(Fields(components), Fields(edges), Fields(iips));
          if KnownParts(parts) then Some(parts) else None
        else None
      case _ => None
  }

  function NetworkKeys(network: Object): seq<Value> {
    (if "components" in network then [P.Str("components")] else [])
    + (if "edges" in network then [P.Str("edges")] else [])
    + if "iips" in network then [P.Str("iips")] else []
  }

  predicate KeysOk(keys: seq<Value>) {
    && P.Str("components") in keys
    && (forall i :: 0 <= i < |keys| ==> keys[i].Str?)
    && forall i, j :: 0 <= i < j < |keys| ==> keys[i] != keys[j]
  }

  function NetworkOf(keys: seq<Value>, parts: Parts): Object {
    map["components" := P.List(AsDicts(parts.components))]
    + (if P.Str("edges") in keys then map["edges" := P.List(AsDicts(parts.edges))] else map[])
    + if P.Str("iips") in keys then map["iips" := P.List(AsDicts(parts.iips))] else map[]
  }

  // ----- requested components and envelopes -----

  function RequestedToDict(c: Requested): Value {
    P.Dict(map["name" := P.Str(c.name), "requested" := P.Str(c.requested)])
  }

  function GrantToDict(e: EnvelopeGrant): Value {
    P.Dict(map["component" := P.Str(e.component), "bounds" := P.Dict(e.bounds)])
  }

  predicate IsRequested(c: Value) {
    c.Dict? && "name" in c.fields && "requested" in c.fields
  }

  function RequestedFrom(show: Show, c: Value): Requested
    requires IsRequested(c)
  {
    Requested(show(c.fields["name"]), show(c.fields["requested"]))
  }

  /** data.get("bounds") or {} */
  function BoundsFrom(e: Object): Option<Object> {
    match Field(e, "bounds", P.Null)
    case Dict(fields) => Some(fields)
    case Null => Some(map[])
    case Bool(b) => if b then None else Some(map[])
    case Int(i) => if i != 0 then None else Some(map[])
    case Float(r) => if r != 0.0 then None else Some(map[])
    case Str(s) => if s != "" then None else Some(map[])
    case List(items) => if items != [] then None else Some(map[])
  }

  predicate IsGrant(e: Value) {
    e.Dict? && BoundsFrom(e.fields).Some?
  }

  function GrantFrom(show: Show, e: Value): EnvelopeGrant
    requires IsGrant(e)
  {
    EnvelopeGrant(show(Field(e.fields, "component", P.Str(""))), BoundsFrom(e.fields).value)
  }

  function RequestedDicts(components: seq<Requested>): seq<Value> {
    seq(|components|, i requires 0 <= i < |components| => RequestedToDict(components[i]))
  }

  function GrantDicts(envelopes: seq<EnvelopeGrant>): seq<Value> {
    seq(|envelopes|, i requires 0 <= i < |envelopes| => GrantToDict(envelopes[i]))
  }

  function MetaOf(d: Design): Object {
    map["projection" := P.Str(PROJECTION), "schema" := P.Str(d.schema), "id" := P.Str(d.id), "title" := P.Str(d.title),
        "components" := P.List(RequestedDicts(d.components)),
        "metadata" := P.Dict(d.metadata), "network_keys" := P.List(NetworkKeys(d.network))]
    + if d.envelopes == [] then map[]
      else map["envelopes" := P.List(GrantDicts(d.envelopes))]
  }

  /** The design a workflow's metadata describes, around a network. */
  function DesignFrom(show: Show, meta: Object, network: Object): Option<Design> {
    match (Field(meta, "components", P.List([])), Field(meta, "metadata", P.Dict(map[])),
      Field(meta, "envelopes", P.List([])))
    case (List(components), Dict(metadata), List(envelopes)) =>
      if && (forall i :: 0 <= i < |components| ==> IsRequested(components[i]))
         && (forall i :: 0 <= i < |envelopes| ==> IsGrant(envelopes[i])) then
        var d := Design(
          show(Field(meta, "id", P.Str(""))), network, show(Field(meta, "title", P.Str(""))),
          seq(|components|, i requires 0 <= i < |components| && IsRequested(components[i]) =>
            RequestedFrom(show, components[i])),
          metadata,
          seq(|envelopes|, i requires 0 <= i < |envelopes| && IsGrant(envelopes[i]) => GrantFrom(show, envelopes[i])),
          show(Field(meta, "schema", P.Str(""))));
        if ValidDesign(d) then Some(d) else None
      else None
    case _ => None
  }

  // ----- the two translations -----

  function NodeOf(show: Show, parts: Parts, i: nat): Value
    requires KnownParts(parts) && i < |parts.components|
  {
    var name := show(parts.components[i]["id"]);
    var inputs, iips := EntriesFor(show, Edges, parts.edges, name), EntriesFor(show, Iips, parts.iips, name);
    Node(name, i, NodeBody(parts.components[i], inputs, iips))
  }

  function NodesOf(show: Show, parts: Parts): seq<Value>
    requires KnownParts(parts)
  {
    seq(|parts.components|, i requires 0 <= i < |parts.components| => NodeOf(show, parts, i))
  }

  function Workflow(name: string, nodes: seq<Value>, connections: Object, meta: Object): Value {
    P.Dict(map["name" := P.Str(name), "nodes" := P.List(nodes), "connections" := P.Dict(connections),
               "settings" := P.Dict(map[]), "meta" := P.Dict(map["cbp" := P.Dict(meta)])])
  }

  function Exported(show: Show, d: Design): Option<Value> {
    match PartsOf(d.network)
    case None => None
    case Some(parts) =>
      var name := if d.title != "" then d.title else d.id;
      Some(Workflow(name, NodesOf(show, parts), Connections(show, parts.edges), MetaOf(d)))
  }

  predicate Seen(name: Value, nodes: seq<NodeParts>) {
    exists j :: 0 <= j < |nodes| && name == P.Str(nodes[j].name)
  }

  predicate EndpointsSeen(edges: seq<Object>, nodes: seq<NodeParts>)
    requires KnownItems(Edges, edges)
  {
    forall i :: 0 <= i < |edges| ==>
      Seen(edges[i]["source"], nodes) && Seen(edges[i]["target"], nodes)
  }

  /** Parsed nodes, put back in order and checked against the drawn connections. */
  function Assemble(show: Show, nodes: seq<NodeParts>, connections: Object): (r: Option<Parts>)
    requires AllWellFiled(nodes)
    ensures r.Some? ==> KnownItems(Edges, r.value.edges) && KnownItems(Iips, r.value.iips)
  {
    match (Arrange(Gathered(Edges, nodes)), Arrange(Gathered(Iips, nodes)))
    case (Some(edges), Some(iips)) =>
      if EndpointsSeen(edges, nodes) && connections == Connections(show, edges) then
        Some(Parts(ComponentsOf(nodes), edges, iips))
      else None
    case _ => None
  }

  function Imported(show: Show, w: Value): Option<Design> {
    if !w.Dict? then None
    else
      match (Field(w.fields, "nodes", P.Null), Field(w.fields, "connections", P.Null), Field(w.fields, "meta", P.Null))
      case (List(nodes), Dict(connections), Dict(meta)) =>
        ImportedFrom(show, nodes, connections, Field(meta, "cbp", P.Null))
      case _ => None
  }

  function ImportedFrom(show: Show, nodes: seq<Value>, connections: Object, cbp: Value): Option<Design> {
    if !cbp.Dict? || Field(cbp.fields, "projection", P.Null) != P.Str(PROJECTION) then None
    else
      match Field(cbp.fields, "network_keys", P.Null)
      case List(keys) =>
        if !KeysOk(keys) || ParseNodes(nodes).None? then None
        else
          (match Assemble(show, ParseNodes(nodes).value, connections)
           case None => None
           case Some(parts) => DesignFrom(show, cbp.fields, NetworkOf(keys, parts)))
      case _ => None
  }
}
