/** The n8n adapter's two translations as it runs them: loops that file, collect, sort and check. */
module Adapter {
  import opened Wrappers
  import P = Ports
  import opened Projection
  import opened RoundTrip
  import F = WorkflowFormat

  // ----- export -----

  method CheckItems(kind: Kind, values: seq<Value>) returns (items: Option<seq<Object>>)
    ensures items == if AllDicts(values) && KnownItems(kind, Fields(values)) then Some(Fields(values)) else None
  {
    var checked: seq<Object> := [];
    for i := 0 to |values|
      invariant |checked| == i && KnownItems(kind, checked)
      invariant forall j :: 0 <= j < i ==> values[j].Dict? && checked[j] == values[j].fields
    {
      if !values[i].Dict? || !KnownItem(kind, values[i].fields) {
        assert AllDicts(values) ==> Fields(values)[i] == values[i].fields;
        return None;
      }
      checked := checked + [values[i].fields];
    }
    assert checked == Fields(values);
    return Some(checked);
  }

  method CheckComponents(values: seq<Value>) returns (components: Option<seq<Object>>)
    ensures components == if AllDicts(values) && KnownComponents(Fields(values)) then Some(Fields(values)) else None
  {
    var checked: seq<Object> := [];
    for i := 0 to |values|
      invariant |checked| == i
      invariant forall j :: 0 <= j < i ==>
        values[j].Dict? && checked[j] == values[j].fields && KnownComponent(checked[j])
    {
      if !values[i].Dict? || !KnownComponent(values[i].fields) {
        assert AllDicts(values) ==> Fields(values)[i] == values[i].fields;
        return None;
      }
      checked := checked + [values[i].fields];
    }
    assert checked == Fields(values);
    return Some(checked);
  }

  method CheckNetwork(network: Object) returns (parts: Option<Parts>)
    ensures parts == PartsOf(network)
  {
    if !(network.Keys <= {"components", "edges", "iips"}) { return None; }
    var components := Field(network, "components", P.Null);
    var edges, iips := Field(network, "edges", P.List([])), Field(network, "iips", P.List([]));
    if !components.List? || !edges.List? || !iips.List? { return None; }
    var known := CheckComponents(components.items);
    if known.None? { return None; }
    var knownEdges := CheckItems(Edges, edges.items);
    if knownEdges.None? { return None; }
    var knownIips := CheckItems(Iips, iips.items);
    if knownIips.None? { return None; }
    return Some(Parts(known.value, knownEdges.value, knownIips.value));
  }

  function Filed(filed: map<string, seq<Value>>, owner: string): seq<Value> {
    if owner in filed then filed[owner] else []
  }

  lemma EntriesForGrows(show: Show, kind: Kind, items: seq<Object>, i: nat, owner: string)
    requires KnownItems(kind, items) && i < |items|
    ensures EntriesFor(show, kind, items[..i + 1], owner) ==
      EntriesFor(show, kind, items[..i], owner)
      + if Owner(show, kind, items[i]) == owner then [Entry(kind, items[i], i)] else []
  {
    assert items[..i + 1][..i] == items[..i];
  }

  ghost predicate FiledAll(show: Show, kind: Kind, items: seq<Object>, filed: map<string, seq<Value>>)
    requires KnownItems(kind, items)
  {
    forall owner :: Filed(filed, owner) == EntriesFor(show, kind, items, owner)
  }

  lemma FiledGrows(before: map<string, seq<Value>>, owner: string, entry: Value, other: string)
    ensures Filed(before[owner := Filed(before, owner) + [entry]], other)
      == Filed(before, other) + if owner == other then [entry] else []
  {
  }

  lemma FilingExtends(
      show: Show, kind: Kind, items: seq<Object>, i: nat, before: map<string, seq<Value>>, owner: string)
    requires KnownItems(kind, items) && i < |items| && FiledAll(show, kind, items[..i], before)
    requires owner == Owner(show, kind, items[i])
    ensures FiledAll(show, kind, items[..i + 1], before[owner := Filed(before, owner) + [Entry(kind, items[i], i)]])
  {
    var after := before[owner := Filed(before, owner) + [Entry(kind, items[i], i)]];
    forall other
      ensures Filed(after, other) == EntriesFor(show, kind, items[..i + 1], other)
    {
      assert Filed(before, other) == EntriesFor(show, kind, items[..i], other);
      EntriesForGrows(show, kind, items, i, other);
      FiledGrows(before, owner, Entry(kind, items[i], i), other);
    }
  }

  /** inputs_by_target and iips_by_target: each item filed under its owner with its place in the list. */
  method FileItems(show: Show, kind: Kind, items: seq<Object>) returns (filed: map<string, seq<Value>>)
    requires KnownItems(kind, items)
    ensures FiledAll(show, kind, items, filed)
  {
    filed := map[];
    for i := 0 to |items|
      invariant FiledAll(show, kind, items[..i], filed)
    {
      var owner := Owner(show, kind, items[i]);
      FilingExtends(show, kind, items, i, filed, owner);
      filed := filed[owner := Filed(filed, owner) + [Entry(kind, items[i], i)]];
    }
    assert items[..|items|] == items;
  }

  function HopsIn(slot: Value): seq<Value>
    requires slot.Dict? && "main" in slot.fields && slot.fields["main"].List?
    requires |slot.fields["main"].items| == 1 && slot.fields["main"].items[0].List?
  {
    slot.fields["main"].items[0].items
  }

  lemma SourcesGrow(show: Show, edges: seq<Object>, i: nat)
    requires KnownItems(Edges, edges) && i < |edges|
    ensures Sources(show, edges[..i + 1]) == Sources(show, edges[..i]) + {show(edges[i]["source"])}
  {
    forall k | 0 <= k < i
      ensures edges[..i][k] == edges[..i + 1][k]
    {
    }
    assert edges[..i + 1][i] == edges[i];
  }

  lemma HopsGrow(show: Show, edges: seq<Object>, i: nat, source: string)
    requires KnownItems(Edges, edges) && i < |edges|
    ensures var before := HopsFrom(show, edges[..i], source);
      HopsFrom(show, edges[..i + 1], source) ==
        if show(edges[i]["source"]) == source then before + [Hop(edges[i]["target"], |before|)] else before
  {
    assert edges[..i + 1][..i] == edges[..i];
  }

  function Extended(show: Show, edges: seq<Object>, i: nat): Object
    requires KnownItems(Edges, edges) && i < |edges|
  {
    var source := show(edges[i]["source"]);
    var before := HopsFrom(show, edges[..i], source);
    Connections(show, edges[..i])[source := Slot(before + [Hop(edges[i]["target"], |before|)])]
  }

  lemma SlotGrows(show: Show, edges: seq<Object>, i: nat, source: string)
    requires KnownItems(Edges, edges) && i < |edges| && source in Sources(show, edges[..i + 1])
    ensures source in Extended(show, edges, i)
      && Extended(show, edges, i)[source] == Slot(HopsFrom(show, edges[..i + 1], source))
  {
    SourcesGrow(show, edges, i);
    HopsGrow(show, edges, i, source);
  }

  lemma ConnectedSourcesGrow(show: Show, edges: seq<Object>, i: nat)
    requires KnownItems(Edges, edges) && i < |edges|
    ensures Connections(show, edges[..i + 1]).Keys == Extended(show, edges, i).Keys
  {
    SourcesGrow(show, edges, i);
  }

  lemma ConnectionsGrow(show: Show, edges: seq<Object>, i: nat)
    requires KnownItems(Edges, edges) && i < |edges|
    ensures Connections(show, edges[..i + 1]) == Extended(show, edges, i)
  {
    ConnectedSourcesGrow(show, edges, i);
    forall source | source in Connections(show, edges[..i + 1])
      ensures Connections(show, edges[..i + 1])[source] == Extended(show, edges, i)[source]
    {
      SlotGrows(show, edges, i, source);
    }
  }

  lemma {:induction false} NoSourceNoHops(show: Show, edges: seq<Object>, source: string)
    requires KnownItems(Edges, edges)
    ensures source !in Sources(show, edges) ==> HopsFrom(show, edges, source) == []
  {
    if edges != [] {
      var n := |edges| - 1;
      NoSourceNoHops(show, edges[..n], source);
      assert forall k :: 0 <= k < n ==> edges[..n][k] == edges[k];
    }
  }

  /** One hop per edge, numbered within its source's slot. */
  method DrawConnections(show: Show, edges: seq<Object>) returns (connections: Object)
    requires KnownItems(Edges, edges)
    ensures connections == Connections(show, edges)
  {
    connections := map[];
    for i := 0 to |edges|
      invariant connections == Connections(show, edges[..i])
    {
      ConnectionsGrow(show, edges, i);
      NoSourceNoHops(show, edges[..i], show(edges[i]["source"]));
      var source := show(edges[i]["source"]);
      var hops := if source in connections then HopsIn(connections[source]) else [];
      connections := connections[source := Slot(hops + [Hop(edges[i]["target"], |hops|)])];
    }
    assert edges[..|edges|] == edges;
  }

  /** A component's node, with the entries that were filed under its id. */
  method DrawNode(
      show: Show, parts: Parts, inputs: map<string, seq<Value>>, iips: map<string, seq<Value>>, i: nat)
    returns (node: Value)
    requires KnownParts(parts) && i < |parts.components|
    requires FiledAll(show, Edges, parts.edges, inputs) && FiledAll(show, Iips, parts.iips, iips)
    ensures node == NodeOf(show, parts, i)
  {
    var c := parts.components[i];
    assert KnownComponent(c);
    var name := show(c["id"]);
    NodeIsDrawn(show, parts, inputs, iips, i);
    return Node(name, i, NodeBody(c, Filed(inputs, name), Filed(iips, name)));
  }

  method DrawNodes(show: Show, parts: Parts, inputs: map<string, seq<Value>>, iips: map<string, seq<Value>>)
    returns (nodes: seq<Value>)
    requires KnownParts(parts)
    requires FiledAll(show, Edges, parts.edges, inputs) && FiledAll(show, Iips, parts.iips, iips)
    ensures nodes == NodesOf(show, parts)
  {
    nodes := [];
    while |nodes| < |parts.components|
      invariant |nodes| <= |parts.components| && nodes == NodesOf(show, parts)[..|nodes|]
    {
      var node := DrawNode(show, parts, inputs, iips, |nodes|);
      DrawnAt(show, parts, |nodes|);
      OneMore(NodesOf(show, parts), nodes, node);
      nodes := nodes + [node];
    }
  }

  lemma DrawnAt(show: Show, parts: Parts, i: nat)
    requires KnownParts(parts) && i < |parts.components|
    ensures NodesOf(show, parts)[i] == NodeOf(show, parts, i)
  {
  }

  lemma OneMore(all: seq<Value>, front: seq<Value>, next: Value)
    requires |front| < |all| && front == all[..|front|] && all[|front|] == next
    ensures front + [next] == all[..|front| + 1]
  {
  }

  lemma NodeIsDrawn(
      show: Show, parts: Parts, inputs: map<string, seq<Value>>, iips: map<string, seq<Value>>, i: nat)
    requires KnownParts(parts) && i < |parts.components| && KnownComponent(parts.components[i])
    requires FiledAll(show, Edges, parts.edges, inputs) && FiledAll(show, Iips, parts.iips, iips)
    ensures var name := show(parts.components[i]["id"]);
      Node(name, i, NodeBody(parts.components[i], Filed(inputs, name), Filed(iips, name))) == NodeOf(show, parts, i)
  {
    var name := show(parts.components[i]["id"]);
    assert Filed(inputs, name) == EntriesFor(show, Edges, parts.edges, name);
    assert Filed(iips, name) == EntriesFor(show, Iips, parts.iips, name);
  }

  method ToN8n(show: Show, design: Design) returns (workflow: Option<Value>)
    ensures workflow == Exported(show, design)
    ensures F.IsDrawnAs(show, design, workflow)
  {
    F.DrawnExactly(show, design);
    var checked := CheckNetwork(design.network);
    if checked.None? { return None; }
    var parts := checked.value;
    var inputs := FileItems(show, Edges, parts.edges);
    var connections := DrawConnections(show, parts.edges);
    var iips := FileItems(show, Iips, parts.iips);
    var nodes := DrawNodes(show, parts, inputs, iips);
    return Some(Workflow(if design.title != "" then design.title else design.id, nodes, connections, MetaOf(design)));
  }

  // ----- import -----

  method ReadEntries(kind: Kind, name: string, entries: seq<Value>) returns (raw: Option<seq<Ordered>>)
    ensures raw == ParseEntries(kind, name, entries)
  {
    var read: seq<Ordered> := [];
    for i := 0 to |entries|
      invariant |read| == i && forall k :: 0 <= k < i ==> ParseEntry(kind, name, entries[k], k) == Some(read[k])
    {
      var item := ParseEntry(kind, name, entries[i], i);
      if item.None? { return None; }
      read := read + [item.value];
    }
    ParsedEntriesAre(kind, name, entries, read);
    return Some(read);
  }

  method ReadBody(name: string, body: Object) returns (node: Option<NodeParts>)
    ensures node == ParseBody(name, body)
  {
    if !(body.Keys <= {"task", "inputs", "iips"} + COMPONENT_OPTIONAL) || "task" !in body { return None; }
    var component := map["id" := P.Str(name), "task" := body["task"]] + Restrict(body, COMPONENT_OPTIONAL);
    var inputs, iips := Iterate(Field(body, "inputs", P.List([]))), Iterate(Field(body, "iips", P.List([])));
    if inputs.None? || iips.None? { return None; }
    var edges := ReadEntries(Edges, name, inputs.value);
    var packets := ReadEntries(Iips, name, iips.value);
    if edges.None? || packets.None? { return None; }
    return Some(NodeParts(name, component, edges.value, packets.value));
  }

  method ReadNode(node: Value) returns (read: Option<NodeParts>)
    ensures read == ParseNode(node)
  {
    if !node.Dict? || Field(node.fields, "type", P.Null) != P.Str(NODE_TYPE) { return None; }
    var name, parameters := Field(node.fields, "name", P.Null), Field(node.fields, "parameters", P.Null);
    if !name.Str? || name.s == "" || !parameters.Dict? { return None; }
    var body := Field(parameters.fields, "cbp", P.Null);
    if !body.Dict? { return None; }
    read := ReadBody(name.s, body.fields);
  }

  ghost function NamesOf(nodes: seq<NodeParts>): set<string> {
    set i | 0 <= i < |nodes| :: nodes[i].name
  }

  lemma GatheredGrows(kind: Kind, nodes: seq<NodeParts>, node: NodeParts)
    requires AllWellFiled(nodes + [node]) && AllWellFiled(nodes)
    ensures Gathered(kind, nodes + [node]) == Gathered(kind, nodes) + Side(kind, node)
  {
    assert (nodes + [node])[..|nodes|] == nodes;
  }

  lemma RepeatedNameIsRefused(nodes: seq<Value>, read: seq<NodeParts>, i: nat)
    requires |read| == i < |nodes| && ParseNode(nodes[i]).Some? && ParseNode(nodes[i]).value.name in NamesOf(read)
    requires forall k :: 0 <= k < i ==> ParseNode(nodes[k]) == Some(read[k])
    ensures ParseNodes(nodes).None?
  {
    var k :| 0 <= k < i && read[k].name == ParseNode(nodes[i]).value.name;
    if forall j :: 0 <= j < |nodes| ==> ParseNode(nodes[j]).Some? {
      var parsed := seq(|nodes|, j requires 0 <= j < |nodes| && ParseNode(nodes[j]).Some? => ParseNode(nodes[j]).value);
      assert parsed[k].name == parsed[i].name;
    }
  }

  /** What has been read of the nodes so far. */
  ghost predicate ReadSoFar(nodes: seq<Value>, parsed: seq<NodeParts>, seen: set<string>) {
    && |parsed| <= |nodes| && seen == NamesOf(parsed) && DistinctNames(parsed) && AllWellFiled(parsed)
    && forall k :: 0 <= k < |parsed| ==> ParseNode(nodes[k]) == Some(parsed[k])
  }

  lemma OneMoreRead(nodes: seq<Value>, parsed: seq<NodeParts>, seen: set<string>, node: NodeParts)
    requires ReadSoFar(nodes, parsed, seen) && |parsed| < |nodes| && ParseNode(nodes[|parsed|]) == Some(node)
    requires node.name !in seen
    ensures ReadSoFar(nodes, parsed + [node], seen + {node.name})
  {
    NameIsNew(parsed, node);
  }

  /** The nodes in order, and their entries appended to the two raw lists. */
  method ReadNodes(nodes: seq<Value>)
    returns (read: Option<seq<NodeParts>>, rawEdges: seq<Ordered>, rawIips: seq<Ordered>)
    ensures read == ParseNodes(nodes)
    ensures read.Some? ==> rawEdges == Gathered(Edges, read.value) && rawIips == Gathered(Iips, read.value)
  {
    var parsed: seq<NodeParts> := [];
    var seen: set<string> := {};
    rawEdges, rawIips := [], [];
    for i := 0 to |nodes|
      invariant |parsed| == i && ReadSoFar(nodes, parsed, seen)
      invariant rawEdges == Gathered(Edges, parsed) && rawIips == Gathered(Iips, parsed)
    {
      var node := ReadNode(nodes[i]);
      if node.None? { return None, [], []; }
      if node.value.name in seen {
        RepeatedNameIsRefused(nodes, parsed, i);
        return None, [], [];
      }
      OneMoreRead(nodes, parsed, seen, node.value);
      GatheredGrows(Edges, parsed, node.value);
      GatheredGrows(Iips, parsed, node.value);
      seen := seen + {node.value.name};
      parsed := parsed + [node.value];
      rawEdges := rawEdges + node.value.edges;
      rawIips := rawIips + node.value.iips;
    }
    ParsedNodesAre(nodes, parsed);
    return Some(parsed), rawEdges, rawIips;
  }

  lemma NameIsNew(nodes: seq<NodeParts>, node: NodeParts)
    requires node.name !in NamesOf(nodes) && DistinctNames(nodes)
    ensures DistinctNames(nodes + [node]) && NamesOf(nodes + [node]) == NamesOf(nodes) + {node.name}
  {
    forall i | 0 <= i < |nodes|
      ensures nodes[i].name in NamesOf(nodes) && (nodes + [node])[i] == nodes[i]
    {
    }
    assert (nodes + [node])[|nodes|] == node;
  }

  /** Sort by order and refuse anything but 0, 1, 2, and so on. */
  method Restore(raw: seq<Ordered>) returns (items: Option<seq<Object>>)
    ensures items == Arrange(raw)
  {
    var sorted := SortOrdered(raw);
    var restored: seq<Object> := [];
    for k := 0 to |sorted|
      invariant |restored| == k && forall j :: 0 <= j < k ==> sorted[j].0 == j && restored[j] == sorted[j].1
    {
      if sorted[k].0 != k { return None; }
      restored := restored + [sorted[k].1];
    }
    assert restored == Arrange(raw).value;
    return Some(restored);
  }

  method CheckEndpoints(edges: seq<Object>, nodes: seq<NodeParts>) returns (ok: bool)
    requires KnownItems(Edges, edges)
    ensures ok <==> EndpointsSeen(edges, nodes)
  {
    for i := 0 to |edges|
      invariant EndpointsSeen(edges[..i], nodes)
    {
      if !Seen(edges[i]["source"], nodes) || !Seen(edges[i]["target"], nodes) { return false; }
    }
    assert edges[..|edges|] == edges;
    return true;
  }

  method ReadNetwork(show: Show, nodes: seq<Value>, connections: Object) returns (parts: Option<Parts>)
    ensures parts == if ParseNodes(nodes).None? then None else Assemble(show, ParseNodes(nodes).value, connections)
  {
    var read, rawEdges, rawIips := ReadNodes(nodes);
    if read.None? { return None; }
    var edges := Restore(rawEdges);
    var iips := Restore(rawIips);
    if edges.None? || iips.None? { return None; }
    ArrangedIsSeen(Edges, read.value, edges.value);
    var connected := CheckEndpoints(edges.value, read.value);
    if !connected { return None; }
    var expected := DrawConnections(show, edges.value);
    if connections != expected { return None; }
    return Some(Parts(ComponentsOf(read.value), edges.value, iips.value));
  }

  method FromProjection(show: Show, nodes: seq<Value>, connections: Object, cbp: Value) returns (design: Option<Design>)
    ensures design == ImportedFrom(show, nodes, connections, cbp)
  {
    if !cbp.Dict? || Field(cbp.fields, "projection", P.Null) != P.Str(PROJECTION) { return None; }
    var keys := Field(cbp.fields, "network_keys", P.Null);
    if !keys.List? || !KeysOk(keys.items) { return None; }
    var parts := ReadNetwork(show, nodes, connections);
    if parts.None? { return None; }
    return DesignFrom(show, cbp.fields, NetworkOf(keys.items, parts.value));
  }

  method FromN8n(show: Show, workflow: Value) returns (design: Option<Design>)
    ensures design == Imported(show, workflow)
    ensures IsShow(show) ==> F.IsReadAs(show, workflow, design)
  {
    F.ReadExactly(show, workflow);
    if !workflow.Dict? { return None; }
    var nodes, connections := Field(workflow.fields, "nodes", P.Null), Field(workflow.fields, "connections", P.Null);
    var meta := Field(workflow.fields, "meta", P.Null);
    if !nodes.List? || !connections.Dict? || !meta.Dict? { return None; }
    design := FromProjection(show, nodes.items, connections.fields, Field(meta.fields, "cbp", P.Null));
  }
}
