/** Exporting a design and importing it back: exactly when nothing is lost. */
module RoundTrip {
  import opened Wrappers
  import opened Names
  import P = Ports
  import opened Projection

  /**
   What a caller can check before exporting: component ids are distinct non-empty
   strings, and every edge and initial packet names components by such an id.
   */
  ghost predicate Connected(parts: Parts)
    requires KnownParts(parts)
  {
    && (forall i :: 0 <= i < |parts.components| ==> parts.components[i]["id"].Str? && parts.components[i]["id"].s != "")
    && (forall i, j :: 0 <= i < j < |parts.components| ==> parts.components[i]["id"] != parts.components[j]["id"])
    && (forall i :: 0 <= i < |parts.edges| ==>
      IsId(parts, parts.edges[i]["source"]) && IsId(parts, parts.edges[i]["target"]))
    && forall i :: 0 <= i < |parts.iips| ==> IsId(parts, parts.iips[i]["component"])
  }

  ghost predicate IsId(parts: Parts, name: Value)
    requires KnownParts(parts)
  {
    exists j :: 0 <= j < |parts.components| && parts.components[j]["id"] == name
  }

  // ----- one entry, one node -----

  lemma EdgeEntryRoundTrips(item: Object, order: nat, name: string, index: nat)
    requires KnownItem(Edges, item) && item["target"] == P.Str(name)
    ensures ParseEntry(Edges, name, Entry(Edges, item, order), index) == Some((order, item))
  {
    var entry := Entry(Edges, item, order).fields;
    assert entry.Keys == {"from", "field", "arg", "cbp_order"} + item.Keys * {"capacity"};
    var back := map["source" := entry["from"], "source_field" := entry["field"], "target" := P.Str(name),
                    "target_arg" := entry["arg"]]
      + Restrict(entry, {"capacity"});
    assert back == item;
  }

  lemma IipEntryRoundTrips(item: Object, order: nat, name: string, index: nat)
    requires KnownItem(Iips, item) && item["component"] == P.Str(name)
    ensures ParseEntry(Iips, name, Entry(Iips, item, order), index) == Some((order, item))
  {
    var entry := Entry(Iips, item, order).fields;
    assert map["component" := P.Str(name), "port" := entry["port"], "value" := entry["value"]] == item;
  }

  lemma EntryRoundTrips(kind: Kind, item: Object, order: nat, name: string, index: nat)
    requires KnownItem(kind, item) && item[OwnerKey(kind)] == P.Str(name)
    ensures ParseEntry(kind, name, Entry(kind, item, order), index) == Some((order, item))
  {
    match kind
    case Edges => EdgeEntryRoundTrips(item, order, name, index);
    case Iips => IipEntryRoundTrips(item, order, name, index);
  }

  /** Every item's owner is a string, so filing by str() files by the value itself. */
  ghost predicate OwnersAreStrings(kind: Kind, items: seq<Object>)
    requires KnownItems(kind, items)
  {
    forall i :: 0 <= i < |items| ==> items[i][OwnerKey(kind)].Str?
  }

  lemma ParsedEntriesAre(kind: Kind, name: string, entries: seq<Value>, items: seq<Ordered>)
    requires |entries| == |items| && forall i :: 0 <= i < |entries| ==>
      ParseEntry(kind, name, entries[i], i) == Some(items[i])
    ensures ParseEntries(kind, name, entries) == Some(items)
  {
    assert ParseEntries(kind, name, entries).value == items;
  }

  lemma EntriesRoundTrip(show: Show, kind: Kind, items: seq<Object>, name: string)
    requires IsShow(show) && KnownItems(kind, items) && OwnersAreStrings(kind, items)
    ensures ParseEntries(kind, name, EntriesFor(show, kind, items, name)) == Some(Owned(show, kind, items, name))
  {
    var owned, entries := Owned(show, kind, items, name), EntriesFor(show, kind, items, name);
    forall i | 0 <= i < |owned|
      ensures ParseEntry(kind, name, entries[i], i) == Some(owned[i])
    {
      EntryRoundTrips(kind, owned[i].1, owned[i].0, name, i);
    }
    ParsedEntriesAre(kind, name, entries, owned);
  }

  function PartsOfNode(show: Show, parts: Parts, i: nat): NodeParts
    requires KnownParts(parts) && i < |parts.components|
  {
    var name := show(parts.components[i]["id"]);
    NodeParts(name, parts.components[i], Owned(show, Edges, parts.edges, name), Owned(show, Iips, parts.iips, name))
  }

  lemma ComponentRoundTrips(c: Object, name: string, body: Object, inputs: Value, iips: Value)
    requires KnownComponent(c) && c["id"] == P.Str(name)
    requires body ==
      map["task" := c["task"]] + Restrict(c, COMPONENT_OPTIONAL) + map["inputs" := inputs, "iips" := iips]
    ensures map["id" := P.Str(name), "task" := body["task"]] + Restrict(body, COMPONENT_OPTIONAL) == c
  {
  }

  lemma BodyRoundTrips(
      name: string, c: Object, inputs: seq<Value>, iips: seq<Value>, edges: seq<Ordered>, packets: seq<Ordered>)
    requires KnownComponent(c) && c["id"] == P.Str(name)
    requires ParseEntries(Edges, name, inputs) == Some(edges) && ParseEntries(Iips, name, iips) == Some(packets)
    ensures ParseBody(name, NodeBody(c, inputs, iips)) == Some(NodeParts(name, c, edges, packets))
  {
    var body := NodeBody(c, inputs, iips);
    ComponentRoundTrips(c, name, body, P.List(inputs), P.List(iips));
    assert body["inputs"] == P.List(inputs) && body["iips"] == P.List(iips);
    assert body.Keys <= {"task", "inputs", "iips"} + COMPONENT_OPTIONAL;
  }

  lemma NodeRoundTrips(name: string, index: nat, body: Object)
    requires name != ""
    ensures ParseNode(Node(name, index, body)) == ParseBody(name, body)
  {
    var node := Node(name, index, body).fields;
    assert node["type"] == P.Str(NODE_TYPE) && node["name"] == P.Str(name);
    assert node["parameters"] == P.Dict(map["cbp" := P.Dict(body)]);
  }

  lemma NodeOfRoundTrips(show: Show, parts: Parts, i: nat)
    requires IsShow(show) && KnownParts(parts) && i < |parts.components|
    requires parts.components[i]["id"].Str? && parts.components[i]["id"].s != ""
    requires OwnersAreStrings(Edges, parts.edges) && OwnersAreStrings(Iips, parts.iips)
    ensures ParseNode(NodeOf(show, parts, i)) == Some(PartsOfNode(show, parts, i))
  {
    var name, c := show(parts.components[i]["id"]), parts.components[i];
    var inputs, iips := EntriesFor(show, Edges, parts.edges, name), EntriesFor(show, Iips, parts.iips, name);
    EntriesRoundTrip(show, Edges, parts.edges, name);
    EntriesRoundTrip(show, Iips, parts.iips, name);
    BodyRoundTrips(name, c, inputs, iips, Owned(show, Edges, parts.edges, name), Owned(show, Iips, parts.iips, name));
    NodeRoundTrips(name, i, NodeBody(c, inputs, iips));
  }

  lemma ParsedNodesAre(nodes: seq<Value>, parsed: seq<NodeParts>)
    requires |nodes| == |parsed| && DistinctNames(parsed)
    requires forall i :: 0 <= i < |nodes| ==> ParseNode(nodes[i]) == Some(parsed[i])
    ensures ParseNodes(nodes) == Some(parsed)
  {
    assert ParseNodes(nodes).value == parsed;
  }

  function PartsOfNodes(show: Show, parts: Parts): seq<NodeParts>
    requires KnownParts(parts)
  {
    seq(|parts.components|, i requires 0 <= i < |parts.components| => PartsOfNode(show, parts, i))
  }

  lemma EachNodeRoundTrips(show: Show, parts: Parts, nodes: seq<Value>, parsed: seq<NodeParts>)
    requires IsShow(show) && KnownParts(parts) && nodes == NodesOf(show, parts) && parsed == PartsOfNodes(show, parts)
    requires forall i :: 0 <= i < |parts.components| ==>
      parts.components[i]["id"].Str? && parts.components[i]["id"].s != ""
    requires OwnersAreStrings(Edges, parts.edges) && OwnersAreStrings(Iips, parts.iips)
    ensures forall i :: 0 <= i < |nodes| ==> ParseNode(nodes[i]) == Some(parsed[i])
  {
    forall i | 0 <= i < |nodes|
      ensures ParseNode(nodes[i]) == Some(parsed[i])
    {
      NodeOfRoundTrips(show, parts, i);
    }
  }

  lemma NamesAreDistinct(show: Show, parts: Parts)
    requires IsShow(show) && KnownParts(parts) && Connected(parts)
    ensures DistinctNames(PartsOfNodes(show, parts))
  {
  }

  lemma NodesRoundTrip(show: Show, parts: Parts)
    requires IsShow(show) && KnownParts(parts) && Connected(parts)
    ensures ParseNodes(NodesOf(show, parts)) == Some(PartsOfNodes(show, parts))
  {
    OwnersAreIds(show, parts);
    EachNodeRoundTrips(show, parts, NodesOf(show, parts), PartsOfNodes(show, parts));
    NamesAreDistinct(show, parts);
    ParsedNodesAre(NodesOf(show, parts), PartsOfNodes(show, parts));
  }

  // ----- grouping by owner loses nothing -----

  function Numbered(items: seq<Object>): seq<Ordered> {
    seq(|items|, i requires 0 <= i < |items| => (i, items[i]))
  }

  function Grouped(show: Show, kind: Kind, items: seq<Object>, owners: seq<string>): seq<Ordered>
    requires KnownItems(kind, items)
  {
    if owners == [] then []
    else Grouped(show, kind, items, owners[..|owners| - 1]) + Owned(show, kind, items, owners[|owners| - 1])
  }

  /** What the last of the items adds to an owner's group. */
  function Addition(show: Show, kind: Kind, items: seq<Object>, owned: bool): multiset<Ordered>
    requires KnownItems(kind, items) && items != []
  {
    if owned then multiset{(|items| - 1, items[|items| - 1])} else multiset{}
  }

  lemma OwnedGrows(show: Show, kind: Kind, items: seq<Object>, owner: string)
    requires KnownItems(kind, items) && items != []
    ensures multiset(Owned(show, kind, items, owner)) ==
      multiset(Owned(show, kind, items[..|items| - 1], owner))
      + Addition(show, kind, items, Owner(show, kind, items[|items| - 1]) == owner)
  {
  }

  lemma GroupedStep(show: Show, kind: Kind, items: seq<Object>, owners: seq<string>)
    requires KnownItems(kind, items) && owners != []
    ensures var m := |owners| - 1;
      multiset(Grouped(show, kind, items, owners)) ==
        multiset(Grouped(show, kind, items, owners[..m])) + multiset(Owned(show, kind, items, owners[m]))
  {
  }

  /** One more item goes into exactly one group when its owner is listed once. */
  lemma {:induction false} GroupsGrow(show: Show, kind: Kind, items: seq<Object>, owners: seq<string>)
    requires KnownItems(kind, items) && items != [] && Distinct(owners)
    ensures multiset(Grouped(show, kind, items, owners)) ==
      multiset(Grouped(show, kind, items[..|items| - 1], owners))
      + Addition(show, kind, items, Owner(show, kind, items[|items| - 1]) in owners)
    decreases |owners|
  {
    if owners != [] {
      var m, front, owner := |owners| - 1, items[..|items| - 1], Owner(show, kind, items[|items| - 1]);
      GroupsGrow(show, kind, items, owners[..m]);
      OwnedGrows(show, kind, items, owners[m]);
      GroupedStep(show, kind, items, owners);
      GroupedStep(show, kind, front, owners);
      assert owner in owners <==> owner in owners[..m] || owner == owners[m];
      assert !(owner in owners[..m] && owner == owners[m]);
    }
  }

  lemma NumberedGrows(items: seq<Object>)
    requires items != []
    ensures var n := |items| - 1; Numbered(items) == Numbered(items[..n]) + [(n, items[n])]
  {
  }

  lemma {:induction false} GroupsHoldAll(show: Show, kind: Kind, items: seq<Object>, owners: seq<string>)
    requires KnownItems(kind, items) && Distinct(owners)
    requires forall i :: 0 <= i < |items| ==> Owner(show, kind, items[i]) in owners
    ensures multiset(Grouped(show, kind, items, owners)) == multiset(Numbered(items))
    decreases |items|
  {
    if items == [] {
      NoItemsNoGroups(show, kind, owners);
    } else {
      var n := |items| - 1;
      GroupsHoldAll(show, kind, items[..n], owners);
      GroupsGrow(show, kind, items, owners);
      NumberedGrows(items);
    }
  }

  lemma {:induction false} NoItemsNoGroups(show: Show, kind: Kind, owners: seq<string>)
    ensures Grouped(show, kind, [], owners) == []
    decreases |owners|
  {
    if owners != [] { NoItemsNoGroups(show, kind, owners[..|owners| - 1]); }
  }

  // ----- sorting by order undoes the grouping -----

  lemma LastOfSorted(s: seq<Ordered>, items: seq<Object>)
    requires items != [] && InOrder(s) && multiset(s) == multiset(Numbered(items)) && |s| == |items|
    ensures s[|items| - 1] == (|items| - 1, items[|items| - 1])
  {
    var n, numbered := |items| - 1, Numbered(items);
    assert s[n] in multiset(numbered);
    var k :| 0 <= k < |numbered| && numbered[k] == s[n];
    assert numbered[n] in multiset(s);
    var j :| 0 <= j < |s| && s[j] == numbered[n];
  }

  /** A sorted arrangement of numbered items is the items in their first order. */
  lemma {:induction false} SortedIsNumbered(s: seq<Ordered>, items: seq<Object>)
    requires InOrder(s) && multiset(s) == multiset(Numbered(items))
    ensures s == Numbered(items)
    decreases |items|
  {
    assert |s| == |multiset(s)| == |multiset(Numbered(items))| == |items|;
    if items != [] {
      var n := |items| - 1;
      LastOfSorted(s, items);
      NumberedGrows(items);
      assert s == s[..n] + [s[n]];
      assert multiset(s[..n]) == multiset(s) - multiset{s[n]};
      assert multiset(Numbered(items[..n])) == multiset(Numbered(items)) - multiset{s[n]};
      SortedIsNumbered(s[..n], items[..n]);
    }
  }

  /** Whatever order the groups come in, sorting by order gives the items back. */
  lemma RegroupingIsIdentity(raw: seq<Ordered>, items: seq<Object>)
    requires multiset(raw) == multiset(Numbered(items))
    ensures Arrange(raw) == Some(items)
  {
    SortedIsNumbered(SortOrdered(raw), items);
    assert Arrange(raw).value == items;
  }

  lemma {:induction false} GatheredIsGrouped(
      show: Show, kind: Kind, items: seq<Object>, nodes: seq<NodeParts>, owners: seq<string>)
    requires KnownItems(kind, items) && AllWellFiled(nodes) && |owners| == |nodes|
    requires forall i :: 0 <= i < |nodes| ==> Side(kind, nodes[i]) == Owned(show, kind, items, owners[i])
    ensures Gathered(kind, nodes) == Grouped(show, kind, items, owners)
    decreases |nodes|
  {
    if nodes != [] { GatheredIsGrouped(show, kind, items, nodes[..|nodes| - 1], owners[..|nodes| - 1]); }
  }

  lemma ArrangedIsBack(show: Show, kind: Kind, items: seq<Object>, nodes: seq<NodeParts>, owners: seq<string>)
    requires KnownItems(kind, items) && AllWellFiled(nodes) && |owners| == |nodes| && Distinct(owners)
    requires forall i :: 0 <= i < |nodes| ==> Side(kind, nodes[i]) == Owned(show, kind, items, owners[i])
    requires forall i :: 0 <= i < |items| ==> Owner(show, kind, items[i]) in owners
    ensures Arrange(Gathered(kind, nodes)) == Some(items)
  {
    GatheredIsGrouped(show, kind, items, nodes, owners);
    GroupsHoldAll(show, kind, items, owners);
    RegroupingIsIdentity(Gathered(kind, nodes), items);
  }

  // ----- the network -----

  ghost function Ids(show: Show, parts: Parts): seq<string>
    requires KnownParts(parts)
  {
    seq(|parts.components|, i requires 0 <= i < |parts.components| => show(parts.components[i]["id"]))
  }

  lemma OwnersAreIds(show: Show, parts: Parts)
    requires IsShow(show) && KnownParts(parts) && Connected(parts)
    ensures Distinct(Ids(show, parts))
    ensures forall i :: 0 <= i < |parts.edges| ==> Owner(show, Edges, parts.edges[i]) in Ids(show, parts)
    ensures forall i :: 0 <= i < |parts.iips| ==> Owner(show, Iips, parts.iips[i]) in Ids(show, parts)
    ensures OwnersAreStrings(Edges, parts.edges) && OwnersAreStrings(Iips, parts.iips)
  {
    var ids := Ids(show, parts);
    forall name | IsId(parts, name)
      ensures name.Str? && name.s in ids
    {
      var j :| 0 <= j < |parts.components| && parts.components[j]["id"] == name;
      assert ids[j] == name.s;
    }
  }

  lemma IdIsSeen(show: Show, parts: Parts, nodes: seq<NodeParts>, name: Value)
    requires IsShow(show) && KnownParts(parts) && Connected(parts) && nodes == PartsOfNodes(show, parts)
    requires IsId(parts, name)
    ensures Seen(name, nodes)
  {
    var j :| 0 <= j < |parts.components| && parts.components[j]["id"] == name;
    assert name == P.Str(nodes[j].name);
  }

  lemma EndpointsAreSeen(show: Show, parts: Parts, nodes: seq<NodeParts>)
    requires IsShow(show) && KnownParts(parts) && Connected(parts) && nodes == PartsOfNodes(show, parts)
    ensures EndpointsSeen(parts.edges, nodes)
  {
    forall i | 0 <= i < |parts.edges|
      ensures Seen(parts.edges[i]["source"], nodes) && Seen(parts.edges[i]["target"], nodes)
    {
      IdIsSeen(show, parts, nodes, parts.edges[i]["source"]);
      IdIsSeen(show, parts, nodes, parts.edges[i]["target"]);
    }
  }

  lemma SidesAreOwned(show: Show, parts: Parts, nodes: seq<NodeParts>)
    requires KnownParts(parts) && nodes == PartsOfNodes(show, parts)
    ensures forall i :: 0 <= i < |nodes| ==>
      Side(Edges, nodes[i]) == Owned(show, Edges, parts.edges, Ids(show, parts)[i])
    ensures forall i :: 0 <= i < |nodes| ==> Side(Iips, nodes[i]) == Owned(show, Iips, parts.iips, Ids(show, parts)[i])
  {
  }

  lemma ItemsAreBack(show: Show, parts: Parts, nodes: seq<NodeParts>, ids: seq<string>)
    requires KnownParts(parts) && AllWellFiled(nodes) && nodes == PartsOfNodes(show, parts) && ids == Ids(show, parts)
    requires Distinct(ids)
    requires forall i :: 0 <= i < |parts.edges| ==> Owner(show, Edges, parts.edges[i]) in ids
    requires forall i :: 0 <= i < |parts.iips| ==> Owner(show, Iips, parts.iips[i]) in ids
    ensures Arrange(Gathered(Edges, nodes)) == Some(parts.edges) && Arrange(Gathered(Iips, nodes)) == Some(parts.iips)
  {
    SidesAreOwned(show, parts, nodes);
    ArrangedIsBack(show, Edges, parts.edges, nodes, ids);
    ArrangedIsBack(show, Iips, parts.iips, nodes, ids);
  }

  lemma ComponentsAreBack(show: Show, parts: Parts)
    requires KnownParts(parts)
    ensures ComponentsOf(PartsOfNodes(show, parts)) == parts.components
  {
  }

  lemma AssembleOf(show: Show, parts: Parts, nodes: seq<NodeParts>)
    requires AllWellFiled(nodes) && ComponentsOf(nodes) == parts.components
    requires Arrange(Gathered(Edges, nodes)) == Some(parts.edges) && Arrange(Gathered(Iips, nodes)) == Some(parts.iips)
    requires KnownItems(Edges, parts.edges) && EndpointsSeen(parts.edges, nodes)
    ensures Assemble(show, nodes, Connections(show, parts.edges)) == Some(parts)
  {
  }

  lemma AssembledIsBack(show: Show, parts: Parts, nodes: seq<NodeParts>)
    requires IsShow(show) && KnownParts(parts) && Connected(parts) && AllWellFiled(nodes)
      && nodes == PartsOfNodes(show, parts)
    ensures Assemble(show, nodes, Connections(show, parts.edges)) == Some(parts)
  {
    OwnersAreIds(show, parts);
    ItemsAreBack(show, parts, nodes, Ids(show, parts));
    EndpointsAreSeen(show, parts, nodes);
    ComponentsAreBack(show, parts);
    AssembleOf(show, parts, nodes);
  }

  lemma FieldsOfDicts(objects: seq<Object>)
    ensures AllDicts(AsDicts(objects)) && Fields(AsDicts(objects)) == objects
  {
  }

  lemma DictsOfFields(items: seq<Value>)
    requires AllDicts(items)
    ensures AsDicts(Fields(items)) == items
  {
  }

  lemma NetworkIsBack(network: Object, parts: Parts)
    requires PartsOf(network) == Some(parts)
    ensures KeysOk(NetworkKeys(network)) && NetworkOf(NetworkKeys(network), parts) == network
  {
    DictsOfFields(network["components"].items);
    if "edges" in network { DictsOfFields(network["edges"].items); }
    if "iips" in network { DictsOfFields(network["iips"].items); }
    var keys := NetworkKeys(network);
    assert keys[0] == P.Str("components");
    assert "edges" in network ==> keys[1] == P.Str("edges");
    assert "iips" in network ==> keys[|keys| - 1] == P.Str("iips");
  }

  lemma RequestedAreBack(show: Show, components: seq<Requested>, values: seq<Value>)
    requires IsShow(show) && values == RequestedDicts(components)
    ensures forall i :: 0 <= i < |values| ==> IsRequested(values[i])
    ensures
      components ==
        seq(|values|, i requires 0 <= i < |values| && IsRequested(values[i]) => RequestedFrom(show, values[i]))
  {
    assert forall i :: 0 <= i < |values| ==> IsRequested(values[i]) && RequestedFrom(show, values[i]) == components[i];
  }

  lemma GrantsAreBack(show: Show, envelopes: seq<EnvelopeGrant>, values: seq<Value>)
    requires IsShow(show) && values == GrantDicts(envelopes)
    ensures forall i :: 0 <= i < |values| ==> IsGrant(values[i])
    ensures seq(|values|, i requires 0 <= i < |values| && IsGrant(values[i]) => GrantFrom(show, values[i])) == envelopes
  {
    assert forall i :: 0 <= i < |values| ==> IsGrant(values[i]) && GrantFrom(show, values[i]) == envelopes[i];
  }

  ghost predicate Describes(meta: Object, d: Design) {
    && Field(meta, "schema", P.Str("")) == P.Str(d.schema) && Field(meta, "id", P.Str("")) == P.Str(d.id)
    && Field(meta, "title", P.Str("")) == P.Str(d.title) && Field(meta, "metadata", P.Dict(map[])) == P.Dict(d.metadata)
    && Field(meta, "components", P.List([])) == P.List(RequestedDicts(d.components))
    && Field(meta, "envelopes", P.List([])) == P.List(GrantDicts(d.envelopes))
  }

  lemma MetaFields(d: Design)
    ensures var meta := MetaOf(d);
      && Field(meta, "projection", P.Null) == P.Str(PROJECTION)
      && Field(meta, "network_keys", P.Null) == P.List(NetworkKeys(d.network))
      && Describes(meta, d)
  {
    assert d.envelopes == [] ==> GrantDicts(d.envelopes) == [];
  }

  lemma DesignIsBack(show: Show, meta: Object, d: Design)
    requires IsShow(show) && ValidDesign(d) && Describes(meta, d)
    ensures DesignFrom(show, meta, d.network) == Some(d)
  {
    RequestedAreBack(show, d.components, RequestedDicts(d.components));
    GrantsAreBack(show, d.envelopes, GrantDicts(d.envelopes));
  }

  lemma WorkflowFields(name: string, nodes: seq<Value>, connections: Object, meta: Object)
    ensures var w := Workflow(name, nodes, connections, meta).fields;
      && Field(w, "nodes", P.Null) == P.List(nodes) && Field(w, "connections", P.Null) == P.Dict(connections)
      && Field(w, "meta", P.Null) == P.Dict(map["cbp" := P.Dict(meta)])
  {
  }

  lemma ImportedThrough(
      show: Show, nodes: seq<Value>, connections: Object, meta: Object, keys: seq<Value>, parsed: seq<NodeParts>,
      parts: Parts, d: Design)
    requires Field(meta, "projection", P.Null) == P.Str(PROJECTION)
      && Field(meta, "network_keys", P.Null) == P.List(keys)
    requires KeysOk(keys) && ParseNodes(nodes) == Some(parsed) && Assemble(show, parsed, connections) == Some(parts)
    requires DesignFrom(show, meta, NetworkOf(keys, parts)) == Some(d)
    ensures ImportedFrom(show, nodes, connections, P.Dict(meta)) == Some(d)
  {
  }

  lemma ImportedFields(show: Show, name: string, nodes: seq<Value>, connections: Object, meta: Object)
    ensures Imported(show, Workflow(name, nodes, connections, meta)) ==
      ImportedFrom(show, nodes, connections, P.Dict(meta))
  {
    WorkflowFields(name, nodes, connections, meta);
  }

  lemma ConnectedComesBack(show: Show, d: Design)
    requires IsShow(show) && ValidDesign(d) && PartsOf(d.network).Some? && Connected(PartsOf(d.network).value)
    ensures Imported(show, Exported(show, d).value) == Some(d)
  {
    var parts := PartsOf(d.network).value;
    NodesRoundTrip(show, parts);
    AssembledIsBack(show, parts, PartsOfNodes(show, parts));
    NetworkIsBack(d.network, parts);
    MetaFields(d);
    DesignIsBack(show, MetaOf(d), d);
    ImportedThrough(show, NodesOf(show, parts), Connections(show, parts.edges), MetaOf(d), NetworkKeys(d.network),
      PartsOfNodes(show, parts), parts, d);
    var name := if d.title != "" then d.title else d.id;
    ImportedFields(show, name, NodesOf(show, parts), Connections(show, parts.edges), MetaOf(d));
  }

  // ----- what is imported is connected -----

  ghost predicate NamedComponent(node: NodeParts) {
    node.name != "" && KnownComponent(node.component) && node.component["id"] == P.Str(node.name)
  }

  ghost predicate AllNamed(nodes: seq<NodeParts>) {
    forall i :: 0 <= i < |nodes| ==> NamedComponent(nodes[i])
  }

  lemma ParsedBodyIsNamed(name: string, body: Object)
    requires name != "" && ParseBody(name, body).Some?
    ensures NamedComponent(ParseBody(name, body).value)
  {
  }

  lemma ParsedNodesAreNamed(nodes: seq<Value>)
    requires ParseNodes(nodes).Some?
    ensures var parsed := ParseNodes(nodes).value;
      DistinctNames(parsed) && AllNamed(parsed)
  {
    forall i | 0 <= i < |nodes|
      ensures NamedComponent(ParseNode(nodes[i]).value)
    {
      assert ParseNode(nodes[i]).Some?;
      var fields := nodes[i].fields;
      ParsedBodyIsNamed(fields["name"].s, fields["parameters"].fields["cbp"].fields);
    }
  }

  lemma SeenIsId(nodes: seq<NodeParts>, parts: Parts, name: Value)
    requires KnownParts(parts) && parts.components == ComponentsOf(nodes)
    requires AllNamed(nodes)
    requires Seen(name, nodes)
    ensures IsId(parts, name)
  {
    var j :| 0 <= j < |nodes| && name == P.Str(nodes[j].name);
    assert parts.components[j]["id"] == name;
  }

  lemma ArrangedIsSeen(kind: Kind, nodes: seq<NodeParts>, items: seq<Object>)
    requires AllWellFiled(nodes) && Arrange(Gathered(kind, nodes)) == Some(items)
    ensures KnownItems(kind, items)
    ensures forall i :: 0 <= i < |items| ==> Seen(items[i][OwnerKey(kind)], nodes)
  {
    var raw := Gathered(kind, nodes);
    forall i | 0 <= i < |items|
      ensures KnownItem(kind, items[i]) && Seen(items[i][OwnerKey(kind)], nodes)
    {
      var j :| 0 <= j < |raw| && raw[j].1 == items[i];
    }
  }

  lemma AssembledPasses(show: Show, nodes: seq<NodeParts>, connections: Object, parts: Parts)
    requires AllWellFiled(nodes) && Assemble(show, nodes, connections) == Some(parts)
    ensures Arrange(Gathered(Edges, nodes)) == Some(parts.edges) && Arrange(Gathered(Iips, nodes)) == Some(parts.iips)
    ensures KnownItems(Edges, parts.edges) && EndpointsSeen(parts.edges, nodes)
      && parts.components == ComponentsOf(nodes)
  {
  }

  lemma NamedIsConnected(nodes: seq<NodeParts>, parts: Parts)
    requires DistinctNames(nodes) && parts.components == ComponentsOf(nodes) && KnownParts(parts)
    requires AllNamed(nodes)
    requires EndpointsSeen(parts.edges, nodes)
    requires forall i :: 0 <= i < |parts.iips| ==> Seen(parts.iips[i]["component"], nodes)
    ensures Connected(parts)
  {
    forall name | Seen(name, nodes)
      ensures IsId(parts, name)
    {
      SeenIsId(nodes, parts, name);
    }
  }

  lemma ArrangedIsConnected(nodes: seq<NodeParts>, parts: Parts)
    requires AllWellFiled(nodes) && DistinctNames(nodes) && AllNamed(nodes) && parts.components == ComponentsOf(nodes)
    requires Arrange(Gathered(Edges, nodes)) == Some(parts.edges) && Arrange(Gathered(Iips, nodes)) == Some(parts.iips)
    requires KnownItems(Edges, parts.edges) && EndpointsSeen(parts.edges, nodes)
    ensures KnownParts(parts) && Connected(parts)
  {
    ArrangedIsSeen(Iips, nodes, parts.iips);
    ComponentsAreKnown(nodes, parts);
    NamedIsConnected(nodes, parts);
  }

  lemma ComponentsAreKnown(nodes: seq<NodeParts>, parts: Parts)
    requires AllWellFiled(nodes) && AllNamed(nodes) && parts.components == ComponentsOf(nodes)
    ensures KnownComponents(parts.components)
  {
  }

  /** The parts a network is read back as: an undeclared list of edges or packets is empty. */
  function Kept(keys: seq<Value>, parts: Parts): Parts {
    Parts(parts.components, if P.Str("edges") in keys then parts.edges else [],
      if P.Str("iips") in keys then parts.iips else [])
  }

  lemma NetworkParts(keys: seq<Value>, parts: Parts)
    requires KnownParts(parts)
    ensures PartsOf(NetworkOf(keys, parts)) == Some(Kept(keys, parts))
  {
    FieldsOfDicts(parts.components);
    FieldsOfDicts(parts.edges);
    FieldsOfDicts(parts.iips);
    var network := NetworkOf(keys, parts);
    assert network["components"] == P.List(AsDicts(parts.components));
    assert Fields([]) == [];
  }

  lemma NetworkIsConnected(keys: seq<Value>, parts: Parts)
    requires KnownParts(parts) && Connected(parts)
    ensures PartsOf(NetworkOf(keys, parts)).Some? && Connected(PartsOf(NetworkOf(keys, parts)).value)
  {
    NetworkParts(keys, parts);
  }

  lemma ImportedFromPasses(show: Show, nodes: seq<Value>, connections: Object, cbp: Value, d: Design)
    returns (parsed: seq<NodeParts>, keys: seq<Value>, parts: Parts)
    requires ImportedFrom(show, nodes, connections, cbp) == Some(d)
    ensures AllWellFiled(parsed) && DistinctNames(parsed) && AllNamed(parsed)
      && Assemble(show, parsed, connections) == Some(parts)
    ensures d.network == NetworkOf(keys, parts) && ValidDesign(d)
  {
    parsed := ParseNodes(nodes).value;
    ParsedNodesAreNamed(nodes);
    keys := cbp.fields["network_keys"].items;
    parts := Assemble(show, parsed, connections).value;
  }

  lemma ImportedFromIsConnected(show: Show, nodes: seq<Value>, connections: Object, cbp: Value, d: Design)
    requires ImportedFrom(show, nodes, connections, cbp) == Some(d)
    ensures ValidDesign(d) && PartsOf(d.network).Some? && Connected(PartsOf(d.network).value)
  {
    var parsed, keys, parts := ImportedFromPasses(show, nodes, connections, cbp, d);
    AssembledPasses(show, parsed, connections, parts);
    ArrangedIsConnected(parsed, parts);
    NetworkIsConnected(keys, parts);
  }

  lemma ImportedIsConnected(show: Show, w: Value, d: Design)
    requires Imported(show, w) == Some(d)
    ensures ValidDesign(d) && PartsOf(d.network).Some? && Connected(PartsOf(d.network).value)
  {
    ImportedFromIsConnected(show, w.fields["nodes"].items, w.fields["connections"].fields,
      Field(w.fields["meta"].fields, "cbp", P.Null), d);
  }

  // ----- the laws -----

  /** An exportable design comes back as it was exactly when it is connected. */
  lemma RoundTripExactly(show: Show, d: Design)
    requires IsShow(show) && ValidDesign(d) && PartsOf(d.network).Some?
    ensures Imported(show, Exported(show, d).value) == Some(d) <==> Connected(PartsOf(d.network).value)
  {
    if Connected(PartsOf(d.network).value) {
      ConnectedComesBack(show, d);
    } else if Imported(show, Exported(show, d).value) == Some(d) {
      ImportedIsConnected(show, Exported(show, d).value, d);
    }
  }

  /** Whatever workflow was accepted, exporting its design and importing that gives the design again. */
  lemma ImportIsStable(show: Show, w: Value, d: Design)
    requires IsShow(show) && Imported(show, w) == Some(d)
    ensures Exported(show, d).Some? && Imported(show, Exported(show, d).value) == Some(d)
  {
    ImportedIsConnected(show, w, d);
    ConnectedComesBack(show, d);
  }

  // ----- what is lost without a word -----

  ghost predicate OwnedBySome(show: Show, parts: Parts, item: Object)
    requires KnownParts(parts) && KnownItem(Iips, item)
  {
    exists i :: 0 <= i < |parts.components| && show(parts.components[i]["id"]) == Owner(show, Iips, item)
  }

  lemma StrayPacketChangesNoNode(show: Show, parts: Parts, stray: Object)
    requires KnownParts(parts) && KnownItem(Iips, stray) && !OwnedBySome(show, parts, stray)
    ensures NodesOf(show, parts.(iips := parts.iips + [stray])) == NodesOf(show, parts)
  {
    var more := parts.(iips := parts.iips + [stray]);
    assert KnownItems(Iips, more.iips) by {
      assert forall i :: 0 <= i < |parts.iips| ==> more.iips[i] == parts.iips[i];
    }
    forall i | 0 <= i < |parts.components|
      ensures NodeOf(show, more, i) == NodeOf(show, parts, i)
    {
      var name := show(parts.components[i]["id"]);
      assert more.iips[..|parts.iips|] == parts.iips;
      assert Owned(show, Iips, more.iips, name) == Owned(show, Iips, parts.iips, name);
      assert EntriesFor(show, Iips, more.iips, name) == EntriesFor(show, Iips, parts.iips, name);
    }
  }

  /**
   An initial packet for no component, last in its list, leaves no trace: the workflow is
   the same as without it, so the import succeeds and returns a different design.
   */
  lemma StrayPacketIsLost(show: Show, d: Design, stray: Object)
    requires IsShow(show) && ValidDesign(d) && PartsOf(d.network).Some? && Connected(PartsOf(d.network).value)
    requires "iips" in d.network && KnownItem(Iips, stray) && !OwnedBySome(show, PartsOf(d.network).value, stray)
    ensures var d' := d.(network := d.network["iips" := P.List(d.network["iips"].items + [P.Dict(stray)])]);
      Exported(show, d') == Exported(show, d) && Imported(show, Exported(show, d').value) == Some(d) && d' != d
  {
    var parts := PartsOf(d.network).value;
    var items := d.network["iips"].items;
    var network := d.network["iips" := P.List(items + [P.Dict(stray)])];
    assert Fields(items + [P.Dict(stray)]) == parts.iips + [stray];
    assert PartsOf(network) == Some(parts.(iips := parts.iips + [stray]));
    StrayPacketChangesNoNode(show, parts, stray);
    assert NetworkKeys(network) == NetworkKeys(d.network);
    ConnectedComesBack(show, d);
    assert |network["iips"].items| != |d.network["iips"].items|;
  }
}
