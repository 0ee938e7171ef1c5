/** Importing a workflow and exporting it back: exactly which workflows are reproduced. */
module Canonical {
  import opened Wrappers
  import P = Ports
  import opened Projection
  import opened RoundTrip

  // ----- what is read off a workflow -----

  function ObjectAt(value: Value, key: string): Object {
    if value.Dict? && key in value.fields && value.fields[key].Dict? then value.fields[key].fields else map[]
  }

  function ListAt(value: Value, key: string): seq<Value> {
    if value.Dict? && key in value.fields && value.fields[key].List? then value.fields[key].items else []
  }

  function TextAt(fields: Object, key: string): string {
    if key in fields && fields[key].Str? then fields[key].s else ""
  }

  function MetaAt(w: Value): Object {
    ObjectAt(P.Dict(ObjectAt(w, "meta")), "cbp")
  }

  function NodeName(node: Value): string {
    if node.Dict? then TextAt(node.fields, "name") else ""
  }

  function NodeBodyAt(node: Value): Object {
    ObjectAt(P.Dict(ObjectAt(node, "parameters")), "cbp")
  }

  function EntriesKey(kind: Kind): string {
    if kind.Edges? then "inputs" else "iips"
  }

  function EntriesAt(kind: Kind, body: Object): seq<Value> {
    ListAt(P.Dict(body), EntriesKey(kind))
  }

  // ----- the canonical form, checkable on the workflow alone -----

  predicate SaysOrder(entry: Value) {
    entry.Dict? && "cbp_order" in entry.fields && entry.fields["cbp_order"].Int?
  }

  function OrderAt(entry: Value): int {
    if SaysOrder(entry) then entry.fields["cbp_order"].i else 0
  }

  /** Every entry says its place in the list, and they are in that order. */
  predicate CanonicalEntries(entries: seq<Value>) {
    && (forall i :: 0 <= i < |entries| ==> SaysOrder(entries[i]))
    && forall i, j :: 0 <= i < j < |entries| ==> OrderAt(entries[i]) < OrderAt(entries[j])
  }

  predicate CanonicalBody(body: Object) {
    && "inputs" in body && body["inputs"].List? && CanonicalEntries(body["inputs"].items)
    && "iips" in body && body["iips"].List? && CanonicalEntries(body["iips"].items)
  }

  /** Exactly the six keys, with the computed id, version and position. */
  predicate CanonicalNode(node: Value, index: nat) {
    node == Node(NodeName(node), index, NodeBodyAt(node)) && CanonicalBody(NodeBodyAt(node))
  }

  predicate CanonicalNodes(nodes: seq<Value>) {
    forall i :: 0 <= i < |nodes| ==> CanonicalNode(nodes[i], i)
  }

  predicate NoEntries(kind: Kind, nodes: seq<Value>) {
    forall i :: 0 <= i < |nodes| ==> EntriesAt(kind, NodeBodyAt(nodes[i])) == []
  }

  /** An undeclared list is empty on every node. */
  predicate Declared(keys: seq<Value>, nodes: seq<Value>) {
    && (P.Str("edges") !in keys ==> NoEntries(Edges, nodes))
    && (P.Str("iips") !in keys ==> NoEntries(Iips, nodes))
  }

  predicate CanonicalKeys(keys: seq<Value>) {
    keys == [P.Str("components")]
      + (if P.Str("edges") in keys then [P.Str("edges")] else [])
      + if P.Str("iips") in keys then [P.Str("iips")] else []
  }

  predicate CanonicalRequested(c: Value) {
    c.Dict? && c == RequestedToDict(Requested(TextAt(c.fields, "name"), TextAt(c.fields, "requested")))
  }

  predicate CanonicalGrant(e: Value) {
    e.Dict? && e == GrantToDict(EnvelopeGrant(TextAt(e.fields, "component"), ObjectAt(e, "bounds")))
  }

  const META_KEYS: set<string> := {"projection", "schema", "id", "title", "components", "metadata", "network_keys"}

  /** Exactly the known keys, with text where text is meant, and envelopes only when there are some. */
  predicate CanonicalMeta(meta: Object) {
    var cbp := P.Dict(meta);
    && meta.Keys == META_KEYS + (if ListAt(cbp, "envelopes") == [] then {} else {"envelopes"})
    && meta["schema"].Str? && meta["id"].Str? && meta["title"].Str?
    && meta["components"].List?
    && (forall i :: 0 <= i < |ListAt(cbp, "components")| ==> CanonicalRequested(ListAt(cbp, "components")[i]))
    && meta["metadata"].Dict?
    && (forall i :: 0 <= i < |ListAt(cbp, "envelopes")| ==> CanonicalGrant(ListAt(cbp, "envelopes")[i]))
    && meta["network_keys"].List? && CanonicalKeys(ListAt(cbp, "network_keys"))
  }

  function NameFor(meta: Object): string {
    if TextAt(meta, "title") != "" then TextAt(meta, "title") else TextAt(meta, "id")
  }

  /**
   Exactly the five top-level keys: name from the title or else the id, empty settings, canonical
   nodes and metadata.
   */
  predicate CanonicalWorkflow(w: Value) {
    var meta, nodes := MetaAt(w), ListAt(w, "nodes");
    && w == Workflow(NameFor(meta), nodes, ObjectAt(w, "connections"), meta)
    && CanonicalNodes(nodes) && CanonicalMeta(meta) && Declared(ListAt(P.Dict(meta), "network_keys"), nodes)
  }

  // ----- exports are canonical -----

  predicate Ascends(s: seq<Ordered>) {
    forall i, j :: 0 <= i < j < |s| ==> s[i].0 < s[j].0
  }

  lemma OwnedAscends(show: Show, kind: Kind, items: seq<Object>, owner: string)
    requires KnownItems(kind, items)
    ensures Ascends(Owned(show, kind, items, owner))
  {
    if items != [] { OwnedAscends(show, kind, items[..|items| - 1], owner); }
  }

  lemma EntryOrder(kind: Kind, item: Object, order: int)
    requires KnownItem(kind, item)
    ensures SaysOrder(Entry(kind, item, order)) && OrderAt(Entry(kind, item, order)) == order
  {
  }

  lemma ExportedOrder(show: Show, kind: Kind, items: seq<Object>, owner: string, i: nat)
    requires KnownItems(kind, items) && i < |Owned(show, kind, items, owner)|
    ensures var entries := EntriesFor(show, kind, items, owner);
      && |entries| == |Owned(show, kind, items, owner)|
      && SaysOrder(entries[i]) && OrderAt(entries[i]) == Owned(show, kind, items, owner)[i].0
  {
    var owned := Owned(show, kind, items, owner);
    EntryOrder(kind, owned[i].1, owned[i].0);
  }

  lemma AscendingEntriesAreCanonical(entries: seq<Value>, orders: seq<Ordered>)
    requires |entries| == |orders| && Ascends(orders)
    requires forall i :: 0 <= i < |entries| ==> SaysOrder(entries[i]) && OrderAt(entries[i]) == orders[i].0
    ensures CanonicalEntries(entries)
  {
  }

  lemma ExportedEntriesAreCanonical(show: Show, kind: Kind, items: seq<Object>, owner: string)
    requires KnownItems(kind, items)
    ensures CanonicalEntries(EntriesFor(show, kind, items, owner))
  {
    var owned, entries := Owned(show, kind, items, owner), EntriesFor(show, kind, items, owner);
    OwnedAscends(show, kind, items, owner);
    forall i | 0 <= i < |entries|
      ensures SaysOrder(entries[i]) && OrderAt(entries[i]) == owned[i].0
    {
      ExportedOrder(show, kind, items, owner, i);
    }
    AscendingEntriesAreCanonical(entries, owned);
  }

  lemma NodeIsRead(name: string, index: nat, body: Object)
    ensures NodeName(Node(name, index, body)) == name && NodeBodyAt(Node(name, index, body)) == body
  {
    var node := Node(name, index, body).fields;
    assert node["name"] == P.Str(name) && node["parameters"] == P.Dict(map["cbp" := P.Dict(body)]);
    assert ObjectAt(Node(name, index, body), "parameters") == map["cbp" := P.Dict(body)];
  }

  lemma BodyIsRead(c: Object, inputs: seq<Value>, iips: seq<Value>)
    requires KnownComponent(c)
    ensures var body := NodeBody(c, inputs, iips);
      && "inputs" in body && body["inputs"] == P.List(inputs) && "iips" in body && body["iips"] == P.List(iips)
      && EntriesAt(Edges, body) == inputs && EntriesAt(Iips, body) == iips
  {
  }

  lemma ExportedNodeIsCanonical(show: Show, parts: Parts, i: nat)
    requires KnownParts(parts) && i < |parts.components|
    ensures CanonicalNode(NodeOf(show, parts, i), i)
    ensures parts.edges == [] ==> EntriesAt(Edges, NodeBodyAt(NodeOf(show, parts, i))) == []
    ensures parts.iips == [] ==> EntriesAt(Iips, NodeBodyAt(NodeOf(show, parts, i))) == []
  {
    var name := show(parts.components[i]["id"]);
    var inputs, iips := EntriesFor(show, Edges, parts.edges, name), EntriesFor(show, Iips, parts.iips, name);
    BodyIsRead(parts.components[i], inputs, iips);
    NodeIsRead(name, i, NodeBody(parts.components[i], inputs, iips));
    ExportedEntriesAreCanonical(show, Edges, parts.edges, name);
    ExportedEntriesAreCanonical(show, Iips, parts.iips, name);
  }

  lemma ExportedKeysAreCanonical(network: Object, parts: Parts)
    requires PartsOf(network) == Some(parts)
    ensures CanonicalKeys(NetworkKeys(network))
    ensures P.Str("edges") !in NetworkKeys(network) ==> parts.edges == []
    ensures P.Str("iips") !in NetworkKeys(network) ==> parts.iips == []
  {
    var keys := NetworkKeys(network);
    assert "components" in network;
    assert P.Str("edges") in keys <==> "edges" in network;
    assert P.Str("iips") in keys <==> "iips" in network;
  }

  lemma ExportedRequestedAreCanonical(components: seq<Requested>)
    ensures forall i :: 0 <= i < |components| ==> CanonicalRequested(RequestedDicts(components)[i])
  {
    forall i | 0 <= i < |components|
      ensures CanonicalRequested(RequestedDicts(components)[i])
    {
      var c := RequestedToDict(components[i]);
      assert TextAt(c.fields, "name") == components[i].name && TextAt(c.fields, "requested") == components[i].requested;
    }
  }

  lemma ExportedGrantsAreCanonical(envelopes: seq<EnvelopeGrant>)
    ensures forall i :: 0 <= i < |envelopes| ==> CanonicalGrant(GrantDicts(envelopes)[i])
  {
    forall i | 0 <= i < |envelopes|
      ensures CanonicalGrant(GrantDicts(envelopes)[i])
    {
      var e := GrantToDict(envelopes[i]);
      assert TextAt(e.fields, "component") == envelopes[i].component && ObjectAt(e, "bounds") == envelopes[i].bounds;
    }
  }

  lemma MetaIsRead(d: Design)
    ensures var meta := MetaOf(d); var cbp := P.Dict(meta);
      && meta.Keys == META_KEYS + (if d.envelopes == [] then {} else {"envelopes"})
      && ListAt(cbp, "components") == RequestedDicts(d.components)
      && ListAt(cbp, "envelopes") == GrantDicts(d.envelopes)
      && ListAt(cbp, "network_keys") == NetworkKeys(d.network)
      && TextAt(meta, "title") == d.title && TextAt(meta, "id") == d.id
      && meta["schema"].Str? && meta["id"].Str? && meta["title"].Str?
      && meta["components"].List? && meta["metadata"].Dict? && meta["network_keys"].List?
  {
    assert d.envelopes == [] ==> GrantDicts(d.envelopes) == [];
  }

  lemma ExportedMetaIsCanonical(d: Design, parts: Parts)
    requires PartsOf(d.network) == Some(parts)
    ensures CanonicalMeta(MetaOf(d)) && NameFor(MetaOf(d)) == if d.title != "" then d.title else d.id
  {
    MetaIsRead(d);
    ExportedKeysAreCanonical(d.network, parts);
    ExportedRequestedAreCanonical(d.components);
    ExportedGrantsAreCanonical(d.envelopes);
  }

  lemma WorkflowIsRead(name: string, nodes: seq<Value>, connections: Object, meta: Object)
    ensures var w := Workflow(name, nodes, connections, meta);
      && MetaAt(w) == meta && ListAt(w, "nodes") == nodes && ObjectAt(w, "connections") == connections
  {
    var w := Workflow(name, nodes, connections, meta);
    WorkflowFields(name, nodes, connections, meta);
    assert ObjectAt(w, "meta") == map["cbp" := P.Dict(meta)];
  }

  lemma ExportedNodesAreCanonical(show: Show, parts: Parts)
    requires KnownParts(parts)
    ensures CanonicalNodes(NodesOf(show, parts))
  {
    forall i | 0 <= i < |NodesOf(show, parts)|
      ensures CanonicalNode(NodesOf(show, parts)[i], i)
    {
      ExportedNodeIsCanonical(show, parts, i);
    }
  }

  lemma ExportedNodesAreDeclared(show: Show, parts: Parts)
    requires KnownParts(parts)
    ensures parts.edges == [] ==> NoEntries(Edges, NodesOf(show, parts))
    ensures parts.iips == [] ==> NoEntries(Iips, NodesOf(show, parts))
  {
    var nodes := NodesOf(show, parts);
    forall i | 0 <= i < |nodes|
      ensures parts.edges == [] ==> EntriesAt(Edges, NodeBodyAt(nodes[i])) == []
      ensures parts.iips == [] ==> EntriesAt(Iips, NodeBodyAt(nodes[i])) == []
    {
      ExportedNodeIsCanonical(show, parts, i);
    }
  }

  /** Whatever is exported is canonical. */
  lemma ExportIsCanonical(show: Show, d: Design)
    requires Exported(show, d).Some?
    ensures CanonicalWorkflow(Exported(show, d).value)
  {
    var parts := PartsOf(d.network).value;
    var name := if d.title != "" then d.title else d.id;
    WorkflowIsRead(name, NodesOf(show, parts), Connections(show, parts.edges), MetaOf(d));
    ExportedMetaIsCanonical(d, parts);
    MetaIsRead(d);
    ExportedKeysAreCanonical(d.network, parts);
    ExportedNodesAreCanonical(show, parts);
    ExportedNodesAreDeclared(show, parts);
  }

  // ----- an arranged list, filtered by owner, is each node's own list -----

  predicate Keeps(kind: Kind, name: string, x: Ordered) {
    OwnerKey(kind) in x.1 && x.1[OwnerKey(kind)] == P.Str(name)
  }

  function Filtered(kind: Kind, name: string, raw: seq<Ordered>): seq<Ordered> {
    if raw == [] then []
    else
      var n := |raw| - 1;
      Filtered(kind, name, raw[..n]) + if Keeps(kind, name, raw[n]) then [raw[n]] else []
  }

  lemma {:induction false} FilteredJoin(kind: Kind, name: string, a: seq<Ordered>, b: seq<Ordered>)
    ensures Filtered(kind, name, a + b) == Filtered(kind, name, a) + Filtered(kind, name, b)
    decreases |b|
  {
    if b == [] {
      assert a + b == a;
    } else {
      var n := |b| - 1;
      FilteredJoin(kind, name, a, b[..n]);
      assert (a + b)[..|a + b| - 1] == a + b[..n];
    }
  }

  lemma {:induction false} FilteredSame(kind: Kind, name: string, raw: seq<Ordered>, keep: bool)
    requires forall i :: 0 <= i < |raw| ==> Keeps(kind, name, raw[i]) == keep
    ensures Filtered(kind, name, raw) == if keep then raw else []
    decreases |raw|
  {
    if raw != [] {
      FilteredSame(kind, name, raw[..|raw| - 1], keep);
      assert raw == raw[..|raw| - 1] + [raw[|raw| - 1]];
    }
  }

  lemma {:induction false} FilteredCount(kind: Kind, name: string, raw: seq<Ordered>, x: Ordered)
    ensures multiset(Filtered(kind, name, raw))[x] == if Keeps(kind, name, x) then multiset(raw)[x] else 0
    decreases |raw|
  {
    if raw != [] {
      var front, last := raw[..|raw| - 1], raw[|raw| - 1];
      FilteredCount(kind, name, front, x);
      assert raw == front + [last];
      CountAppend(front, last, x);
      CountAppend(Filtered(kind, name, front), last, x);
    }
  }

  lemma CountAppend(raw: seq<Ordered>, last: Ordered, x: Ordered)
    ensures multiset(raw + [last])[x] == multiset(raw)[x] + if last == x then 1 else 0
  {
  }

  lemma FilteredMultiset(kind: Kind, name: string, a: seq<Ordered>, b: seq<Ordered>)
    requires multiset(a) == multiset(b)
    ensures multiset(Filtered(kind, name, a)) == multiset(Filtered(kind, name, b))
  {
    forall x
      ensures multiset(Filtered(kind, name, a))[x] == multiset(Filtered(kind, name, b))[x]
    {
      FilteredCount(kind, name, a, x);
      FilteredCount(kind, name, b, x);
    }
  }

  lemma SideIsKept(kind: Kind, node: NodeParts, name: string)
    requires WellFiled(kind, node)
    ensures forall i :: 0 <= i < |Side(kind, node)| ==> Keeps(kind, name, Side(kind, node)[i]) == (node.name == name)
  {
  }

  lemma LastNodeFiltered(kind: Kind, nodes: seq<NodeParts>, name: string)
    requires nodes != [] && AllWellFiled(nodes)
    ensures var n := |nodes| - 1;
      var all, front := Filtered(kind, name, Gathered(kind, nodes)), Filtered(kind, name, Gathered(kind, nodes[..n]));
      if nodes[n].name == name then all == front + Side(kind, nodes[n]) else all == front
  {
    var n := |nodes| - 1;
    FilteredJoin(kind, name, Gathered(kind, nodes[..n]), Side(kind, nodes[n]));
    SideIsKept(kind, nodes[n], name);
    FilteredSame(kind, name, Side(kind, nodes[n]), nodes[n].name == name);
  }

  lemma {:induction false} AbsentFiltered(kind: Kind, nodes: seq<NodeParts>, name: string)
    requires AllWellFiled(nodes) && forall j :: 0 <= j < |nodes| ==> nodes[j].name != name
    ensures Filtered(kind, name, Gathered(kind, nodes)) == []
    decreases |nodes|
  {
    if nodes != [] {
      LastNodeFiltered(kind, nodes, name);
      AbsentFiltered(kind, nodes[..|nodes| - 1], name);
    }
  }

  lemma FrontIsWellFiled(nodes: seq<NodeParts>)
    requires nodes != [] && AllWellFiled(nodes) && DistinctNames(nodes)
    ensures AllWellFiled(nodes[..|nodes| - 1]) && DistinctNames(nodes[..|nodes| - 1])
    ensures forall j :: 0 <= j < |nodes| - 1 ==> nodes[j].name != nodes[|nodes| - 1].name
  {
  }

  lemma LastIsOnlyItsOwn(kind: Kind, nodes: seq<NodeParts>)
    requires nodes != [] && AllWellFiled(nodes) && DistinctNames(nodes)
    ensures var last := nodes[|nodes| - 1]; Filtered(kind, last.name, Gathered(kind, nodes)) == Side(kind, last)
  {
    var last := nodes[|nodes| - 1];
    LastNodeFiltered(kind, nodes, last.name);
    FrontIsWellFiled(nodes);
    AbsentFiltered(kind, nodes[..|nodes| - 1], last.name);
  }

  lemma LastIsNoOthers(kind: Kind, nodes: seq<NodeParts>, i: nat)
    requires AllWellFiled(nodes) && DistinctNames(nodes) && i < |nodes| - 1
    ensures AllWellFiled(nodes[..|nodes| - 1]) && DistinctNames(nodes[..|nodes| - 1])
    ensures Filtered(kind, nodes[i].name, Gathered(kind, nodes)) ==
      Filtered(kind, nodes[i].name, Gathered(kind, nodes[..|nodes| - 1]))
  {
    LastNodeFiltered(kind, nodes, nodes[i].name);
    FrontIsWellFiled(nodes);
  }

  /** Of all that is gathered, what is filed under a node's name is the node's own. */
  lemma {:induction false} GatheredFiltered(kind: Kind, nodes: seq<NodeParts>, i: nat)
    requires AllWellFiled(nodes) && DistinctNames(nodes) && i < |nodes|
    ensures Filtered(kind, nodes[i].name, Gathered(kind, nodes)) == Side(kind, nodes[i])
    decreases |nodes|
  {
    if i < |nodes| - 1 {
      LastIsNoOthers(kind, nodes, i);
      GatheredFiltered(kind, nodes[..|nodes| - 1], i);
    } else {
      LastIsOnlyItsOwn(kind, nodes);
    }
  }

  lemma {:induction false} OwnedIsFiltered(show: Show, kind: Kind, items: seq<Object>, name: string)
    requires IsShow(show) && KnownItems(kind, items) && OwnersAreStrings(kind, items)
    ensures Owned(show, kind, items, name) == Filtered(kind, name, Numbered(items))
    decreases |items|
  {
    if items != [] {
      var n := |items| - 1;
      OwnedIsFiltered(show, kind, items[..n], name);
      NumberedGrows(items);
      assert Numbered(items)[..n] == Numbered(items[..n]);
    }
  }

  lemma LastOfAscending(a: seq<Ordered>, b: seq<Ordered>)
    requires Ascends(a) && Ascends(b) && multiset(a) == multiset(b) && |a| == |b| > 0
    ensures a[|a| - 1] == b[|b| - 1]
  {
    var n := |a| - 1;
    assert a[n] in multiset(b) && b[n] in multiset(a);
    var k :| 0 <= k < |b| && b[k] == a[n];
    var j :| 0 <= j < |a| && a[j] == b[n];
  }

  lemma FrontsAgree(a: seq<Ordered>, b: seq<Ordered>, x: Ordered)
    requires multiset(a + [x]) == multiset(b + [x])
    ensures multiset(a) == multiset(b)
  {
    assert multiset(a) == multiset(a + [x]) - multiset{x};
    assert multiset(b) == multiset(b + [x]) - multiset{x};
  }

  /** Strictly ascending arrangements of the same items are the same. */
  lemma {:induction false} AscendingIsUnique(a: seq<Ordered>, b: seq<Ordered>)
    requires Ascends(a) && Ascends(b) && multiset(a) == multiset(b)
    ensures a == b
    decreases |a|
  {
    assert |a| == |multiset(a)| == |multiset(b)| == |b|;
    if a != [] {
      var n := |a| - 1;
      LastOfAscending(a, b);
      assert a == a[..n] + [a[n]] && b == b[..n] + [b[n]];
      FrontsAgree(a[..n], b[..n], a[n]);
      AscendingIsUnique(a[..n], b[..n]);
    }
  }

  lemma ArrangedIsNumbered(raw: seq<Ordered>, items: seq<Object>)
    requires Arrange(raw) == Some(items)
    ensures multiset(raw) == multiset(Numbered(items))
  {
    assert SortOrdered(raw) == Numbered(items);
  }

  /** Each node's entries, when they ascend, are what the arranged list files under it. */
  lemma OwnedIsSide(show: Show, kind: Kind, nodes: seq<NodeParts>, items: seq<Object>, i: nat)
    requires IsShow(show) && AllWellFiled(nodes) && DistinctNames(nodes) && i < |nodes|
    requires Arrange(Gathered(kind, nodes)) == Some(items) && KnownItems(kind, items) && OwnersAreStrings(kind, items)
    requires Ascends(Side(kind, nodes[i]))
    ensures Owned(show, kind, items, nodes[i].name) == Side(kind, nodes[i])
  {
    var name, raw := nodes[i].name, Gathered(kind, nodes);
    ArrangedIsNumbered(raw, items);
    FilteredMultiset(kind, name, raw, Numbered(items));
    GatheredFiltered(kind, nodes, i);
    OwnedIsFiltered(show, kind, items, name);
    OwnedAscends(show, kind, items, name);
    AscendingIsUnique(Owned(show, kind, items, name), Side(kind, nodes[i]));
  }

  // ----- a canonical workflow is rebuilt -----

  lemma EdgeEntryIsRebuilt(entry: Value, name: string, index: nat)
    requires SaysOrder(entry) && ParseEntry(Edges, name, entry, index).Some?
    ensures var (order, item) := ParseEntry(Edges, name, entry, index).value;
      order == OrderAt(entry) && Entry(Edges, item, order) == entry
  {
    var item := ParseEntry(Edges, name, entry, index).value.1;
    EdgeItem(entry, name, index);
    EdgeFields(entry.fields, item, OrderAt(entry));
  }

  lemma EdgeItem(entry: Value, name: string, index: nat)
    requires SaysOrder(entry) && ParseEntry(Edges, name, entry, index).Some?
    ensures var (order, item) := ParseEntry(Edges, name, entry, index).value; var e := entry.fields;
      && order == OrderAt(entry) && e["cbp_order"] == P.Int(order)
      && {"from", "field", "arg"} <= e.Keys <= {"from", "field", "arg", "capacity", "cbp_order"}
      && item["source"] == e["from"] && item["source_field"] == e["field"] && item["target_arg"] == e["arg"]
      && Restrict(item, {"capacity"}) == Restrict(e, {"capacity"})
  {
  }

  lemma EdgeFields(e: Object, item: Object, order: int)
    requires KnownItem(Edges, item) && "cbp_order" in e && e["cbp_order"] == P.Int(order)
    requires {"from", "field", "arg"} <= e.Keys <= {"from", "field", "arg", "capacity", "cbp_order"}
    requires item["source"] == e["from"] && item["source_field"] == e["field"] && item["target_arg"] == e["arg"]
    requires Restrict(item, {"capacity"}) == Restrict(e, {"capacity"})
    ensures Entry(Edges, item, order) == P.Dict(e)
  {
    assert Entry(Edges, item, order).fields == e;
  }

  lemma IipEntryIsRebuilt(entry: Value, name: string, index: nat)
    requires SaysOrder(entry) && ParseEntry(Iips, name, entry, index).Some?
    ensures var (order, item) := ParseEntry(Iips, name, entry, index).value;
      order == OrderAt(entry) && Entry(Iips, item, order) == entry
  {
    var item := ParseEntry(Iips, name, entry, index).value.1;
    assert Entry(Iips, item, OrderAt(entry)).fields == entry.fields;
  }

  lemma EntryIsRebuilt(kind: Kind, entry: Value, name: string, index: nat)
    requires SaysOrder(entry) && ParseEntry(kind, name, entry, index).Some?
    ensures var (order, item) := ParseEntry(kind, name, entry, index).value;
      order == OrderAt(entry) && Entry(kind, item, order) == entry
  {
    match kind
    case Edges => EdgeEntryIsRebuilt(entry, name, index);
    case Iips => IipEntryIsRebuilt(entry, name, index);
  }

  lemma ParsedAt(kind: Kind, name: string, entries: seq<Value>, side: seq<Ordered>, i: nat)
    requires ParseEntries(kind, name, entries) == Some(side) && i < |entries|
    ensures |side| == |entries| && ParseEntry(kind, name, entries[i], i) == Some(side[i])
  {
  }

  /** A node's canonical entries ascend, and are what the arranged list would be filed as. */
  lemma EntriesAreRebuilt(
      show: Show, kind: Kind, nodes: seq<NodeParts>, items: seq<Object>, i: nat, entries: seq<Value>)
    requires IsShow(show) && AllWellFiled(nodes) && DistinctNames(nodes) && i < |nodes|
    requires Arrange(Gathered(kind, nodes)) == Some(items) && KnownItems(kind, items) && OwnersAreStrings(kind, items)
    requires CanonicalEntries(entries) && ParseEntries(kind, nodes[i].name, entries) == Some(Side(kind, nodes[i]))
    ensures EntriesFor(show, kind, items, nodes[i].name) == entries
  {
    var side, name := Side(kind, nodes[i]), nodes[i].name;
    forall k | 0 <= k < |entries|
      ensures |side| == |entries| && side[k].0 == OrderAt(entries[k])
      ensures KnownItem(kind, side[k].1) && Entry(kind, side[k].1, side[k].0) == entries[k]
    {
      ParsedAt(kind, name, entries, side, k);
      EntryIsRebuilt(kind, entries[k], name, k);
    }
    assert |side| == |entries|;
    OwnedIsSide(show, kind, nodes, items, i);
    assert EntriesFor(show, kind, items, name) == entries;
  }

  lemma BodyParts(name: string, body: Object, node: NodeParts)
    requires CanonicalBody(body) && ParseBody(name, body) == Some(node)
    ensures node.name == name && body.Keys <= {"task", "inputs", "iips"} + COMPONENT_OPTIONAL && "task" in body
    ensures node.component == map["id" := P.Str(name), "task" := body["task"]] + Restrict(body, COMPONENT_OPTIONAL)
    ensures ParseEntries(Edges, name, body["inputs"].items) == Some(node.edges)
    ensures ParseEntries(Iips, name, body["iips"].items) == Some(node.iips)
  {
  }

  lemma BodyIsRebuilt(name: string, body: Object, component: Object, inputs: seq<Value>, iips: seq<Value>)
    requires body.Keys <= {"task", "inputs", "iips"} + COMPONENT_OPTIONAL && "task" in body
    requires "inputs" in body && body["inputs"] == P.List(inputs) && "iips" in body && body["iips"] == P.List(iips)
    requires component == map["id" := P.Str(name), "task" := body["task"]] + Restrict(body, COMPONENT_OPTIONAL)
    ensures KnownComponent(component) && NodeBody(component, inputs, iips) == body
  {
    ComponentIsKnown(name, body, component);
    var rebuilt := NodeBody(component, inputs, iips);
    assert rebuilt.Keys == body.Keys;
  }

  lemma ComponentIsKnown(name: string, body: Object, component: Object)
    requires "task" in body
    requires component == map["id" := P.Str(name), "task" := body["task"]] + Restrict(body, COMPONENT_OPTIONAL)
    ensures KnownComponent(component) && component["task"] == body["task"] && component["id"] == P.Str(name)
    ensures Restrict(component, COMPONENT_OPTIONAL) == Restrict(body, COMPONENT_OPTIONAL)
  {
  }

  lemma NodeParses(node: Value, index: nat, parsed: NodeParts)
    requires CanonicalNode(node, index) && ParseNode(node) == Some(parsed)
    ensures ParseBody(NodeName(node), NodeBodyAt(node)) == Some(parsed)
  {
    NodeIsRead(NodeName(node), index, NodeBodyAt(node));
    NodeRoundTrips(NodeName(node), index, NodeBodyAt(node));
  }

  /** The parts put together from parsed nodes. */
  ghost predicate PutTogether(nodes: seq<NodeParts>, parts: Parts) {
    && AllWellFiled(nodes) && DistinctNames(nodes)
    && Arrange(Gathered(Edges, nodes)) == Some(parts.edges) && Arrange(Gathered(Iips, nodes)) == Some(parts.iips)
    && KnownItems(Edges, parts.edges) && OwnersAreStrings(Edges, parts.edges)
    && KnownItems(Iips, parts.iips) && OwnersAreStrings(Iips, parts.iips)
  }

  lemma SidesAreRebuilt(
      show: Show, parts: Parts, nodes: seq<NodeParts>, i: nat, inputs: seq<Value>, iips: seq<Value>)
    requires IsShow(show) && PutTogether(nodes, parts) && i < |nodes|
    requires CanonicalEntries(inputs) && ParseEntries(Edges, nodes[i].name, inputs) == Some(nodes[i].edges)
    requires CanonicalEntries(iips) && ParseEntries(Iips, nodes[i].name, iips) == Some(nodes[i].iips)
    ensures EntriesFor(show, Edges, parts.edges, nodes[i].name) == inputs
    ensures EntriesFor(show, Iips, parts.iips, nodes[i].name) == iips
  {
    EntriesAreRebuilt(show, Edges, nodes, parts.edges, i, inputs);
    EntriesAreRebuilt(show, Iips, nodes, parts.iips, i, iips);
  }

  /** What a canonical body and its parse have to do with each other. */
  ghost predicate Holds(body: Object, parsed: NodeParts) {
    var inputs, iips := EntriesAt(Edges, body), EntriesAt(Iips, body);
    && body.Keys <= {"task", "inputs", "iips"} + COMPONENT_OPTIONAL && "task" in body
    && "inputs" in body && body["inputs"] == P.List(inputs) && CanonicalEntries(inputs)
    && "iips" in body && body["iips"] == P.List(iips) && CanonicalEntries(iips)
    && parsed.component == map["id" := P.Str(parsed.name), "task" := body["task"]] + Restrict(body, COMPONENT_OPTIONAL)
    && ParseEntries(Edges, parsed.name, inputs) == Some(parsed.edges)
    && ParseEntries(Iips, parsed.name, iips) == Some(parsed.iips)
  }

  lemma CanonicalNodeHolds(node: Value, index: nat, parsed: NodeParts)
    requires CanonicalNode(node, index) && ParseNode(node) == Some(parsed)
    ensures node == Node(parsed.name, index, NodeBodyAt(node)) && Holds(NodeBodyAt(node), parsed)
  {
    NodeParses(node, index, parsed);
    BodyParts(NodeName(node), NodeBodyAt(node), parsed);
  }

  lemma BodyIsHeld(body: Object, parsed: NodeParts)
    requires Holds(body, parsed)
    ensures KnownComponent(parsed.component) && parsed.component["id"] == P.Str(parsed.name)
    ensures NodeBody(parsed.component, EntriesAt(Edges, body), EntriesAt(Iips, body)) == body
  {
    ComponentIsKnown(parsed.name, body, parsed.component);
    BodyIsRebuilt(parsed.name, body, parsed.component, EntriesAt(Edges, body), EntriesAt(Iips, body));
  }

  lemma SidesAreHeld(show: Show, parts: Parts, nodes: seq<NodeParts>, i: nat, body: Object)
    requires IsShow(show) && PutTogether(nodes, parts) && i < |nodes| && Holds(body, nodes[i])
    ensures EntriesFor(show, Edges, parts.edges, nodes[i].name) == EntriesAt(Edges, body)
    ensures EntriesFor(show, Iips, parts.iips, nodes[i].name) == EntriesAt(Iips, body)
  {
    SidesAreRebuilt(show, parts, nodes, i, EntriesAt(Edges, body), EntriesAt(Iips, body));
  }

  lemma NodeOfParsed(show: Show, parts: Parts, i: nat, name: string, inputs: seq<Value>, iips: seq<Value>)
    requires IsShow(show) && KnownParts(parts) && i < |parts.components| && parts.components[i]["id"] == P.Str(name)
    requires EntriesFor(show, Edges, parts.edges, name) == inputs && EntriesFor(show, Iips, parts.iips, name) == iips
    ensures NodeOf(show, parts, i) == Node(name, i, NodeBody(parts.components[i], inputs, iips))
  {
  }

  lemma NodeIsRebuilt(show: Show, parts: Parts, nodes: seq<NodeParts>, i: nat, body: Object)
    requires IsShow(show) && KnownParts(parts) && i < |nodes| == |parts.components|
      && parts.components[i] == nodes[i].component
    requires PutTogether(nodes, parts) && Holds(body, nodes[i])
    ensures NodeOf(show, parts, i) == Node(nodes[i].name, i, body)
  {
    BodyIsHeld(body, nodes[i]);
    SidesAreHeld(show, parts, nodes, i, body);
    NodeOfParsed(show, parts, i, nodes[i].name, EntriesAt(Edges, body), EntriesAt(Iips, body));
  }

  lemma ParsedNodeAt(nodes: seq<Value>, parsed: seq<NodeParts>, i: nat)
    requires ParseNodes(nodes) == Some(parsed) && i < |nodes|
    ensures |parsed| == |nodes| && ParseNode(nodes[i]) == Some(parsed[i])
  {
  }

  lemma SeenAreStrings(kind: Kind, nodes: seq<NodeParts>, items: seq<Object>)
    requires AllWellFiled(nodes) && Arrange(Gathered(kind, nodes)) == Some(items)
    ensures KnownItems(kind, items) && OwnersAreStrings(kind, items)
  {
    ArrangedIsSeen(kind, nodes, items);
  }

  lemma PartsArePutTogether(nodes: seq<Value>, parsed: seq<NodeParts>, parts: Parts)
    requires ParseNodes(nodes) == Some(parsed)
    requires Arrange(Gathered(Edges, parsed)) == Some(parts.edges)
      && Arrange(Gathered(Iips, parsed)) == Some(parts.iips)
    ensures PutTogether(parsed, parts)
  {
    SeenAreStrings(Edges, parsed, parts.edges);
    SeenAreStrings(Iips, parsed, parts.iips);
    ParsedNodesAreNamed(nodes);
  }

  ghost predicate Parsed(nodes: seq<Value>, parsed: seq<NodeParts>) {
    |parsed| == |nodes| && forall i :: 0 <= i < |nodes| ==> ParseNode(nodes[i]) == Some(parsed[i])
  }

  lemma AllParsed(nodes: seq<Value>, parsed: seq<NodeParts>)
    requires ParseNodes(nodes) == Some(parsed)
    ensures Parsed(nodes, parsed)
  {
  }

  /** Canonical nodes, their parses, and the parts put together from those. */
  ghost predicate Rebuildable(parts: Parts, nodes: seq<Value>, parsed: seq<NodeParts>) {
    && KnownParts(parts) && PutTogether(parsed, parts) && parts.components == ComponentsOf(parsed)
    && CanonicalNodes(nodes) && Parsed(nodes, parsed)
  }

  lemma RebuildableAt(parts: Parts, nodes: seq<Value>, parsed: seq<NodeParts>, i: nat)
    requires Rebuildable(parts, nodes, parsed) && i < |nodes|
    ensures KnownParts(parts) && PutTogether(parsed, parts) && i < |parsed| == |parts.components|
    ensures parts.components[i] == parsed[i].component
    ensures nodes[i] == Node(parsed[i].name, i, NodeBodyAt(nodes[i])) && Holds(NodeBodyAt(nodes[i]), parsed[i])
  {
    CanonicalNodeHolds(nodes[i], i, parsed[i]);
  }

  lemma EachNodeIsRebuilt(show: Show, parts: Parts, nodes: seq<Value>, parsed: seq<NodeParts>, i: nat)
    requires IsShow(show) && Rebuildable(parts, nodes, parsed) && i < |nodes|
    ensures NodeOf(show, parts, i) == nodes[i]
  {
    RebuildableAt(parts, nodes, parsed, i);
    NodeIsRebuilt(show, parts, parsed, i, NodeBodyAt(nodes[i]));
  }

  lemma NodesAreRebuilt(show: Show, parts: Parts, nodes: seq<Value>, parsed: seq<NodeParts>)
    requires IsShow(show) && Rebuildable(parts, nodes, parsed)
    ensures NodesOf(show, parts) == nodes
  {
    forall i | 0 <= i < |nodes|
      ensures NodesOf(show, parts)[i] == nodes[i]
    {
      EachNodeIsRebuilt(show, parts, nodes, parsed, i);
    }
  }

  // ----- the declared lists -----

  lemma {:induction false} NothingGathered(kind: Kind, nodes: seq<NodeParts>)
    requires AllWellFiled(nodes) && forall i :: 0 <= i < |nodes| ==> Side(kind, nodes[i]) == []
    ensures Gathered(kind, nodes) == []
    decreases |nodes|
  {
    if nodes != [] { NothingGathered(kind, nodes[..|nodes| - 1]); }
  }

  lemma NoEntriesNoSide(kind: Kind, node: Value, index: nat, parsed: NodeParts)
    requires CanonicalNode(node, index) && ParseNode(node) == Some(parsed) && EntriesAt(kind, NodeBodyAt(node)) == []
    ensures Side(kind, parsed) == []
  {
    NodeParses(node, index, parsed);
    BodyParts(NodeName(node), NodeBodyAt(node), parsed);
  }

  lemma UndeclaredIsEmpty(kind: Kind, nodes: seq<Value>, parsed: seq<NodeParts>, items: seq<Object>)
    requires ParseNodes(nodes) == Some(parsed) && Arrange(Gathered(kind, parsed)) == Some(items)
    requires NoEntries(kind, nodes) && CanonicalNodes(nodes)
    ensures items == []
  {
    forall i | 0 <= i < |nodes|
      ensures |parsed| == |nodes| && Side(kind, parsed[i]) == []
    {
      ParsedNodeAt(nodes, parsed, i);
      NoEntriesNoSide(kind, nodes[i], i, parsed[i]);
    }
    NothingGathered(kind, parsed);
  }

  lemma DeclaredIsKept(keys: seq<Value>, nodes: seq<Value>, parsed: seq<NodeParts>, parts: Parts)
    requires ParseNodes(nodes) == Some(parsed) && Declared(keys, nodes)
    requires CanonicalNodes(nodes)
    requires Arrange(Gathered(Edges, parsed)) == Some(parts.edges)
      && Arrange(Gathered(Iips, parsed)) == Some(parts.iips)
    ensures Kept(keys, parts) == parts
  {
    if P.Str("edges") !in keys { UndeclaredIsEmpty(Edges, nodes, parsed, parts.edges); }
    if P.Str("iips") !in keys { UndeclaredIsEmpty(Iips, nodes, parsed, parts.iips); }
  }

  lemma KeysAreRebuilt(keys: seq<Value>, parts: Parts)
    requires CanonicalKeys(keys)
    ensures NetworkKeys(NetworkOf(keys, parts)) == keys
  {
    var network := NetworkOf(keys, parts);
    assert "components" in network;
    assert "edges" in network <==> P.Str("edges") in keys;
    assert "iips" in network <==> P.Str("iips") in keys;
  }

  // ----- the metadata -----

  lemma RequestedIsRebuilt(show: Show, c: Value)
    requires IsShow(show) && CanonicalRequested(c)
    ensures IsRequested(c) && RequestedToDict(RequestedFrom(show, c)) == c
  {
  }

  lemma GrantIsRebuilt(show: Show, e: Value)
    requires IsShow(show) && CanonicalGrant(e)
    ensures IsGrant(e) && GrantToDict(GrantFrom(show, e)) == e
  {
    assert e.fields["bounds"] == P.Dict(ObjectAt(e, "bounds"));
  }

  lemma RequestedAreRebuilt(show: Show, d: Design, values: seq<Value>)
    requires IsShow(show) && |d.components| == |values|
    requires forall i :: 0 <= i < |values| ==> CanonicalRequested(values[i])
    requires forall i :: 0 <= i < |values| ==>
      IsRequested(values[i]) && d.components[i] == RequestedFrom(show, values[i])
    ensures RequestedDicts(d.components) == values
  {
    forall i | 0 <= i < |values|
      ensures RequestedToDict(d.components[i]) == values[i]
    {
      RequestedIsRebuilt(show, values[i]);
    }
  }

  lemma GrantsAreRebuilt(show: Show, d: Design, values: seq<Value>)
    requires IsShow(show) && |d.envelopes| == |values|
    requires forall i :: 0 <= i < |values| ==> CanonicalGrant(values[i])
    requires forall i :: 0 <= i < |values| ==> IsGrant(values[i]) && d.envelopes[i] == GrantFrom(show, values[i])
    ensures GrantDicts(d.envelopes) == values
  {
    forall i | 0 <= i < |values|
      ensures GrantToDict(d.envelopes[i]) == values[i]
    {
      GrantIsRebuilt(show, values[i]);
    }
  }

  /** What an imported design holds of its metadata. */
  lemma DesignParts(show: Show, meta: Object, network: Object, d: Design)
    requires IsShow(show) && CanonicalMeta(meta) && DesignFrom(show, meta, network) == Some(d)
    ensures d.network == network && d.metadata == meta["metadata"].fields
    ensures d.id == meta["id"].s && d.title == meta["title"].s && d.schema == meta["schema"].s
    ensures var components, envelopes := ListAt(P.Dict(meta), "components"), ListAt(P.Dict(meta), "envelopes");
      && |d.components| == |components| && |d.envelopes| == |envelopes|
      && (forall i :: 0 <= i < |components| ==>
        IsRequested(components[i]) && d.components[i] == RequestedFrom(show, components[i]))
      && forall i :: 0 <= i < |envelopes| ==> IsGrant(envelopes[i]) && d.envelopes[i] == GrantFrom(show, envelopes[i])
  {
  }

  lemma ListsAreRebuilt(show: Show, meta: Object, network: Object, d: Design)
    requires IsShow(show) && CanonicalMeta(meta) && DesignFrom(show, meta, network) == Some(d)
    ensures RequestedDicts(d.components) == ListAt(P.Dict(meta), "components")
    ensures GrantDicts(d.envelopes) == ListAt(P.Dict(meta), "envelopes")
  {
    DesignParts(show, meta, network, d);
    RequestedAreRebuilt(show, d, ListAt(P.Dict(meta), "components"));
    GrantsAreRebuilt(show, d, ListAt(P.Dict(meta), "envelopes"));
  }

  /** Canonical metadata is what a design holding the same parts exports. */
  lemma SameMeta(d: Design, meta: Object)
    requires CanonicalMeta(meta) && meta["projection"] == P.Str(PROJECTION)
    requires d.id == meta["id"].s && d.title == meta["title"].s && d.schema == meta["schema"].s
    requires d.metadata == meta["metadata"].fields
    requires RequestedDicts(d.components) == ListAt(P.Dict(meta), "components")
    requires GrantDicts(d.envelopes) == ListAt(P.Dict(meta), "envelopes")
    requires NetworkKeys(d.network) == ListAt(P.Dict(meta), "network_keys")
    ensures MetaOf(d) == meta
  {
    MetaIsRead(d);
    assert MetaOf(d).Keys == meta.Keys;
  }

  lemma MetaIsRebuilt(show: Show, meta: Object, network: Object, d: Design)
    requires IsShow(show) && CanonicalMeta(meta) && DesignFrom(show, meta, network) == Some(d)
    requires "projection" in meta && meta["projection"] == P.Str(PROJECTION)
    requires NetworkKeys(network) == ListAt(P.Dict(meta), "network_keys")
    ensures MetaOf(d) == meta
  {
    DesignParts(show, meta, network, d);
    ListsAreRebuilt(show, meta, network, d);
    SameMeta(d, meta);
  }

  // ----- the theorem -----

  /** What importing passed through. */
  lemma ImportedParts(show: Show, nodes: seq<Value>, connections: Object, meta: Object, d: Design)
    returns (parsed: seq<NodeParts>, parts: Parts)
    requires ImportedFrom(show, nodes, connections, P.Dict(meta)) == Some(d) && CanonicalMeta(meta)
    ensures "projection" in meta && meta["projection"] == P.Str(PROJECTION)
    ensures ParseNodes(nodes) == Some(parsed) && Assemble(show, parsed, connections) == Some(parts)
    ensures DesignFrom(show, meta, NetworkOf(ListAt(P.Dict(meta), "network_keys"), parts)) == Some(d)
  {
    parsed := ParseNodes(nodes).value;
    parts := Assemble(show, parsed, connections).value;
  }

  lemma ConnectionsAreRebuilt(show: Show, nodes: seq<NodeParts>, connections: Object, parts: Parts)
    requires AllWellFiled(nodes) && Assemble(show, nodes, connections) == Some(parts)
    ensures connections == Connections(show, parts.edges)
  {
  }

  lemma ExportedAs(show: Show, d: Design, parts: Parts)
    requires PartsOf(d.network) == Some(parts)
    ensures Exported(show, d) == Some(Workflow(if d.title != "" then d.title else d.id,
      NodesOf(show, parts), Connections(show, parts.edges), MetaOf(d)))
  {
  }

  /** What was assembled, with all that assembling checked. */
  lemma AssembledIsPutTogether(show: Show, nodes: seq<Value>, connections: Object, parsed: seq<NodeParts>, parts: Parts)
    requires ParseNodes(nodes) == Some(parsed) && Assemble(show, parsed, connections) == Some(parts)
    ensures KnownParts(parts) && PutTogether(parsed, parts) && parts.components == ComponentsOf(parsed)
    ensures Connections(show, parts.edges) == connections
  {
    ParsedNodesAreNamed(nodes);
    AssembledPasses(show, parsed, connections, parts);
    ArrangedIsConnected(parsed, parts);
    PartsArePutTogether(nodes, parsed, parts);
    ConnectionsAreRebuilt(show, parsed, connections, parts);
  }

  lemma NetworkIsRebuilt(nodes: seq<Value>, keys: seq<Value>, parsed: seq<NodeParts>, parts: Parts)
    requires ParseNodes(nodes) == Some(parsed) && KnownParts(parts) && PutTogether(parsed, parts)
    requires CanonicalKeys(keys) && Declared(keys, nodes) && CanonicalNodes(nodes)
    ensures PartsOf(NetworkOf(keys, parts)) == Some(parts) && NetworkKeys(NetworkOf(keys, parts)) == keys
  {
    KeysAreRebuilt(keys, parts);
    DeclaredIsKept(keys, nodes, parsed, parts);
    NetworkParts(keys, parts);
  }

  lemma CanonicalIsRebuilt(show: Show, w: Value, d: Design)
    requires IsShow(show) && Imported(show, w) == Some(d) && CanonicalWorkflow(w)
    ensures Exported(show, d) == Some(w)
  {
    var meta, nodes, connections := MetaAt(w), ListAt(w, "nodes"), ObjectAt(w, "connections");
    var keys := ListAt(P.Dict(meta), "network_keys");
    ImportedFields(show, NameFor(meta), nodes, connections, meta);
    var parsed, parts := ImportedParts(show, nodes, connections, meta, d);
    AssembledIsPutTogether(show, nodes, connections, parsed, parts);
    NetworkIsRebuilt(nodes, keys, parsed, parts);
    AllParsed(nodes, parsed);
    NodesAreRebuilt(show, parts, nodes, parsed);
    DesignParts(show, meta, NetworkOf(keys, parts), d);
    MetaIsRebuilt(show, meta, NetworkOf(keys, parts), d);
    assert NameFor(meta) == if d.title != "" then d.title else d.id;
    ExportedAs(show, d, parts);
  }

  /** An accepted workflow is reproduced by exporting what it imports as if and only if it is canonical. */
  lemma ReproducedExactly(show: Show, w: Value, d: Design)
    requires IsShow(show) && Imported(show, w) == Some(d)
    ensures Exported(show, d) == Some(w) <==> CanonicalWorkflow(w)
  {
    if CanonicalWorkflow(w) { CanonicalIsRebuilt(show, w, d); }
    if Exported(show, d) == Some(w) { ExportIsCanonical(show, d); }
  }

  // ----- workflows that are accepted and not reproduced -----

  function Renamed(w: Value, name: string): Value
    requires w.Dict?
  {
    P.Dict(w.fields["name" := P.Str(name)])
  }

  lemma RenamedFields(own: string, name: string, nodes: seq<Value>, connections: Object, meta: Object)
    ensures Renamed(Workflow(own, nodes, connections, meta), name) == Workflow(name, nodes, connections, meta)
    ensures own != name ==> Workflow(own, nodes, connections, meta) != Workflow(name, nodes, connections, meta)
  {
    var w, other := Workflow(own, nodes, connections, meta), Workflow(name, nodes, connections, meta);
    assert w.fields["name" := P.Str(name)] == other.fields;
    assert w.fields["name"] == P.Str(own) && other.fields["name"] == P.Str(name);
  }

  lemma RenamedImportsTheSame(
      show: Show, own: string, name: string, nodes: seq<Value>, connections: Object, meta: Object)
    ensures Imported(show, Workflow(own, nodes, connections, meta)) ==
      Imported(show, Workflow(name, nodes, connections, meta))
  {
    ImportedFields(show, own, nodes, connections, meta);
    ImportedFields(show, name, nodes, connections, meta);
  }

  /** Renaming an exported workflow changes nothing that is read, so it imports the same and is not reproduced. */
  lemma RenamedIsNotReproduced(show: Show, d: Design, name: string)
    requires IsShow(show) && ValidDesign(d) && PartsOf(d.network).Some? && Connected(PartsOf(d.network).value)
    requires name != if d.title != "" then d.title else d.id
    ensures Exported(show, d).value.Dict?
    ensures Imported(show, Renamed(Exported(show, d).value, name)) == Some(d)
    ensures Exported(show, d) != Some(Renamed(Exported(show, d).value, name))
  {
    var parts := PartsOf(d.network).value;
    var own := if d.title != "" then d.title else d.id;
    ConnectedComesBack(show, d);
    ExportedAs(show, d, parts);
    RenamedFields(own, name, NodesOf(show, parts), Connections(show, parts.edges), MetaOf(d));
    RenamedImportsTheSame(show, own, name, NodesOf(show, parts), Connections(show, parts.edges), MetaOf(d));
  }

  function SmallDesign(): Design {
    Design("d", map["components" := P.List([])], "", [], map[], [], DESIGN_SCHEMA)
  }

  function RenamedWorkflow(): Value {
    Workflow("other", [], map[], MetaOf(SmallDesign()))
  }

  lemma SmallExport(show: Show)
    ensures ValidDesign(SmallDesign()) && PartsOf(SmallDesign().network) == Some(Parts([], [], []))
    ensures Exported(show, SmallDesign()) == Some(Workflow("d", [], map[], MetaOf(SmallDesign())))
  {
    assert Fields([]) == [];
    var parts := Parts([], [], []);
    assert NodesOf(show, parts) == [] && Connections(show, []) == map[];
  }

  /** A concrete one: the empty design under another workflow name. */
  lemma RenamedWorkflowIsNotReproduced(show: Show)
    requires IsShow(show)
    ensures Imported(show, RenamedWorkflow()) == Some(SmallDesign())
    ensures Exported(show, SmallDesign()) != Some(RenamedWorkflow())
  {
    SmallExport(show);
    RenamedFields("d", "other", [], map[], MetaOf(SmallDesign()));
    RenamedIsNotReproduced(show, SmallDesign(), "other");
  }
}
