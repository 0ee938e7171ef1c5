/**
 The projection, key by key: which design a workflow is read as, and how a design is drawn.
 Nothing here is computed the way the adapter computes it; both translations are proved to
 be exactly these relations.
 */
module WorkflowFormat {
  import opened Wrappers
  import P = Ports
  import opened Projection
  import opened RoundTrip
  import C = Canonical

  predicate Has(m: Object, key: string, value: Value) {
    key in m && m[key] == value
  }

  predicate ListsObjects(value: Value, objects: seq<Object>) {
    value.List? && |value.items| == |objects|
    && forall i :: 0 <= i < |objects| ==> value.items[i] == P.Dict(objects[i])
  }

  // ----- one entry of a node -----

  /** The entry under the named node stands for the edge. */
  predicate StandsForEdge(entry: Object, name: string, edge: Object) {
    && {"from", "field", "arg"} <= entry.Keys <= {"from", "field", "arg", "capacity", "cbp_order"}
    && edge.Keys == {"source", "source_field", "target", "target_arg"} + (entry.Keys * {"capacity"})
    && edge["source"] == entry["from"] && edge["source_field"] == entry["field"] && edge["target_arg"] == entry["arg"]
    && edge["target"] == P.Str(name) && ("capacity" in entry ==> edge["capacity"] == entry["capacity"])
  }

  predicate StandsForPacket(entry: Object, name: string, packet: Object) {
    && {"port", "value"} <= entry.Keys <= {"port", "value", "cbp_order"}
    && packet.Keys == {"component", "port", "value"}
    && packet["component"] == P.Str(name) && packet["port"] == entry["port"] && packet["value"] == entry["value"]
  }

  /** The place in the whole list that an entry claims; where it stands in its node, if it names none. */
  predicate ClaimsPlace(entry: Object, index: int, place: int) {
    place >= 0 && if "cbp_order" in entry then entry["cbp_order"] == P.Int(place) else place == index
  }

  predicate EntryReads(kind: Kind, entry: Value, index: int, name: string, read: Ordered) {
    entry.Dict? && ClaimsPlace(entry.fields, index, read.0)
    && match kind
       case Edges => StandsForEdge(entry.fields, name, read.1)
       case Iips => StandsForPacket(entry.fields, name, read.1)
  }

  lemma EntryReadsExactly(kind: Kind, entry: Value, index: nat, name: string, read: Ordered)
    ensures ParseEntry(kind, name, entry, index) == Some(read) <==> EntryReads(kind, entry, index, name, read)
  {
    if entry.Dict? {
      match kind
      case Edges =>
        if KnownKeys(entry.fields, {"from", "field", "arg"}, {"capacity", "cbp_order"}) {
          EdgeIsMade(entry.fields, name, read.1);
        }
      case Iips =>
        if KnownKeys(entry.fields, {"port", "value"}, {"cbp_order"}) { PacketIsMade(entry.fields, name, read.1); }
    }
  }

  lemma EdgeIsMade(entry: Object, name: string, edge: Object)
    requires KnownKeys(entry, {"from", "field", "arg"}, {"capacity", "cbp_order"})
    ensures StandsForEdge(entry, name, edge) <==>
      edge == map["source" := entry["from"], "source_field" := entry["field"], "target" := P.Str(name),
                  "target_arg" := entry["arg"]] + Restrict(entry, {"capacity"})
  {
    var made := map["source" := entry["from"], "source_field" := entry["field"], "target" := P.Str(name),
                    "target_arg" := entry["arg"]] + Restrict(entry, {"capacity"});
    assert made.Keys == {"source", "source_field", "target", "target_arg"} + (entry.Keys * {"capacity"});
    assert StandsForEdge(entry, name, made);
    if StandsForEdge(entry, name, edge) { assert edge == made; }
  }

  lemma PacketIsMade(entry: Object, name: string, packet: Object)
    requires KnownKeys(entry, {"port", "value"}, {"cbp_order"})
    ensures StandsForPacket(entry, name, packet) <==>
      packet == map["component" := P.Str(name), "port" := entry["port"], "value" := entry["value"]]
  {
    if StandsForPacket(entry, name, packet) {
      assert packet == map["component" := P.Str(name), "port" := entry["port"], "value" := entry["value"]];
    }
  }

  // ----- a node -----

  /** The list under a key; none is an empty list, and so is an empty object or string. */
  predicate Lists(m: Object, key: string, items: seq<Value>) {
    if key !in m then items == []
    else m[key] == P.List(items) || (items == [] && (m[key] == P.Dict(map[]) || m[key] == P.Str("")))
  }

  predicate EntriesRead(kind: Kind, entries: seq<Value>, name: string, read: seq<Ordered>) {
    |read| == |entries| && forall i :: 0 <= i < |entries| ==> EntryReads(kind, entries[i], i, name, read[i])
  }

  /** The node's own part says its task and options; its two lists are what feeds it. */
  ghost predicate BodyReads(body: Object, node: NodeParts) {
    && {"task"} <= body.Keys
    && body.Keys <= {"task", "args", "verifier", "child", "ports", "port_types", "stream", "external", "inputs", "iips"}
    && node.component.Keys == (body.Keys - {"inputs", "iips"}) + {"id"} && node.component["id"] == P.Str(node.name)
    && (forall key :: key in body && key != "inputs" && key != "iips" ==> node.component[key] == body[key])
    && (exists inputs :: Lists(body, "inputs", inputs) && EntriesRead(Edges, inputs, node.name, node.edges))
    && exists iips :: Lists(body, "iips", iips) && EntriesRead(Iips, iips, node.name, node.iips)
  }

  ghost predicate NodeReads(node: Value, read: NodeParts) {
    && node.Dict? && Has(node.fields, "type", P.Str("cbp.component"))
    && read.name != "" && Has(node.fields, "name", P.Str(read.name))
    && "parameters" in node.fields && node.fields["parameters"].Dict?
    && var parameters := node.fields["parameters"].fields;
    && "cbp" in parameters && parameters["cbp"].Dict? && BodyReads(parameters["cbp"].fields, read)
  }

  lemma ListsExactly(m: Object, key: string, items: seq<Value>)
    ensures Iterate(Field(m, key, P.List([]))) == Some(items) <==> Lists(m, key, items)
  {
  }

  lemma EntriesReadExactly(kind: Kind, entries: seq<Value>, name: string, read: seq<Ordered>)
    ensures ParseEntries(kind, name, entries) == Some(read) <==> EntriesRead(kind, entries, name, read)
  {
    forall i, x: Ordered | 0 <= i < |entries|
      ensures ParseEntry(kind, name, entries[i], i) == Some(x) <==> EntryReads(kind, entries[i], i, name, x)
    {
      EntryReadsExactly(kind, entries[i], i, name, x);
    }
    if EntriesRead(kind, entries, name, read) { ParsedEntriesAre(kind, name, entries, read); }
  }

  /** The entries under a key are read as these, whichever way they are written. */
  lemma SideReadsExactly(kind: Kind, body: Object, key: string, name: string, read: seq<Ordered>)
    ensures (exists items :: Lists(body, key, items) && EntriesRead(kind, items, name, read)) <==>
      Iterate(Field(body, key, P.List([]))).Some?
      && ParseEntries(kind, name, Iterate(Field(body, key, P.List([]))).value) == Some(read)
  {
    if Iterate(Field(body, key, P.List([]))).Some? {
      var items := Iterate(Field(body, key, P.List([]))).value;
      ListsExactly(body, key, items);
      EntriesReadExactly(kind, items, name, read);
    }
    forall items | Lists(body, key, items) && EntriesRead(kind, items, name, read)
      ensures Iterate(Field(body, key, P.List([]))) == Some(items)
      ensures ParseEntries(kind, name, items) == Some(read)
    {
      ListsExactly(body, key, items);
      EntriesReadExactly(kind, items, name, read);
    }
  }

  lemma ComponentIsMade(body: Object, name: string, component: Object)
    requires "task" in body
    requires body.Keys <= {"task", "args", "verifier", "child", "ports", "port_types", "stream", "external", "inputs",
      "iips"}
    ensures component == map["id" := P.Str(name), "task" := body["task"]] + Restrict(body, COMPONENT_OPTIONAL) <==>
      && component.Keys == (body.Keys - {"inputs", "iips"}) + {"id"} && component["id"] == P.Str(name)
      && forall key :: key in body && key != "inputs" && key != "iips" ==> component[key] == body[key]
  {
    var made := map["id" := P.Str(name), "task" := body["task"]] + Restrict(body, COMPONENT_OPTIONAL);
    assert made.Keys == (body.Keys - {"inputs", "iips"}) + {"id"};
    if component.Keys == made.Keys && component["id"] == P.Str(name)
      && forall key :: key in body && key != "inputs" && key != "iips" ==> component[key] == body[key]
    {
      forall key | key in component
        ensures component[key] == made[key]
      {
      }
      assert component == made;
    }
  }

  lemma BodyReadsExactly(body: Object, node: NodeParts)
    ensures ParseBody(node.name, body) == Some(node) <==> BodyReads(body, node)
  {
    if "task" in body
      && body.Keys <= {"task", "args", "verifier", "child", "ports", "port_types", "stream", "external", "inputs",
        "iips"}
    {
      ComponentIsMade(body, node.name, node.component);
      SideReadsExactly(Edges, body, "inputs", node.name, node.edges);
      SideReadsExactly(Iips, body, "iips", node.name, node.iips);
    }
  }

  lemma NodeReadsExactly(node: Value, read: NodeParts)
    ensures ParseNode(node) == Some(read) <==> NodeReads(node, read)
  {
    if node.Dict? && Field(node.fields, "parameters", P.Null).Dict? {
      var cbp := Field(node.fields["parameters"].fields, "cbp", P.Null);
      if cbp.Dict? { BodyReadsExactly(cbp.fields, read); }
    }
  }

  ghost predicate NodesRead(nodes: seq<Value>, read: seq<NodeParts>) {
    && |read| == |nodes| && (forall i :: 0 <= i < |nodes| ==> NodeReads(nodes[i], read[i]))
    && forall i, j :: 0 <= i < j < |read| ==> read[i].name != read[j].name
  }

  lemma NodesReadExactly(nodes: seq<Value>, read: seq<NodeParts>)
    ensures ParseNodes(nodes) == Some(read) <==> NodesRead(nodes, read)
  {
    forall i, x: NodeParts | 0 <= i < |nodes|
      ensures ParseNode(nodes[i]) == Some(x) <==> NodeReads(nodes[i], x)
    {
      NodeReadsExactly(nodes[i], x);
    }
    if NodesRead(nodes, read) { ParsedNodesAre(nodes, read); }
  }

  // ----- the lists put back together -----

  /** The item x is the entry at j of the node at i. */
  predicate Sits(kind: Kind, nodes: seq<NodeParts>, i: int, j: int, x: Ordered) {
    0 <= i < |nodes| && 0 <= j < |Side(kind, nodes[i])| && Side(kind, nodes[i])[j] == x
  }

  /** Every entry is in the place it claims, every place is claimed, and none is claimed twice. */
  ghost predicate InPlaces(kind: Kind, nodes: seq<NodeParts>, items: seq<Object>) {
    && (forall i, j, x :: Sits(kind, nodes, i, j, x) ==> 0 <= x.0 < |items| && x.1 == items[x.0])
    && (forall k :: 0 <= k < |items| ==> IsSeated(kind, nodes, (k, items[k])))
    && SeatsDiffer(kind, nodes)
  }

  ghost predicate SeatsDiffer(kind: Kind, nodes: seq<NodeParts>) {
    forall i, j, x, i', j', y :: Sits(kind, nodes, i, j, x) && Sits(kind, nodes, i', j', y) && x.0 == y.0 ==>
      i == i' && j == j'
  }

  /** The same, said of one list of entries. */
  ghost predicate ListInPlaces(raw: seq<Ordered>, items: seq<Object>) {
    && (forall x :: x in raw ==> 0 <= x.0 < |items| && x.1 == items[x.0])
    && (forall k :: 0 <= k < |items| ==> (k, items[k]) in raw)
    && PlacesDiffer(raw)
  }

  ghost predicate PlacesDiffer(raw: seq<Ordered>) {
    forall p, q :: 0 <= p < q < |raw| ==> raw[p].0 != raw[q].0
  }

  ghost predicate IsSeated(kind: Kind, nodes: seq<NodeParts>, x: Ordered) {
    exists i, j :: Sits(kind, nodes, i, j, x)
  }

  lemma SeatedSplit(kind: Kind, nodes: seq<NodeParts>, x: Ordered)
    requires nodes != []
    ensures var n := |nodes| - 1;
      IsSeated(kind, nodes, x) <==> IsSeated(kind, nodes[..n], x) || x in Side(kind, nodes[n])
  {
    var n := |nodes| - 1;
    if IsSeated(kind, nodes, x) {
      var i, j :| Sits(kind, nodes, i, j, x);
      if i < n { assert Sits(kind, nodes[..n], i, j, x); }
    }
    if IsSeated(kind, nodes[..n], x) {
      var i, j :| Sits(kind, nodes[..n], i, j, x);
      assert Sits(kind, nodes, i, j, x);
    }
    if x in Side(kind, nodes[n]) {
      var j :| 0 <= j < |Side(kind, nodes[n])| && Side(kind, nodes[n])[j] == x;
      assert Sits(kind, nodes, n, j, x);
    }
  }

  lemma {:induction false} GatheredMembers(kind: Kind, nodes: seq<NodeParts>, x: Ordered)
    requires AllWellFiled(nodes)
    ensures x in Gathered(kind, nodes) <==> IsSeated(kind, nodes, x)
    decreases |nodes|
  {
    if nodes != [] {
      GatheredMembers(kind, nodes[..|nodes| - 1], x);
      SeatedSplit(kind, nodes, x);
    }
  }

  ghost predicate Apart(a: seq<Ordered>, b: seq<Ordered>) {
    forall x, y :: x in a && y in b ==> x.0 != y.0
  }

  lemma PlacesDifferJoin(a: seq<Ordered>, b: seq<Ordered>)
    ensures PlacesDiffer(a + b) <==>
      PlacesDiffer(a) && PlacesDiffer(b) && Apart(a, b)
  {
    var c := a + b;
    if PlacesDiffer(c) {
      forall p, q | 0 <= p < q < |a|
        ensures a[p].0 != a[q].0
      {
        assert c[p].0 != c[q].0;
      }
      forall p, q | 0 <= p < q < |b|
        ensures b[p].0 != b[q].0
      {
        assert c[|a| + p].0 != c[|a| + q].0;
      }
      forall x, y | x in a && y in b
        ensures x.0 != y.0
      {
        var p :| 0 <= p < |a| && a[p] == x;
        var q :| 0 <= q < |b| && b[q] == y;
        assert c[p].0 != c[|a| + q].0;
      }
    }
  }

  lemma {:induction false} GatheredPlaces(kind: Kind, nodes: seq<NodeParts>)
    requires AllWellFiled(nodes)
    ensures PlacesDiffer(Gathered(kind, nodes)) <==> SeatsDiffer(kind, nodes)
    decreases |nodes|
  {
    if nodes != [] {
      var n := |nodes| - 1;
      var front, side := nodes[..n], Side(kind, nodes[n]);
      GatheredPlaces(kind, front);
      PlacesDifferJoin(Gathered(kind, front), side);
      SeatsDifferSplit(kind, nodes);
    }
  }

  lemma SeatsDifferSplit(kind: Kind, nodes: seq<NodeParts>)
    requires nodes != [] && AllWellFiled(nodes)
    ensures var n := |nodes| - 1;
      SeatsDiffer(kind, nodes) <==>
        && SeatsDiffer(kind, nodes[..n]) && PlacesDiffer(Side(kind, nodes[n]))
        && Apart(Gathered(kind, nodes[..n]), Side(kind, nodes[n]))
  {
    var n := |nodes| - 1;
    var front, side := nodes[..n], Side(kind, nodes[n]);
    forall x
      ensures x in Gathered(kind, front) <==> IsSeated(kind, front, x)
    {
      GatheredMembers(kind, front, x);
    }
    forall i, j, x | Sits(kind, front, i, j, x)
      ensures x in Gathered(kind, front)
    {
      assert IsSeated(kind, front, x);
    }
    forall i, j, x
      ensures Sits(kind, nodes, i, j, x) <==>
        Sits(kind, front, i, j, x) || (i == n && 0 <= j < |side| && side[j] == x)
    {
    }
    if SeatsDiffer(kind, nodes) {
      forall p, q | 0 <= p < q < |side|
        ensures side[p].0 != side[q].0
      {
        assert Sits(kind, nodes, n, p, side[p]) && Sits(kind, nodes, n, q, side[q]);
      }
      forall x, y | x in Gathered(kind, front) && y in side
        ensures x.0 != y.0
      {
        var i, j :| Sits(kind, front, i, j, x);
        var q :| 0 <= q < |side| && side[q] == y;
        assert Sits(kind, nodes, i, j, x) && Sits(kind, nodes, n, q, y);
      }
    }
  }

  lemma GatheredInPlaces(kind: Kind, nodes: seq<NodeParts>, items: seq<Object>)
    requires AllWellFiled(nodes)
    ensures ListInPlaces(Gathered(kind, nodes), items) <==> InPlaces(kind, nodes, items)
  {
    GatheredPlaces(kind, nodes);
    forall x
      ensures x in Gathered(kind, nodes) <==> IsSeated(kind, nodes, x)
    {
      GatheredMembers(kind, nodes, x);
    }
    forall i, j, x | Sits(kind, nodes, i, j, x)
      ensures IsSeated(kind, nodes, x)
    {
    }
  }

  /** A list of distinct things is a bag with each of them once. */
  lemma {:induction false} OnceEach(raw: seq<Ordered>, x: Ordered)
    requires PlacesDiffer(raw)
    ensures multiset(raw)[x] == if x in raw then 1 else 0
    decreases |raw|
  {
    if raw != [] {
      var n := |raw| - 1;
      assert raw == raw[..n] + [raw[n]];
      OnceEach(raw[..n], x);
      if x in raw[..n] {
        var p :| 0 <= p < n && raw[p] == x;
        assert raw[p].0 != raw[n].0;
      }
    }
  }

  lemma NumberedPlaces(items: seq<Object>)
    ensures PlacesDiffer(Numbered(items))
    ensures forall x :: x in Numbered(items) <==> 0 <= x.0 < |items| && x.1 == items[x.0]
  {
    forall x: Ordered | 0 <= x.0 < |items| && x.1 == items[x.0]
      ensures x in Numbered(items)
    {
      assert Numbered(items)[x.0] == x;
    }
  }

  lemma TwiceIsTwo(raw: seq<Ordered>, p: nat, q: nat)
    requires p < q < |raw| && raw[p] == raw[q]
    ensures multiset(raw)[raw[p]] >= 2
  {
    assert raw == raw[..q] + [raw[q]] + raw[q + 1..];
    assert raw[p] in raw[..q];
  }

  lemma ListIsNumberedExactly(raw: seq<Ordered>, items: seq<Object>)
    ensures multiset(raw) == multiset(Numbered(items)) <==> ListInPlaces(raw, items)
  {
    NumberedPlaces(items);
    if ListInPlaces(raw, items) {
      forall x
        ensures multiset(raw)[x] == multiset(Numbered(items))[x]
      {
        OnceEach(raw, x);
        OnceEach(Numbered(items), x);
        assert x in raw <==> x in Numbered(items);
      }
    }
    if multiset(raw) == multiset(Numbered(items)) {
      forall x: Ordered
        ensures x in raw <==> x in Numbered(items)
      {
        assert x in raw <==> x in multiset(raw);
        assert x in Numbered(items) <==> x in multiset(Numbered(items));
      }
      forall p, q | 0 <= p < q < |raw|
        ensures raw[p].0 != raw[q].0
      {
        assert raw[p] in raw && raw[q] in raw;
        if raw[p] == raw[q] {
          TwiceIsTwo(raw, p, q);
          OnceEach(Numbered(items), raw[p]);
        }
      }
    }
  }

  /** The list is put back together from the nodes exactly when every entry is in the place it claims. */
  lemma ArrangedExactly(kind: Kind, nodes: seq<NodeParts>, items: seq<Object>)
    requires AllWellFiled(nodes)
    ensures Arrange(Gathered(kind, nodes)) == Some(items) <==> InPlaces(kind, nodes, items)
  {
    GatheredInPlaces(kind, nodes, items);
    ListIsNumberedExactly(Gathered(kind, nodes), items);
    if Arrange(Gathered(kind, nodes)) == Some(items) { C.ArrangedIsNumbered(Gathered(kind, nodes), items); }
    if multiset(Gathered(kind, nodes)) == multiset(Numbered(items)) {
      RegroupingIsIdentity(Gathered(kind, nodes), items);
    }
  }

  // ----- the drawn connections -----

  /** The places, in ascending order. */
  ghost predicate Ascending(ps: seq<int>, places: set<int>) {
    (forall i, j :: 0 <= i < j < |ps| ==> ps[i] < ps[j]) && forall k :: k in ps <==> k in places
  }

  lemma {:induction false} AscendingIsUnique(ps: seq<int>, qs: seq<int>, places: set<int>)
    requires Ascending(ps, places) && Ascending(qs, places)
    ensures ps == qs
    decreases |ps|
  {
    if ps == [] {
      if qs != [] { LastIsGreatest(qs, places); }
    } else {
      assert ps[0] in ps && ps[0] in qs;
      LastIsGreatest(ps, places);
      LastIsGreatest(qs, places);
      var p := ps[|ps| - 1];
      AllButLast(ps, places);
      AllButLast(qs, places);
      AscendingIsUnique(ps[..|ps| - 1], qs[..|qs| - 1], places - {p});
      assert ps == ps[..|ps| - 1] + [p] && qs == qs[..|qs| - 1] + [p];
    }
  }

  lemma LastIsGreatest(ps: seq<int>, places: set<int>)
    requires Ascending(ps, places) && ps != []
    ensures ps[|ps| - 1] in places && forall k :: k in places ==> k <= ps[|ps| - 1]
  {
    assert ps[|ps| - 1] in ps;
    forall k | k in places
      ensures k <= ps[|ps| - 1]
    {
      var i :| 0 <= i < |ps| && ps[i] == k;
    }
  }

  lemma AllButLast(ps: seq<int>, places: set<int>)
    requires Ascending(ps, places) && ps != []
    ensures Ascending(ps[..|ps| - 1], places - {ps[|ps| - 1]})
  {
    assert ps == ps[..|ps| - 1] + [ps[|ps| - 1]];
  }

  lemma AscendingGrows(ps: seq<int>, places: set<int>, n: int)
    requires Ascending(ps, places) && forall k :: k in places ==> k < n
    ensures Ascending(ps + [n], places + {n})
  {
    forall i, j | 0 <= i < j < |ps + [n]|
      ensures (ps + [n])[i] < (ps + [n])[j]
    {
      assert ps[i] in ps;
    }
  }

  predicate HaveSource(edges: seq<Object>) {
    forall k :: 0 <= k < |edges| ==> "source" in edges[k] && "target" in edges[k]
  }

  /** The edges that leave a source. */
  function PlacesFrom(show: Show, edges: seq<Object>, source: string): set<int>
    requires HaveSource(edges)
  {
    set k | 0 <= k < |edges| && show(edges[k]["source"]) == source
  }

  /** One hop for each edge, to its target, numbered as they come. */
  predicate IsHops(edges: seq<Object>, ps: seq<int>, hops: seq<Value>)
    requires HaveSource(edges) && forall i :: 0 <= i < |ps| ==> 0 <= ps[i] < |edges|
  {
    |hops| == |ps| && forall i :: 0 <= i < |ps| ==>
      hops[i] == P.Dict(map["node" := edges[ps[i]]["target"], "type" := P.Str("main"), "index" := P.Int(i)])
  }

  ghost predicate IsSlot(show: Show, edges: seq<Object>, source: string, slot: Value)
    requires HaveSource(edges)
  {
    exists ps, hops :: Ascending(ps, PlacesFrom(show, edges, source))
      && (forall i :: 0 <= i < |ps| ==> 0 <= ps[i] < |edges|) && IsHops(edges, ps, hops)
      && slot == P.Dict(map["main" := P.List([P.List(hops)])])
  }

  ghost predicate HasEdgeFrom(show: Show, edges: seq<Object>, source: string)
    requires HaveSource(edges)
  {
    exists k :: 0 <= k < |edges| && show(edges[k]["source"]) == source
  }

  /** Every source has its slot, with its edges in order; nothing else is drawn. */
  ghost predicate Draws(show: Show, edges: seq<Object>, connections: Object)
    requires HaveSource(edges)
  {
    && (forall source :: source in connections <==> HasEdgeFrom(show, edges, source))
    && forall source :: source in connections ==> IsSlot(show, edges, source, connections[source])
  }

  lemma PlacesGrow(show: Show, edges: seq<Object>, source: string)
    requires HaveSource(edges) && edges != []
    ensures var n := |edges| - 1;
      PlacesFrom(show, edges, source) ==
        PlacesFrom(show, edges[..n], source) + if show(edges[n]["source"]) == source then {n} else {}
  {
    var n := |edges| - 1;
    assert forall k :: 0 <= k < n ==> edges[..n][k] == edges[k];
  }

  lemma HopsOfMore(edges: seq<Object>, ps: seq<int>, hops: seq<Value>)
    requires HaveSource(edges) && edges != [] && (forall i :: 0 <= i < |ps| ==> 0 <= ps[i] < |edges| - 1)
    requires IsHops(edges[..|edges| - 1], ps, hops)
    ensures var n := |edges| - 1;
      && IsHops(edges, ps, hops)
      && IsHops(edges, ps + [n],
        hops + [P.Dict(map["node" := edges[n]["target"], "type" := P.Str("main"), "index" := P.Int(|hops|)])])
  {
  }

  lemma {:induction false} HopsAre(show: Show, edges: seq<Object>, source: string) returns (ps: seq<int>)
    requires KnownItems(Edges, edges)
    ensures Ascending(ps, PlacesFrom(show, edges, source)) && forall i :: 0 <= i < |ps| ==> 0 <= ps[i] < |edges|
    ensures IsHops(edges, ps, HopsFrom(show, edges, source))
    decreases |edges|
  {
    if edges == [] {
      ps := [];
    } else {
      var n := |edges| - 1;
      ps := HopsAre(show, edges[..n], source);
      PlacesGrow(show, edges, source);
      HopsOfMore(edges, ps, HopsFrom(show, edges[..n], source));
      if show(edges[n]["source"]) == source {
        AscendingGrows(ps, PlacesFrom(show, edges[..n], source), n);
        ps := ps + [n];
      }
    }
  }

  lemma SlotExactly(show: Show, edges: seq<Object>, source: string, slot: Value)
    requires KnownItems(Edges, edges)
    ensures slot == Slot(HopsFrom(show, edges, source)) <==> IsSlot(show, edges, source, slot)
  {
    var ps := HopsAre(show, edges, source);
    if IsSlot(show, edges, source, slot) {
      var qs, hops :| Ascending(qs, PlacesFrom(show, edges, source))
        && (forall i :: 0 <= i < |qs| ==> 0 <= qs[i] < |edges|) && IsHops(edges, qs, hops)
        && slot == P.Dict(map["main" := P.List([P.List(hops)])]);
      AscendingIsUnique(ps, qs, PlacesFrom(show, edges, source));
      assert hops == HopsFrom(show, edges, source);
    }
  }

  lemma SourcesExactly(show: Show, edges: seq<Object>)
    requires KnownItems(Edges, edges)
    ensures forall source :: source in Connections(show, edges) <==> HasEdgeFrom(show, edges, source)
  {
  }

  lemma DrawnDraws(show: Show, edges: seq<Object>)
    requires KnownItems(Edges, edges)
    ensures Draws(show, edges, Connections(show, edges))
  {
    SourcesExactly(show, edges);
    forall source | source in Connections(show, edges)
      ensures IsSlot(show, edges, source, Connections(show, edges)[source])
    {
      SlotExactly(show, edges, source, Connections(show, edges)[source]);
    }
  }

  lemma DrawsUniquely(show: Show, edges: seq<Object>, connections: Object)
    requires KnownItems(Edges, edges) && Draws(show, edges, connections)
    ensures connections == Connections(show, edges)
  {
    SourcesExactly(show, edges);
    assert connections.Keys == Connections(show, edges).Keys;
    forall source | source in connections
      ensures connections[source] == Slot(HopsFrom(show, edges, source))
    {
      SlotExactly(show, edges, source, connections[source]);
    }
  }

  lemma DrawsExactly(show: Show, edges: seq<Object>, connections: Object)
    requires KnownItems(Edges, edges)
    ensures connections == Connections(show, edges) <==> Draws(show, edges, connections)
  {
    DrawnDraws(show, edges);
    if Draws(show, edges, connections) { DrawsUniquely(show, edges, connections); }
  }

  // ----- the network and the design -----

  /** The keys that are named in the metadata, and under them the lists. */
  predicate NetworkReads(network: Object, keys: seq<Value>, parts: Parts) {
    && network.Keys == {"components"}
      + (if P.Str("edges") in keys then {"edges"} else {}) + (if P.Str("iips") in keys then {"iips"} else {})
    && ListsObjects(network["components"], parts.components)
    && ("edges" in network ==> ListsObjects(network["edges"], parts.edges))
    && ("iips" in network ==> ListsObjects(network["iips"], parts.iips))
  }

  lemma ListsObjectsExactly(value: Value, objects: seq<Object>)
    ensures ListsObjects(value, objects) <==> value == P.List(AsDicts(objects))
  {
    if ListsObjects(value, objects) { assert value.items == AsDicts(objects); }
  }

  lemma NetworkReadsExactly(network: Object, keys: seq<Value>, parts: Parts)
    ensures network == NetworkOf(keys, parts) <==> NetworkReads(network, keys, parts)
  {
    var made := NetworkOf(keys, parts);
    ListsObjectsExactly(made["components"], parts.components);
    if "edges" in made { ListsObjectsExactly(made["edges"], parts.edges); }
    if "iips" in made { ListsObjectsExactly(made["iips"], parts.iips); }
    if NetworkReads(network, keys, parts) {
      ListsObjectsExactly(network["components"], parts.components);
      if "edges" in network { ListsObjectsExactly(network["edges"], parts.edges); }
      if "iips" in network { ListsObjectsExactly(network["iips"], parts.iips); }
      assert network.Keys == made.Keys;
      assert network == made;
    }
  }

  /** The text under a key, as str() shows it; none is the empty text. */
  predicate Says(show: Show, m: Object, key: string, text: string) {
    if key in m then text == show(m[key]) else text == ""
  }

  predicate RequestedReads(show: Show, value: Value, read: Requested) {
    value.Dict? && "name" in value.fields && "requested" in value.fields
    && read == Requested(show(value.fields["name"]), show(value.fields["requested"]))
  }

  /** What Python takes for false. */
  predicate Falsy(value: Value) {
    value == P.Null || value == P.Bool(false) || value == P.Int(0) || value == P.Float(0.0) || value == P.Str("")
    || value == P.List([]) || value == P.Dict(map[])
  }

  predicate GrantReads(show: Show, value: Value, read: EnvelopeGrant) {
    && value.Dict? && Says(show, value.fields, "component", read.component)
    && if "bounds" in value.fields && !Falsy(value.fields["bounds"]) then value.fields["bounds"] == P.Dict(read.bounds)
       else read.bounds == map[]
  }

  predicate ListOrNone(m: Object, key: string, items: seq<Value>) {
    if key in m then m[key] == P.List(items) else items == []
  }

  predicate ObjectOrNone(m: Object, key: string, fields: Object) {
    if key in m then m[key] == P.Dict(fields) else fields == map[]
  }

  /** The requested components and the envelopes, each named once. */
  predicate Sane(d: Design) {
    && d.schema == "design.v1" && d.id != ""
    && (forall i :: 0 <= i < |d.components| ==> d.components[i].name != "" && d.components[i].requested != "")
    && (forall i :: 0 <= i < |d.envelopes| ==> d.envelopes[i].component != "")
    && (forall i, j :: 0 <= i < j < |d.components| ==> d.components[i].name != d.components[j].name)
    && forall i, j :: 0 <= i < j < |d.envelopes| ==> d.envelopes[i].component != d.envelopes[j].component
  }

  ghost predicate DesignReads(show: Show, meta: Object, d: Design) {
    && Says(show, meta, "id", d.id) && Says(show, meta, "title", d.title) && Says(show, meta, "schema", d.schema)
    && ObjectOrNone(meta, "metadata", d.metadata) && Sane(d)
    && (exists items :: ListOrNone(meta, "components", items) && RequestedRead(show, items, d.components))
    && exists items :: ListOrNone(meta, "envelopes", items) && GrantsRead(show, items, d.envelopes)
  }

  predicate RequestedRead(show: Show, items: seq<Value>, read: seq<Requested>) {
    |read| == |items| && forall i :: 0 <= i < |items| ==> RequestedReads(show, items[i], read[i])
  }

  predicate GrantsRead(show: Show, items: seq<Value>, read: seq<EnvelopeGrant>) {
    |read| == |items| && forall i :: 0 <= i < |items| ==> GrantReads(show, items[i], read[i])
  }

  lemma GrantReadsExactly(show: Show, value: Value, read: EnvelopeGrant)
    requires IsShow(show)
    ensures IsGrant(value) && GrantFrom(show, value) == read <==> GrantReads(show, value, read)
  {
    if value.Dict? {
      assert show(P.Str("")) == "";
      assert BoundsFrom(value.fields) == Some(read.bounds) <==>
        if "bounds" in value.fields && !Falsy(value.fields["bounds"]) then value.fields["bounds"] == P.Dict(read.bounds)
        else read.bounds == map[];
    }
  }

  lemma RequestedReadExactly(show: Show, items: seq<Value>, read: seq<Requested>)
    ensures RequestedRead(show, items, read) <==>
      && (forall i :: 0 <= i < |items| ==> IsRequested(items[i])) && |read| == |items|
      && forall i :: 0 <= i < |items| ==> read[i] == RequestedFrom(show, items[i])
  {
  }

  lemma GrantsReadExactly(show: Show, items: seq<Value>, read: seq<EnvelopeGrant>)
    requires IsShow(show)
    ensures GrantsRead(show, items, read) <==>
      && (forall i :: 0 <= i < |items| ==> IsGrant(items[i])) && |read| == |items|
      && forall i :: 0 <= i < |items| ==> read[i] == GrantFrom(show, items[i])
  {
    forall i | 0 <= i < |items| && |read| == |items|
      ensures IsGrant(items[i]) && GrantFrom(show, items[i]) == read[i] <==> GrantReads(show, items[i], read[i])
    {
      GrantReadsExactly(show, items[i], read[i]);
    }
  }

  /** The metadata when its lists are these. */
  ghost predicate MetaReads(
      show: Show, meta: Object, d: Design, components: seq<Value>, envelopes: seq<Value>)
  {
    && Says(show, meta, "id", d.id) && Says(show, meta, "title", d.title) && Says(show, meta, "schema", d.schema)
    && ObjectOrNone(meta, "metadata", d.metadata) && Sane(d)
    && RequestedRead(show, components, d.components) && GrantsRead(show, envelopes, d.envelopes)
  }

  lemma MetaReadsExactly(
      show: Show, meta: Object, network: Object, d: Design, components: seq<Value>, envelopes: seq<Value>)
    requires IsShow(show) && d.network == network
    requires ListOrNone(meta, "components", components) && ListOrNone(meta, "envelopes", envelopes)
    ensures DesignFrom(show, meta, network) == Some(d) <==> MetaReads(show, meta, d, components, envelopes)
  {
    RequestedReadExactly(show, components, d.components);
    GrantsReadExactly(show, envelopes, d.envelopes);
    SaneExactly(d);
    TextsRead(show, meta, d);
    if MetaReads(show, meta, d, components, envelopes) { ReadsMeta(show, meta, network, d, components, envelopes); }
  }

  lemma SaneExactly(d: Design)
    ensures ValidDesign(d) <==> Sane(d)
  {
  }

  lemma TextsRead(show: Show, meta: Object, d: Design)
    requires IsShow(show)
    ensures d.id == show(Field(meta, "id", P.Str(""))) <==> Says(show, meta, "id", d.id)
    ensures d.title == show(Field(meta, "title", P.Str(""))) <==> Says(show, meta, "title", d.title)
    ensures d.schema == show(Field(meta, "schema", P.Str(""))) <==> Says(show, meta, "schema", d.schema)
  {
    assert show(P.Str("")) == "";
  }

  lemma ReadsMeta(
      show: Show, meta: Object, network: Object, d: Design, components: seq<Value>, envelopes: seq<Value>)
    requires IsShow(show) && d.network == network && MetaReads(show, meta, d, components, envelopes)
    requires ListOrNone(meta, "components", components) && ListOrNone(meta, "envelopes", envelopes)
    ensures DesignFrom(show, meta, network) == Some(d)
  {
    RequestedReadExactly(show, components, d.components);
    GrantsReadExactly(show, envelopes, d.envelopes);
    SaneExactly(d);
    TextsRead(show, meta, d);
    assert d.components == seq(|components|, i requires 0 <= i < |components| && IsRequested(components[i]) =>
      RequestedFrom(show, components[i]));
    assert d.envelopes == seq(|envelopes|, i requires 0 <= i < |envelopes| && IsGrant(envelopes[i]) =>
      GrantFrom(show, envelopes[i]));
  }

  lemma DesignReadsExactly(show: Show, meta: Object, network: Object, d: Design)
    requires IsShow(show)
    ensures DesignFrom(show, meta, network) == Some(d) <==> d.network == network && DesignReads(show, meta, d)
  {
    if d.network == network {
      forall components, envelopes
        | ListOrNone(meta, "components", components) && ListOrNone(meta, "envelopes", envelopes)
        ensures DesignFrom(show, meta, network) == Some(d) <==> MetaReads(show, meta, d, components, envelopes)
      {
        MetaReadsExactly(show, meta, network, d, components, envelopes);
      }
      if DesignFrom(show, meta, network) == Some(d) {
        var components := Field(meta, "components", P.List([])).items;
        var envelopes := Field(meta, "envelopes", P.List([])).items;
        assert ListOrNone(meta, "components", components) && ListOrNone(meta, "envelopes", envelopes);
        assert MetaReads(show, meta, d, components, envelopes);
      }
    }
  }

  // ----- what a workflow is read as -----

  predicate KeysRead(m: Object, keys: seq<Value>) {
    && Has(m, "network_keys", P.List(keys)) && P.Str("components") in keys
    && (forall i :: 0 <= i < |keys| ==> keys[i].Str?)
    && forall i, j :: 0 <= i < j < |keys| ==> keys[i] != keys[j]
  }

  /** Every edge starts at one of the nodes. */
  ghost predicate StartsAtNodes(edges: seq<Object>, nodes: seq<NodeParts>) {
    HaveSource(edges) && forall k :: 0 <= k < |edges| ==> NamesANode(edges[k]["source"], nodes)
  }

  ghost predicate NamesANode(name: Value, nodes: seq<NodeParts>) {
    exists i :: 0 <= i < |nodes| && name == P.Str(nodes[i].name)
  }

  ghost predicate PartsRead(show: Show, nodes: seq<NodeParts>, connections: Object, parts: Parts) {
    && |parts.components| == |nodes| && (forall i :: 0 <= i < |nodes| ==> parts.components[i] == nodes[i].component)
    && InPlaces(Edges, nodes, parts.edges) && InPlaces(Iips, nodes, parts.iips)
    && StartsAtNodes(parts.edges, nodes) && Draws(show, parts.edges, connections)
  }

  /** The nodes, the lists put back together from them, and the design around those lists. */
  ghost predicate WorkflowReads(show: Show, w: Value, d: Design, nodes: seq<NodeParts>, parts: Parts) {
    && w.Dict? && "nodes" in w.fields && w.fields["nodes"].List? && NodesRead(w.fields["nodes"].items, nodes)
    && "connections" in w.fields && w.fields["connections"].Dict?
    && PartsRead(show, nodes, w.fields["connections"].fields, parts)
    && "meta" in w.fields && w.fields["meta"].Dict?
    && "cbp" in w.fields["meta"].fields && w.fields["meta"].fields["cbp"].Dict?
    && MetadataReads(show, w.fields["meta"].fields["cbp"].fields, d, parts)
  }

  ghost predicate MetadataReads(show: Show, m: Object, d: Design, parts: Parts) {
    && Has(m, "projection", P.Str("cbp.n8n.projection/v1")) && DesignReads(show, m, d)
    && exists keys :: KeysRead(m, keys) && NetworkReads(d.network, keys, parts)
  }

  /** What sits in its place is filed under its node. */
  lemma InPlacesAreKnown(kind: Kind, nodes: seq<NodeParts>, items: seq<Object>)
    requires AllWellFiled(nodes) && InPlaces(kind, nodes, items)
    ensures KnownItems(kind, items)
    ensures forall k :: 0 <= k < |items| ==> Seen(items[k][OwnerKey(kind)], nodes)
  {
    forall k | 0 <= k < |items|
      ensures KnownItem(kind, items[k]) && Seen(items[k][OwnerKey(kind)], nodes)
    {
      assert IsSeated(kind, nodes, (k, items[k]));
      var i, j :| Sits(kind, nodes, i, j, (k, items[k]));
      assert WellFiled(Edges, nodes[i]) && WellFiled(Iips, nodes[i]);
    }
  }

  lemma StartsExactly(edges: seq<Object>, nodes: seq<NodeParts>)
    requires KnownItems(Edges, edges) && forall k :: 0 <= k < |edges| ==> Seen(edges[k]["target"], nodes)
    ensures EndpointsSeen(edges, nodes) <==> StartsAtNodes(edges, nodes)
  {
    forall k | 0 <= k < |edges|
      ensures "source" in edges[k] && "target" in edges[k]
      ensures Seen(edges[k]["source"], nodes) <==> NamesANode(edges[k]["source"], nodes)
    {
      assert KnownItem(Edges, edges[k]);
    }
  }

  lemma ComponentsRead(nodes: seq<NodeParts>, components: seq<Object>)
    ensures components == ComponentsOf(nodes) <==>
      |components| == |nodes| && forall i :: 0 <= i < |nodes| ==> components[i] == nodes[i].component
  {
  }

  lemma EdgesReadExactly(show: Show, nodes: seq<NodeParts>, connections: Object, edges: seq<Object>)
    requires AllWellFiled(nodes) && InPlaces(Edges, nodes, edges)
    ensures KnownItems(Edges, edges)
    ensures EndpointsSeen(edges, nodes) && connections == Connections(show, edges) <==>
      StartsAtNodes(edges, nodes) && Draws(show, edges, connections)
  {
    InPlacesAreKnown(Edges, nodes, edges);
    StartsExactly(edges, nodes);
    DrawsExactly(show, edges, connections);
  }

  lemma PartsReadExactly(show: Show, nodes: seq<NodeParts>, connections: Object, parts: Parts)
    requires AllWellFiled(nodes)
    ensures Assemble(show, nodes, connections) == Some(parts) <==> PartsRead(show, nodes, connections, parts)
  {
    ArrangedExactly(Edges, nodes, parts.edges);
    ArrangedExactly(Iips, nodes, parts.iips);
    ComponentsRead(nodes, parts.components);
    if InPlaces(Edges, nodes, parts.edges) { EdgesReadExactly(show, nodes, connections, parts.edges); }
    AssembledFrom(show, nodes, connections, parts);
  }

  lemma AssembledFrom(show: Show, nodes: seq<NodeParts>, connections: Object, parts: Parts)
    requires AllWellFiled(nodes)
    ensures Assemble(show, nodes, connections) == Some(parts) <==>
      && Arrange(Gathered(Edges, nodes)) == Some(parts.edges) && Arrange(Gathered(Iips, nodes)) == Some(parts.iips)
      && parts.components == ComponentsOf(nodes)
      && KnownItems(Edges, parts.edges) && EndpointsSeen(parts.edges, nodes)
      && connections == Connections(show, parts.edges)
  {
    if Arrange(Gathered(Edges, nodes)) == Some(parts.edges) { ArrangedIsSeen(Edges, nodes, parts.edges); }
  }

  lemma ImportedFromReads(show: Show, nodes: seq<Value>, connections: Object, cbp: Value, d: Design)
    returns (read: seq<NodeParts>, parts: Parts)
    requires IsShow(show) && ImportedFrom(show, nodes, connections, cbp) == Some(d)
    ensures NodesRead(nodes, read) && PartsRead(show, read, connections, parts)
    ensures cbp.Dict? && MetadataReads(show, cbp.fields, d, parts)
  {
    read := ParseNodes(nodes).value;
    parts := Assemble(show, read, connections).value;
    NodesReadExactly(nodes, read);
    PartsReadExactly(show, read, connections, parts);
    var keys := cbp.fields["network_keys"].items;
    DesignReadsExactly(show, cbp.fields, NetworkOf(keys, parts), d);
    NetworkReadsExactly(d.network, keys, parts);
    assert KeysRead(cbp.fields, keys);
  }

  lemma ReadsDesign(show: Show, meta: Object, d: Design, keys: seq<Value>, parts: Parts)
    requires IsShow(show) && DesignReads(show, meta, d) && KeysRead(meta, keys) && NetworkReads(d.network, keys, parts)
    ensures KeysOk(keys) && DesignFrom(show, meta, NetworkOf(keys, parts)) == Some(d)
  {
    NetworkReadsExactly(d.network, keys, parts);
    DesignReadsExactly(show, meta, d.network, d);
  }

  lemma ReadsParts(show: Show, nodes: seq<Value>, connections: Object, read: seq<NodeParts>, parts: Parts)
    requires NodesRead(nodes, read) && PartsRead(show, read, connections, parts)
    ensures ParseNodes(nodes) == Some(read) && Assemble(show, read, connections) == Some(parts)
  {
    NodesReadExactly(nodes, read);
    PartsReadExactly(show, read, connections, parts);
  }

  lemma ReadsImportedFrom(
      show: Show, nodes: seq<Value>, connections: Object, meta: Object, d: Design, read: seq<NodeParts>, parts: Parts,
      keys: seq<Value>)
    requires IsShow(show) && NodesRead(nodes, read) && PartsRead(show, read, connections, parts)
    requires Has(meta, "projection", P.Str("cbp.n8n.projection/v1")) && DesignReads(show, meta, d)
    requires KeysRead(meta, keys) && NetworkReads(d.network, keys, parts)
    ensures ImportedFrom(show, nodes, connections, P.Dict(meta)) == Some(d)
  {
    ReadsParts(show, nodes, connections, read, parts);
    ReadsDesign(show, meta, d, keys, parts);
    ImportedThrough(show, nodes, connections, meta, keys, read, parts, d);
  }

  lemma ImportedReads(show: Show, w: Value, d: Design) returns (nodes: seq<NodeParts>, parts: Parts)
    requires IsShow(show) && Imported(show, w) == Some(d)
    ensures WorkflowReads(show, w, d, nodes, parts)
  {
    nodes, parts := ImportedFromReads(show, w.fields["nodes"].items, w.fields["connections"].fields,
      Field(w.fields["meta"].fields, "cbp", P.Null), d);
  }

  lemma ReadsImported(show: Show, w: Value, d: Design, nodes: seq<NodeParts>, parts: Parts)
    requires IsShow(show) && WorkflowReads(show, w, d, nodes, parts)
    ensures Imported(show, w) == Some(d)
  {
    var meta := w.fields["meta"].fields["cbp"].fields;
    var keys :| KeysRead(meta, keys) && NetworkReads(d.network, keys, parts);
    ReadsImportedFrom(show, w.fields["nodes"].items, w.fields["connections"].fields, meta, d, nodes, parts, keys);
    ImportedByFields(show, w, w.fields["nodes"].items, w.fields["connections"].fields, meta);
  }

  lemma ImportedByFields(show: Show, w: Value, nodes: seq<Value>, connections: Object, meta: Object)
    requires w.Dict? && Has(w.fields, "nodes", P.List(nodes)) && Has(w.fields, "connections", P.Dict(connections))
    requires "meta" in w.fields && w.fields["meta"].Dict? && Has(w.fields["meta"].fields, "cbp", P.Dict(meta))
    ensures Imported(show, w) == ImportedFrom(show, nodes, connections, P.Dict(meta))
  {
  }

  /** A workflow is imported as a design exactly when it is read as that design. */
  lemma ImportedExactly(show: Show, w: Value, d: Design)
    requires IsShow(show)
    ensures Imported(show, w) == Some(d) <==> exists nodes, parts :: WorkflowReads(show, w, d, nodes, parts)
  {
    if Imported(show, w) == Some(d) { var nodes, parts := ImportedReads(show, w, d); }
    if nodes, parts :| WorkflowReads(show, w, d, nodes, parts) { ReadsImported(show, w, d, nodes, parts); }
  }

  // ----- how a design is drawn -----

  predicate ListOfObjectsOrNone(network: Object, key: string, objects: seq<Object>) {
    if key in network then ListsObjects(network[key], objects) else objects == []
  }

  predicate ComponentHolds(c: Object) {
    {"id", "task"} <= c.Keys
    && c.Keys <= {"id", "task", "args", "verifier", "child", "ports", "port_types", "stream", "external"}
  }

  predicate EdgeHolds(edge: Object) {
    {"source", "source_field", "target", "target_arg"} <= edge.Keys
    && edge.Keys <= {"source", "source_field", "target", "target_arg", "capacity"} && edge["target"].Str?
  }

  /** The network lists these components, edges and initial packets, and says nothing else. */
  predicate NetworkHolds(network: Object, parts: Parts) {
    && network.Keys <= {"components", "edges", "iips"} && "components" in network
    && ListsObjects(network["components"], parts.components)
    && ListOfObjectsOrNone(network, "edges", parts.edges) && ListOfObjectsOrNone(network, "iips", parts.iips)
    && (forall i :: 0 <= i < |parts.components| ==> ComponentHolds(parts.components[i]))
    && (forall k :: 0 <= k < |parts.edges| ==> EdgeHolds(parts.edges[k]))
    && forall k :: 0 <= k < |parts.iips| ==> parts.iips[k].Keys == {"component", "port", "value"}
  }

  lemma ListsObjectsUnique(value: Value, objects: seq<Object>)
    ensures ListsObjects(value, objects) <==> value.List? && AllDicts(value.items) && Fields(value.items) == objects
  {
    if ListsObjects(value, objects) { assert Fields(value.items) == objects; }
  }

  lemma NetworkHoldsExactly(network: Object, parts: Parts)
    ensures PartsOf(network) == Some(parts) <==> NetworkHolds(network, parts)
  {
    ListsObjectsUnique(Field(network, "components", P.Null), parts.components);
    ListsObjectsUnique(Field(network, "edges", P.List([])), parts.edges);
    ListsObjectsUnique(Field(network, "iips", P.List([])), parts.iips);
    KnownPartsHold(parts);
  }

  lemma KnownPartsHold(parts: Parts)
    ensures KnownParts(parts) <==>
      && (forall i :: 0 <= i < |parts.components| ==> ComponentHolds(parts.components[i]))
      && (forall k :: 0 <= k < |parts.edges| ==> EdgeHolds(parts.edges[k]))
      && forall k :: 0 <= k < |parts.iips| ==> parts.iips[k].Keys == {"component", "port", "value"}
  {
    forall i | 0 <= i < |parts.components|
      ensures KnownComponent(parts.components[i]) <==> ComponentHolds(parts.components[i])
    {
      assert COMPONENT_REQUIRED + COMPONENT_OPTIONAL
        == {"id", "task", "args", "verifier", "child", "ports", "port_types", "stream", "external"};
    }
    forall k | 0 <= k < |parts.edges|
      ensures KnownItem(Edges, parts.edges[k]) <==> EdgeHolds(parts.edges[k])
    {
      assert Required(Edges) + Optionals(Edges) == {"source", "source_field", "target", "target_arg", "capacity"};
    }
    forall k | 0 <= k < |parts.iips|
      ensures KnownItem(Iips, parts.iips[k]) <==> parts.iips[k].Keys == {"component", "port", "value"}
    {
    }
  }

  /** The entry says everything of the item but its owner, and its place in the whole list. */
  predicate DrawsItem(kind: Kind, entry: Value, item: Object, place: int)
    requires KnownItem(kind, item)
  {
    entry.Dict?
    && match kind
       case Edges =>
         && entry.fields.Keys == {"from", "field", "arg", "cbp_order"} + (item.Keys * {"capacity"})
         && entry.fields["from"] == item["source"] && entry.fields["field"] == item["source_field"]
         && entry.fields["arg"] == item["target_arg"] && entry.fields["cbp_order"] == P.Int(place)
         && ("capacity" in item ==> entry.fields["capacity"] == item["capacity"])
       case Iips =>
         entry.fields == map["port" := item["port"], "value" := item["value"], "cbp_order" := P.Int(place)]
  }

  lemma DrawsItemExactly(kind: Kind, entry: Value, item: Object, place: int)
    requires KnownItem(kind, item)
    ensures entry == Entry(kind, item, place) <==> DrawsItem(kind, entry, item, place)
  {
    if kind.Edges? && entry.Dict? {
      var made := Entry(kind, item, place).fields;
      assert made.Keys == {"from", "field", "arg", "cbp_order"} + (item.Keys * {"capacity"});
      if DrawsItem(kind, entry, item, place) { assert entry.fields == made; }
    }
  }

  /** The items that go to the named node. */
  function PlacesOf(show: Show, kind: Kind, items: seq<Object>, name: string): set<int>
    requires KnownItems(kind, items)
  {
    match kind
    case Edges => set k | 0 <= k < |items| && items[k]["target"] == P.Str(name)
    case Iips => set k | 0 <= k < |items| && show(items[k]["component"]) == name
  }

  /** The node's entries draw just these, in order. */
  ghost predicate DrawsItems(show: Show, kind: Kind, items: seq<Object>, name: string, entries: Value)
    requires KnownItems(kind, items)
  {
    entries.List?
    && exists ps :: Ascending(ps, PlacesOf(show, kind, items, name)) && DrawsAt(kind, items, ps, entries.items)
  }

  predicate DrawsAt(kind: Kind, items: seq<Object>, ps: seq<int>, entries: seq<Value>)
    requires KnownItems(kind, items)
  {
    |entries| == |ps| && forall j :: 0 <= j < |ps| ==>
      0 <= ps[j] < |items| && DrawsItem(kind, entries[j], items[ps[j]], ps[j])
  }

  lemma ItemPlacesGrow(show: Show, kind: Kind, items: seq<Object>, name: string)
    requires KnownItems(kind, items) && items != []
    ensures var n := |items| - 1;
      PlacesOf(show, kind, items, name) ==
        PlacesOf(show, kind, items[..n], name) + if Owner(show, kind, items[n]) == name then {n} else {}
  {
    var n := |items| - 1;
    assert forall k :: 0 <= k < n ==> items[..n][k] == items[k];
  }

  lemma {:induction false} OwnedAre(show: Show, kind: Kind, items: seq<Object>, name: string) returns (ps: seq<int>)
    requires KnownItems(kind, items)
    ensures Ascending(ps, PlacesOf(show, kind, items, name)) && |ps| == |Owned(show, kind, items, name)|
    ensures forall j :: 0 <= j < |ps| ==>
      0 <= ps[j] < |items| && Owned(show, kind, items, name)[j] == (ps[j], items[ps[j]])
    decreases |items|
  {
    if items == [] {
      ps := [];
    } else {
      var n := |items| - 1;
      ps := OwnedAre(show, kind, items[..n], name);
      ItemPlacesGrow(show, kind, items, name);
      if Owner(show, kind, items[n]) == name {
        AscendingGrows(ps, PlacesOf(show, kind, items[..n], name), n);
        ps := ps + [n];
      }
    }
  }

  lemma DrawsItemsExactly(show: Show, kind: Kind, items: seq<Object>, name: string, entries: Value)
    requires KnownItems(kind, items)
    ensures entries == P.List(EntriesFor(show, kind, items, name)) <==> DrawsItems(show, kind, items, name, entries)
  {
    var ps := OwnedAre(show, kind, items, name);
    var drawn := EntriesFor(show, kind, items, name);
    forall j | 0 <= j < |ps|
      ensures forall entry :: entry == drawn[j] <==> DrawsItem(kind, entry, items[ps[j]], ps[j])
    {
      forall entry
        ensures entry == drawn[j] <==> DrawsItem(kind, entry, items[ps[j]], ps[j])
      {
        DrawsItemExactly(kind, entry, items[ps[j]], ps[j]);
      }
    }
    assert DrawsAt(kind, items, ps, drawn);
    if DrawsItems(show, kind, items, name, entries) {
      var qs :| Ascending(qs, PlacesOf(show, kind, items, name)) && DrawsAt(kind, items, qs, entries.items);
      AscendingIsUnique(ps, qs, PlacesOf(show, kind, items, name));
      assert entries.items == drawn;
    }
  }

  /** What the node says of its component: everything but the id, and the entries that go to it. */
  ghost predicate DrawsBody(show: Show, parts: Parts, c: Object, name: string, body: Object)
    requires KnownParts(parts)
  {
    && body.Keys == (c.Keys - {"id"}) + {"inputs", "iips"}
    && (forall key :: key in c && key != "id" ==> body[key] == c[key])
    && DrawsItems(show, Edges, parts.edges, name, body["inputs"])
    && DrawsItems(show, Iips, parts.iips, name, body["iips"])
  }

  /** Nodes stand six to a row, 220 apart, and rows 140 apart. */
  ghost predicate DrawsNode(show: Show, parts: Parts, i: nat, node: Value)
    requires KnownParts(parts) && i < |parts.components|
  {
    assert KnownComponent(parts.components[i]);
    var c := parts.components[i];
    var name := show(c["id"]);
    && node.Dict? && node.fields.Keys == {"id", "name", "type", "typeVersion", "position", "parameters"}
    && node.fields["id"] == P.Str("cbp-" + name) && node.fields["name"] == P.Str(name)
    && node.fields["type"] == P.Str("cbp.component") && node.fields["typeVersion"] == P.Int(1)
    && node.fields["position"] == P.List([P.Int(220 * (i % 6)), P.Int(140 * (i / 6))])
    && IsWrapped(node.fields["parameters"]) && DrawsBody(show, parts, c, name, Unwrapped(node.fields["parameters"]))
  }

  /** An object with the one key "cbp", and an object under it. */
  predicate IsWrapped(value: Value) {
    value.Dict? && value.fields.Keys == {"cbp"} && value.fields["cbp"].Dict?
  }

  function Unwrapped(value: Value): Object
    requires IsWrapped(value)
  {
    value.fields["cbp"].fields
  }

  lemma DrawsBodyExactly(show: Show, parts: Parts, c: Object, name: string, body: Object)
    requires KnownParts(parts) && KnownComponent(c)
    ensures body == NodeBody(c, EntriesFor(show, Edges, parts.edges, name), EntriesFor(show, Iips, parts.iips, name))
      <==> DrawsBody(show, parts, c, name, body)
  {
    BodyIs(c, EntriesFor(show, Edges, parts.edges, name), EntriesFor(show, Iips, parts.iips, name), body);
    if "inputs" in body && "iips" in body {
      DrawsItemsExactly(show, Edges, parts.edges, name, body["inputs"]);
      DrawsItemsExactly(show, Iips, parts.iips, name, body["iips"]);
    }
  }

  lemma BodyIs(c: Object, inputs: seq<Value>, iips: seq<Value>, body: Object)
    requires KnownComponent(c)
    ensures body == NodeBody(c, inputs, iips) <==>
      && body.Keys == (c.Keys - {"id"}) + {"inputs", "iips"}
      && (forall key :: key in c && key != "id" ==> body[key] == c[key])
      && body["inputs"] == P.List(inputs) && body["iips"] == P.List(iips)
  {
    var made := NodeBody(c, inputs, iips);
    BodyKeys(c, inputs, iips);
    forall key | key in c && key != "id"
      ensures Has(made, key, c[key])
    {
      BodyValues(c, inputs, iips, key);
    }
    if body.Keys == made.Keys && body["inputs"] == P.List(inputs) && body["iips"] == P.List(iips)
      && forall key :: key in c && key != "id" ==> body[key] == c[key]
    {
      forall key | key in body
        ensures body[key] == made[key]
      {
      }
      assert body == made;
    }
  }

  lemma BodyKeys(c: Object, inputs: seq<Value>, iips: seq<Value>)
    requires KnownComponent(c)
    ensures NodeBody(c, inputs, iips).Keys == (c.Keys - {"id"}) + {"inputs", "iips"}
  {
    assert NodeBody(c, inputs, iips).Keys == {"task"} + (c.Keys * COMPONENT_OPTIONAL) + {"inputs", "iips"};
  }

  lemma BodyValues(c: Object, inputs: seq<Value>, iips: seq<Value>, key: string)
    requires KnownComponent(c) && key in c && key != "id"
    ensures Has(NodeBody(c, inputs, iips), key, c[key])
  {
  }

  lemma NodeFields(name: string, index: nat, body: Object, node: Value)
    ensures node == Node(name, index, body) <==>
      && node.Dict? && node.fields.Keys == {"id", "name", "type", "typeVersion", "position", "parameters"}
      && node.fields["id"] == P.Str("cbp-" + name) && node.fields["name"] == P.Str(name)
      && node.fields["type"] == P.Str("cbp.component") && node.fields["typeVersion"] == P.Int(1)
      && node.fields["position"] == P.List([P.Int(220 * (index % 6)), P.Int(140 * (index / 6))])
      && IsWrapped(node.fields["parameters"]) && Unwrapped(node.fields["parameters"]) == body
  {
    var made := Node(name, index, body).fields;
    assert made["position"] == P.List([P.Int(220 * (index % 6)), P.Int(140 * (index / 6))]);
    if node.Dict? && node.fields.Keys == made.Keys && IsWrapped(node.fields["parameters"])
      && Unwrapped(node.fields["parameters"]) == body
    {
      assert node.fields["parameters"].fields == map["cbp" := P.Dict(body)];
    }
  }

  lemma DrawsNodeExactly(show: Show, parts: Parts, i: nat, node: Value)
    requires KnownParts(parts) && i < |parts.components|
    ensures node == NodeOf(show, parts, i) <==> DrawsNode(show, parts, i, node)
  {
    var c := parts.components[i];
    assert KnownComponent(c);
    var name := show(c["id"]);
    var made := NodeBody(c, EntriesFor(show, Edges, parts.edges, name), EntriesFor(show, Iips, parts.iips, name));
    NodeFields(name, i, made, node);
    DrawsBodyExactly(show, parts, c, name, made);
    if node.Dict? && "parameters" in node.fields && IsWrapped(node.fields["parameters"]) {
      DrawsBodyExactly(show, parts, c, name, Unwrapped(node.fields["parameters"]));
    }
  }

  predicate DrawsRequested(value: Value, c: Requested) {
    value == P.Dict(map["name" := P.Str(c.name), "requested" := P.Str(c.requested)])
  }

  predicate DrawsGrant(value: Value, e: EnvelopeGrant) {
    value == P.Dict(map["component" := P.Str(e.component), "bounds" := P.Dict(e.bounds)])
  }

  /** The metadata: the design's own fields, its requested components, and its envelopes if it has any. */
  predicate DrawsMeta(d: Design, meta: Object) {
    && meta.Keys == {"projection", "schema", "id", "title", "components", "metadata", "network_keys"}
      + (if d.envelopes == [] then {} else {"envelopes"})
    && meta["projection"] == P.Str("cbp.n8n.projection/v1") && meta["schema"] == P.Str(d.schema)
    && meta["id"] == P.Str(d.id) && meta["title"] == P.Str(d.title) && meta["metadata"] == P.Dict(d.metadata)
    && meta["components"].List? && |meta["components"].items| == |d.components|
    && (forall i :: 0 <= i < |d.components| ==> DrawsRequested(meta["components"].items[i], d.components[i]))
    && (d.envelopes != [] ==>
          && meta["envelopes"].List? && |meta["envelopes"].items| == |d.envelopes|
          && forall i :: 0 <= i < |d.envelopes| ==> DrawsGrant(meta["envelopes"].items[i], d.envelopes[i]))
    && meta["network_keys"] == P.List([P.Str("components")]
         + (if "edges" in d.network then [P.Str("edges")] else [])
         + (if "iips" in d.network then [P.Str("iips")] else []))
  }

  lemma MetaDraws(d: Design)
    requires "components" in d.network
    ensures DrawsMeta(d, MetaOf(d))
  {
    assert MetaOf(d).Keys == {"projection", "schema", "id", "title", "components", "metadata", "network_keys"}
      + (if d.envelopes == [] then {} else {"envelopes"});
  }

  lemma ListsDrawUniquely(d: Design, meta: Object, other: Object)
    requires DrawsMeta(d, meta) && DrawsMeta(d, other)
    ensures meta["components"] == other["components"]
    ensures d.envelopes != [] ==> meta["envelopes"] == other["envelopes"]
  {
    assert meta["components"].items == other["components"].items;
    if d.envelopes != [] { assert meta["envelopes"].items == other["envelopes"].items; }
  }

  lemma DrawsMetaExactly(d: Design, meta: Object)
    requires "components" in d.network
    ensures meta == MetaOf(d) <==> DrawsMeta(d, meta)
  {
    MetaDraws(d);
    if DrawsMeta(d, meta) {
      ListsDrawUniquely(d, meta, MetaOf(d));
      forall key | key in meta
        ensures meta[key] == MetaOf(d)[key]
      {
      }
      assert meta == MetaOf(d);
    }
  }

  /** The workflow draws the design: a node for each component, a slot for each source, and the metadata. */
  ghost predicate WorkflowDraws(show: Show, d: Design, parts: Parts, w: Value) {
    && NetworkHolds(d.network, parts) && KnownParts(parts)
    && w.Dict? && w.fields.Keys == {"name", "nodes", "connections", "settings", "meta"}
    && w.fields["name"] == P.Str(if d.title == "" then d.id else d.title) && w.fields["settings"] == P.Dict(map[])
    && w.fields["nodes"].List? && NodesDraw(show, parts, w.fields["nodes"].items)
    && w.fields["connections"].Dict? && Draws(show, parts.edges, w.fields["connections"].fields)
    && IsWrapped(w.fields["meta"]) && DrawsMeta(d, Unwrapped(w.fields["meta"]))
  }

  ghost predicate NodesDraw(show: Show, parts: Parts, nodes: seq<Value>)
    requires KnownParts(parts)
  {
    |nodes| == |parts.components| && forall i :: 0 <= i < |nodes| ==> DrawsNode(show, parts, i, nodes[i])
  }

  lemma NodesDrawExactly(show: Show, parts: Parts, nodes: seq<Value>)
    requires KnownParts(parts)
    ensures nodes == NodesOf(show, parts) <==> NodesDraw(show, parts, nodes)
  {
    forall i, node | 0 <= i < |parts.components|
      ensures node == NodeOf(show, parts, i) <==> DrawsNode(show, parts, i, node)
    {
      DrawsNodeExactly(show, parts, i, node);
    }
  }

  lemma WorkflowParts(name: string, nodes: seq<Value>, connections: Object, meta: Object, w: Value)
    ensures w == Workflow(name, nodes, connections, meta) <==>
      && w.Dict? && w.fields.Keys == {"name", "nodes", "connections", "settings", "meta"}
      && w.fields["name"] == P.Str(name) && w.fields["settings"] == P.Dict(map[])
      && w.fields["nodes"] == P.List(nodes) && w.fields["connections"] == P.Dict(connections)
      && IsWrapped(w.fields["meta"]) && Unwrapped(w.fields["meta"]) == meta
  {
    if w.Dict? && "meta" in w.fields && IsWrapped(w.fields["meta"]) && Unwrapped(w.fields["meta"]) == meta {
      assert w.fields["meta"].fields == map["cbp" := P.Dict(meta)];
    }
  }

  lemma DrawnWorkflow(show: Show, d: Design, parts: Parts, w: Value)
    requires NetworkHolds(d.network, parts) && KnownParts(parts)
    ensures w == Workflow(if d.title == "" then d.id else d.title, NodesOf(show, parts), Connections(show, parts.edges),
        MetaOf(d))
      <==> WorkflowDraws(show, d, parts, w)
  {
    WorkflowParts(if d.title == "" then d.id else d.title, NodesOf(show, parts), Connections(show, parts.edges),
      MetaOf(d), w);
    if w.Dict? && w.fields.Keys == {"name", "nodes", "connections", "settings", "meta"} {
      if w.fields["nodes"].List? { NodesDrawExactly(show, parts, w.fields["nodes"].items); }
      if w.fields["connections"].Dict? { DrawsExactly(show, parts.edges, w.fields["connections"].fields); }
      if IsWrapped(w.fields["meta"]) { DrawsMetaExactly(d, Unwrapped(w.fields["meta"])); }
    }
  }

  /** A design is exported as a workflow exactly when the workflow draws it. */
  lemma ExportedExactly(show: Show, d: Design, w: Value)
    ensures Exported(show, d) == Some(w) <==> exists parts :: WorkflowDraws(show, d, parts, w)
  {
    if Exported(show, d) == Some(w) {
      var parts := PartsOf(d.network).value;
      NetworkHoldsExactly(d.network, parts);
      DrawnWorkflow(show, d, parts, w);
      assert WorkflowDraws(show, d, parts, w);
    }
    if parts :| WorkflowDraws(show, d, parts, w) {
      NetworkHoldsExactly(d.network, parts);
      DrawnWorkflow(show, d, parts, w);
    }
  }

  /** The outcome of an import: the design that the workflow is read as, if there is one. */
  ghost predicate IsReadAs(show: Show, w: Value, outcome: Option<Design>) {
    forall d :: outcome == Some(d) <==> exists nodes, parts :: WorkflowReads(show, w, d, nodes, parts)
  }

  /** The outcome of an export: the workflow that draws the design, if there is one. */
  ghost predicate IsDrawnAs(show: Show, d: Design, outcome: Option<Value>) {
    forall w :: outcome == Some(w) <==> exists parts :: WorkflowDraws(show, d, parts, w)
  }

  lemma ReadExactly(show: Show, w: Value)
    ensures IsShow(show) ==> IsReadAs(show, w, Imported(show, w))
  {
    if IsShow(show) {
      forall d
        ensures Imported(show, w) == Some(d) <==> exists nodes, parts :: WorkflowReads(show, w, d, nodes, parts)
      {
        ImportedExactly(show, w, d);
      }
    }
  }

  lemma DrawnExactly(show: Show, d: Design)
    ensures IsDrawnAs(show, d, Exported(show, d))
  {
    forall w
      ensures Exported(show, d) == Some(w) <==> exists parts :: WorkflowDraws(show, d, parts, w)
    {
      ExportedExactly(show, d, w);
    }
  }
}
