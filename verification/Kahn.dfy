/**
 The three forms of Kahn's algorithm in the repository: a heap of ready nodes, a
 sorted list of ready nodes, and an unsorted stack that only counts. The first two
 are proved to give the lexicographically least topological order, all three to
 accept exactly the acyclic graphs.
 */
module Kahn {
  import opened Names
  import opened Digraph

  type EdgeList = seq<(string, string)>

  // ----- the reference order -----

  /** Nodes not done whose predecessors all are. */
  ghost function Ready(edges: Edges, nodes: set<string>, done: set<string>): set<string> {
    set v | v in nodes && v !in done && forall u :: (u, v) in edges ==> u in done
  }

  ghost function LeastOrderFrom(edges: Edges, nodes: set<string>, done: set<string>): seq<string>
    decreases |nodes - done|
  {
    var ready := Ready(edges, nodes, done);
    if ready == {} then []
    else
      var v := Least(ready);
      assert nodes - (done + {v}) == (nodes - done) - {v};
      [v] + LeastOrderFrom(edges, nodes, done + {v})
  }

  /** Always take the least ready node. */
  ghost function LeastOrder(edges: Edges, nodes: set<string>): seq<string> {
    LeastOrderFrom(edges, nodes, {})
  }

  /** rest lists what is not done, with every edge into it forwards. */
  ghost predicate Completes(edges: Edges, nodes: set<string>, done: set<string>, rest: seq<string>) {
    && Distinct(rest)
    && Elements(rest) == nodes - done
    && forall u, v :: (u, v) in edges && v !in done ==> u in done || Before(rest, u, v)
  }

  lemma BeforeTail(rest: seq<string>, u: string, v: string)
    requires rest != [] && Before(rest[1..], u, v)
    ensures Before(rest, u, v)
  {
    var i, j :| 0 <= i < j < |rest[1..]| && rest[1..][i] == u && rest[1..][j] == v;
    assert rest[i + 1] == u && rest[j + 1] == v;
  }

  lemma CompletesBySteps(edges: Edges, nodes: set<string>, done: set<string>, v: string, rest: seq<string>)
    requires Closed(edges, nodes) && v in Ready(edges, nodes, done)
    requires Completes(edges, nodes, done + {v}, rest)
    ensures Completes(edges, nodes, done, [v] + rest)
  {
    var all := [v] + rest;
    assert Elements(all) == {v} + Elements(rest);
    assert v !in rest by { assert v !in Elements(rest); }
    forall x, y | (x, y) in edges && y !in done
      ensures x in done || Before(all, x, y)
    {
      if y != v && x !in done {
        assert all[1..] == rest;
        if x == v {
          assert y in Elements(rest);
          var j :| 0 <= j < |rest| && rest[j] == y;
          assert all[0] == x && all[j + 1] == y;
        } else {
          BeforeTail(all, x, y);
        }
      }
    }
  }

  /** In an acyclic graph the reference never stalls. */
  lemma {:induction false} LeastOrderCompletes(edges: Edges, nodes: set<string>, done: set<string>)
    requires Acyclic(edges) && Closed(edges, nodes) && done <= nodes
    ensures Completes(edges, nodes, done, LeastOrderFrom(edges, nodes, done))
    decreases |nodes - done|
  {
    var ready := Ready(edges, nodes, done);
    if ready == {} {
      if nodes - done != {} {
        AcyclicHasSource(edges, nodes - done);
      }
    } else {
      var v := Least(ready);
      assert nodes - (done + {v}) == (nodes - done) - {v};
      LeastOrderCompletes(edges, nodes, done + {v});
      CompletesBySteps(edges, nodes, done, v, LeastOrderFrom(edges, nodes, done + {v}));
    }
  }

  lemma {:induction false} LeastOrderIsDistinct(edges: Edges, nodes: set<string>, done: set<string>)
    ensures var order := LeastOrderFrom(edges, nodes, done); Distinct(order) && Elements(order) <= nodes - done
    decreases |nodes - done|
  {
    var ready := Ready(edges, nodes, done);
    if ready != {} {
      var v := Least(ready);
      assert nodes - (done + {v}) == (nodes - done) - {v};
      LeastOrderIsDistinct(edges, nodes, done + {v});
      var rest := LeastOrderFrom(edges, nodes, done + {v});
      assert v !in rest by { assert v !in Elements(rest); }
      assert Elements([v] + rest) == {v} + Elements(rest);
    }
  }

  /** When the reference lists every node it is a topological order. */
  lemma {:induction false} LeastOrderSteps(edges: Edges, nodes: set<string>, done: set<string>)
    requires Closed(edges, nodes) && done <= nodes
    requires Elements(LeastOrderFrom(edges, nodes, done)) == nodes - done
    ensures Completes(edges, nodes, done, LeastOrderFrom(edges, nodes, done))
    decreases |nodes - done|
  {
    LeastOrderIsDistinct(edges, nodes, done);
    var ready := Ready(edges, nodes, done);
    if ready != {} {
      var v := Least(ready);
      assert nodes - (done + {v}) == (nodes - done) - {v};
      LeastOrderIsDistinct(edges, nodes, done + {v});
      var rest := LeastOrderFrom(edges, nodes, done + {v});
      assert Elements([v] + rest) == {v} + Elements(rest);
      assert Elements(rest) == nodes - (done + {v});
      LeastOrderSteps(edges, nodes, done + {v});
      CompletesBySteps(edges, nodes, done, v, rest);
    } else {
      assert nodes - done == {};
      forall u, v | (u, v) in edges
        ensures v in done
      {
        assert v in nodes - done || v in done;
      }
    }
  }

  lemma CompletesIsTopological(edges: Edges, nodes: set<string>, order: seq<string>)
    requires Closed(edges, nodes)
    ensures Completes(edges, nodes, {}, order) <==> Topological(edges, nodes, order)
  {
  }

  /** The order is complete exactly when the graph is acyclic, and then it is topological. */
  lemma LeastOrderExactly(edges: Edges, nodes: set<string>)
    requires Closed(edges, nodes)
    ensures |LeastOrder(edges, nodes)| == |nodes| <==> Acyclic(edges)
    ensures Acyclic(edges) <==> Topological(edges, nodes, LeastOrder(edges, nodes))
  {
    var order := LeastOrder(edges, nodes);
    LeastOrderIsDistinct(edges, nodes, {});
    CompletesIsTopological(edges, nodes, order);
    if Acyclic(edges) {
      LeastOrderCompletes(edges, nodes, {});
      DistinctCardinality(order);
    }
    if |order| == |nodes| {
      DistinctSubset(order, nodes);
      LeastOrderSteps(edges, nodes, {});
      TopologicalIsAcyclic(edges, nodes, order);
    }
    if Topological(edges, nodes, order) { TopologicalIsAcyclic(edges, nodes, order); }
  }

  predicate LexAtMost(a: seq<string>, b: seq<string>) {
    a == [] || (b != [] && (Less(a[0], b[0]) || (a[0] == b[0] && LexAtMost(a[1..], b[1..]))))
  }

  lemma NothingBeforeFirst(rest: seq<string>, u: string)
    requires Distinct(rest) && rest != []
    ensures !Before(rest, u, rest[0])
  {
  }

  lemma FirstIsReady(edges: Edges, nodes: set<string>, done: set<string>, rest: seq<string>)
    requires Completes(edges, nodes, done, rest) && rest != []
    ensures rest[0] in Ready(edges, nodes, done)
    ensures Completes(edges, nodes, done + {rest[0]}, rest[1..])
  {
    var v := rest[0];
    assert v in Elements(rest);
    forall u | (u, v) in edges
      ensures u in done
    {
      NothingBeforeFirst(rest, u);
    }
    assert rest == [v] + rest[1..];
    assert v !in rest[1..];
    assert Elements(rest) == {v} + Elements(rest[1..]);
    assert Elements(rest[1..]) == nodes - (done + {v});
    forall x, y | (x, y) in edges && y !in done + {v}
      ensures x in done + {v} || Before(rest[1..], x, y)
    {
      if x !in done + {v} {
        var i, j :| 0 <= i < j < |rest| && rest[i] == x && rest[j] == y;
        assert rest[1..][i - 1] == x && rest[1..][j - 1] == y;
      }
    }
  }

  /** No other way to finish the order is lexicographically smaller. */
  lemma {:induction false} LeastOrderIsLexLeast(edges: Edges, nodes: set<string>, done: set<string>, rest: seq<string>)
    requires Completes(edges, nodes, done, rest)
    ensures LexAtMost(LeastOrderFrom(edges, nodes, done), rest)
    decreases |rest|
  {
    var ready := Ready(edges, nodes, done);
    if rest == [] {
      assert Elements(rest) == {};
      assert ready <= nodes - done;
    } else {
      FirstIsReady(edges, nodes, done, rest);
      var v := Least(ready);
      if v == rest[0] { LeastOrderIsLexLeast(edges, nodes, done + {v}, rest[1..]); }
    }
  }

  /** The sorters' order is the lexicographically least topological order. */
  lemma LeastOrderIsLeast(edges: Edges, nodes: set<string>, order: seq<string>)
    requires Closed(edges, nodes) && Topological(edges, nodes, order)
    ensures LexAtMost(LeastOrder(edges, nodes), order)
  {
    CompletesIsTopological(edges, nodes, order);
    LeastOrderIsLexLeast(edges, nodes, {}, order);
  }

  // ----- counting the edges that still hold a node back -----

  ghost function EdgeSet(edges: EdgeList): Edges {
    set e | e in edges
  }

  ghost function Remaining(edges: EdgeList, done: set<string>, v: string): nat {
    if edges == [] then 0
    else
      var n := |edges| - 1;
      Remaining(edges[..n], done, v) + if edges[n].1 == v && edges[n].0 !in done then 1 else 0
  }

  ghost function Parallel(edges: EdgeList, u: string, v: string): nat {
    if edges == [] then 0
    else
      var n := |edges| - 1;
      Parallel(edges[..n], u, v) + if edges[n] == (u, v) then 1 else 0
  }

  lemma {:induction false} RemainingStep(edges: EdgeList, done: set<string>, u: string, v: string)
    requires u !in done
    ensures Remaining(edges, done, v) == Remaining(edges, done + {u}, v) + Parallel(edges, u, v)
  {
    if edges != [] { RemainingStep(edges[..|edges| - 1], done, u, v); }
  }

  lemma {:induction false} RemainingZero(edges: EdgeList, done: set<string>, v: string)
    ensures Remaining(edges, done, v) == 0 <==> forall u :: (u, v) in EdgeSet(edges) ==> u in done
  {
    if edges != [] {
      var n := |edges| - 1;
      RemainingZero(edges[..n], done, v);
      assert edges == edges[..n] + [edges[n]];
      assert EdgeSet(edges) == EdgeSet(edges[..n]) + {edges[n]};
    }
  }

  /** What the loops know between two nodes. */
  ghost predicate Counts(edges: EdgeList, nodes: seq<string>, done: set<string>, indegree: map<string, nat>) {
    && indegree.Keys == Elements(nodes)
    && forall v :: v in indegree ==> indegree[v] == Remaining(edges, done, v)
  }

  ghost predicate Adjacency(edges: EdgeList, nodes: seq<string>, adj: map<string, seq<string>>) {
    && adj.Keys == Elements(nodes)
    && (forall u, v :: u in adj ==> multiset(adj[u])[v] == Parallel(edges, u, v))
    && forall u, v :: u in adj && v in adj[u] ==> v in nodes
  }

  method BuildCounts(nodes: seq<string>, edges: EdgeList)
    returns (indegree: map<string, nat>, adj: map<string, seq<string>>)
    requires Closed(EdgeSet(edges), Elements(nodes))
    ensures Counts(edges, nodes, {}, indegree) && Adjacency(edges, nodes, adj)
  {
    indegree := map v | v in nodes :: 0;
    adj := map v | v in nodes :: [];
    for i := 0 to |edges|
      invariant Counts(edges[..i], nodes, {}, indegree) && Adjacency(edges[..i], nodes, adj)
    {
      var (u, v) := edges[i];
      assert edges[i] in EdgeSet(edges);
      assert edges[..i + 1][..i] == edges[..i];
      assert multiset(adj[u] + [v]) == multiset(adj[u]) + multiset{v};
      adj := adj[u := adj[u] + [v]];
      indegree := indegree[v := indegree[v] + 1];
    }
    assert edges[..|edges|] == edges;
  }

  lemma CountsGrow(targets: seq<string>, i: nat)
    requires i < |targets|
    ensures targets[..i + 1] == targets[..i] + [targets[i]]
    ensures multiset(targets[..i + 1]) == multiset(targets[..i]) + multiset{targets[i]}
    ensures multiset(targets[..i + 1])[targets[i]] <= multiset(targets)[targets[i]]
  {
    assert targets[..i + 1] == targets[..i] + [targets[i]];
    assert targets == targets[..i + 1] + targets[i + 1..];
  }

  /** Decrement each target, keeping those whose last incoming edge this was. */
  method Release(targets: seq<string>, indegree: map<string, nat>)
    returns (indegree': map<string, nat>, freed: seq<string>)
    requires forall v :: v in targets ==> v in indegree
    requires forall v :: v in indegree ==> multiset(targets)[v] <= indegree[v]
    ensures indegree'.Keys == indegree.Keys
    ensures forall v :: v in indegree ==> indegree'[v] + multiset(targets)[v] == indegree[v]
    ensures Distinct(freed)
    ensures forall v :: v in freed <==> v in targets && indegree'[v] == 0
  {
    indegree' := indegree;
    freed := [];
    for i := 0 to |targets|
      invariant indegree'.Keys == indegree.Keys
      invariant forall v :: v in indegree ==> indegree'[v] + multiset(targets[..i])[v] == indegree[v]
      invariant Distinct(freed)
      invariant forall v :: v in freed <==> v in targets[..i] && indegree'[v] == 0
    {
      var m := targets[i];
      CountsGrow(targets, i);
      indegree' := indegree'[m := indegree'[m] - 1];
      if indegree'[m] == 0 {
        freed := freed + [m];
      }
    }
    assert targets[..|targets|] == targets;
  }

  ghost predicate ReadyIs(edges: EdgeList, nodes: seq<string>, done: set<string>, ready: seq<string>) {
    Distinct(ready) && Elements(ready) == Ready(EdgeSet(edges), Elements(nodes), done)
  }

  lemma ReadyByCount(edges: EdgeList, nodes: seq<string>, done: set<string>, indegree: map<string, nat>)
    requires Counts(edges, nodes, done, indegree)
    ensures Ready(EdgeSet(edges), Elements(nodes), done) == set v | v in nodes && v !in done && indegree[v] == 0
  {
    forall v | v in nodes
      ensures indegree[v] == 0 <==> forall u :: (u, v) in EdgeSet(edges) ==> u in done
    {
      assert v in Elements(nodes);
      RemainingZero(edges, done, v);
    }
  }

  method Initial(nodes: seq<string>, indegree: map<string, nat>) returns (ready: seq<string>)
    requires Distinct(nodes) && indegree.Keys == Elements(nodes)
    ensures Distinct(ready)
    ensures forall v :: v in ready <==> v in nodes && indegree[v] == 0
  {
    ready := [];
    for i := 0 to |nodes|
      invariant Distinct(ready)
      invariant forall v :: v in ready <==> v in nodes[..i] && indegree[v] == 0
    {
      assert nodes[..i + 1] == nodes[..i] + [nodes[i]];
      assert nodes[i] in Elements(nodes);
      if indegree[nodes[i]] == 0 {
        ready := ready + [nodes[i]];
      }
    }
    assert nodes[..|nodes|] == nodes;
  }

  /** Everything done so far was ready when it was taken, so nothing holds it back. */
  ghost predicate DoneIsFree(edges: EdgeList, done: set<string>) {
    forall u, v :: (u, v) in EdgeSet(edges) && v in done ==> u in done
  }

  /** Taking one ready node: the counts and the ready set after its targets are released. */
  method Take(edges: EdgeList, nodes: seq<string>, ghost done: set<string>, cid: string, rest: seq<string>,
      targets: seq<string>, indegree: map<string, nat>)
    returns (indegree': map<string, nat>, freed: seq<string>)
    requires Closed(EdgeSet(edges), Elements(nodes))
    requires Counts(edges, nodes, done, indegree) && DoneIsFree(edges, done)
    requires cid !in rest && ReadyIs(edges, nodes, done, [cid] + rest)
    requires forall v :: multiset(targets)[v] == Parallel(edges, cid, v)
    requires forall v :: v in targets ==> v in nodes
    ensures Counts(edges, nodes, done + {cid}, indegree') && DoneIsFree(edges, done + {cid})
    ensures cid in nodes && cid !in done
    ensures ReadyIs(edges, nodes, done + {cid}, rest + freed)
  {
    ghost var ready := Ready(EdgeSet(edges), Elements(nodes), done);
    assert cid in Elements([cid] + rest);
    assert Elements([cid] + rest) == {cid} + Elements(rest);
    forall v
      ensures Remaining(edges, done, v) == Remaining(edges, done + {cid}, v) + Parallel(edges, cid, v)
    {
      RemainingStep(edges, done, cid, v);
    }
    forall v | v in targets
      ensures v in indegree
    {
      assert v in Elements(nodes);
    }
    indegree', freed := Release(targets, indegree);
    ReadyByCount(edges, nodes, done, indegree);
    ReadyByCount(edges, nodes, done + {cid}, indegree');
    ReadyAfterTake(edges, nodes, done, cid, rest, targets, indegree, indegree', freed);
  }

  lemma ReadyAfterTake(edges: EdgeList, nodes: seq<string>, done: set<string>, cid: string, rest: seq<string>,
      targets: seq<string>, indegree: map<string, nat>, indegree': map<string, nat>, freed: seq<string>)
    requires indegree.Keys == indegree'.Keys == Elements(nodes) && DoneIsFree(edges, done)
    requires Distinct([cid] + rest) && Distinct(freed) && cid in nodes
    requires Counts(edges, nodes, done, indegree)
    requires cid !in rest
    requires forall v :: v in indegree ==> indegree'[v] + multiset(targets)[v] == indegree[v]
    requires forall v :: v in targets ==> v in nodes
    requires forall v :: v in freed <==> v in targets && indegree'[v] == 0
    requires Elements([cid] + rest) == set v | v in nodes && v !in done && indegree[v] == 0
    requires Ready(EdgeSet(edges), Elements(nodes), done + {cid})
      == set v | v in nodes && v !in done + {cid} && indegree'[v] == 0
    ensures ReadyIs(edges, nodes, done + {cid}, rest + freed)
  {
    assert Elements([cid] + rest) == {cid} + Elements(rest);
    assert Elements(rest + freed) == Elements(rest) + Elements(freed);
    assert rest == ([cid] + rest)[1..];
    forall v | v in nodes
      ensures v in targets <==> multiset(targets)[v] > 0
    {
    }
    forall v | v in freed
      ensures v in nodes && v !in done + {cid} && v !in rest
    {
      assert v in Elements(nodes) && indegree[v] > 0;
      RemainingZero(edges, done, v);
      assert v !in {cid} + Elements(rest);
    }
    forall v | v in rest
      ensures v in nodes && v !in done + {cid} && indegree'[v] == 0
    {
      assert v in Elements(rest) && v in Elements(nodes);
    }
    forall v | v in nodes && v !in done + {cid} && indegree'[v] == 0
      ensures v in rest || v in freed
    {
      assert v in Elements(nodes);
      if v !in targets {
        assert indegree[v] == 0;
        assert v in {cid} + Elements(rest);
      }
    }
    DistinctAppend(rest, freed);
  }

  // ----- the three sorters -----

  /** The order so far, continued as the reference would, is the reference order. */
  ghost predicate Follows(edges: EdgeList, nodes: seq<string>, done: set<string>, order: seq<string>) {
    order + LeastOrderFrom(EdgeSet(edges), Elements(nodes), done) == LeastOrder(EdgeSet(edges), Elements(nodes))
  }

  lemma TakeLeast(edges: EdgeList, nodes: seq<string>, done: set<string>, order: seq<string>, v: string)
    requires IsLeast(v, Ready(EdgeSet(edges), Elements(nodes), done))
    requires Follows(edges, nodes, done, order)
    ensures Follows(edges, nodes, done + {v}, order + [v])
  {
    LeastIsUnique(v, Least(Ready(EdgeSet(edges), Elements(nodes), done)), Ready(EdgeSet(edges), Elements(nodes), done));
    assert order + [v] + LeastOrderFrom(EdgeSet(edges), Elements(nodes), done + {v})
      == order + ([v] + LeastOrderFrom(EdgeSet(edges), Elements(nodes), done + {v}));
  }

  lemma StalledFollows(edges: EdgeList, nodes: seq<string>, done: set<string>, order: seq<string>)
    requires Follows(edges, nodes, done, order) && ReadyIs(edges, nodes, done, [])
    ensures order == LeastOrder(EdgeSet(edges), Elements(nodes))
  {
    assert Elements<string>([]) == {};
    assert order + [] == order;
  }

  /** One turn of either sorter, once it has chosen the least ready node. */
  method TakeSorted(edges: EdgeList, nodes: seq<string>, ghost done: set<string>, ghost order: seq<string>,
      cid: string, rest: seq<string>, adj: map<string, seq<string>>, indegree: map<string, nat>)
    returns (indegree': map<string, nat>, freed: seq<string>)
    requires Closed(EdgeSet(edges), Elements(nodes)) && Adjacency(edges, nodes, adj)
    requires Counts(edges, nodes, done, indegree) && DoneIsFree(edges, done)
    requires cid !in rest && ReadyIs(edges, nodes, done, [cid] + rest)
    requires IsLeast(cid, Elements([cid] + rest)) && Follows(edges, nodes, done, order)
    ensures Counts(edges, nodes, done + {cid}, indegree') && DoneIsFree(edges, done + {cid})
    ensures ReadyIs(edges, nodes, done + {cid}, rest + freed)
    ensures Follows(edges, nodes, done + {cid}, order + [cid])
    ensures |Elements(nodes) - (done + {cid})| < |Elements(nodes) - done|
  {
    assert cid in Elements([cid] + rest);
    TakeLeast(edges, nodes, done, order, cid);
    var targets := Sort(adj[cid]);
    SortKeepsTargets(edges, nodes, adj, cid);
    indegree', freed := Take(edges, nodes, done, cid, rest, targets, indegree);
    assert Elements(nodes) - (done + {cid}) == (Elements(nodes) - done) - {cid};
  }

  /** The nodes that are ready before anything is done. */
  method Start(edges: EdgeList, nodes: seq<string>, indegree: map<string, nat>) returns (ready: seq<string>)
    requires Distinct(nodes) && Counts(edges, nodes, {}, indegree)
    ensures ReadyIs(edges, nodes, {}, ready) && DoneIsFree(edges, {}) && Follows(edges, nodes, {}, [])
  {
    assert [] + LeastOrder(EdgeSet(edges), Elements(nodes)) == LeastOrder(EdgeSet(edges), Elements(nodes));
    ReadyByCount(edges, nodes, {}, indegree);
    ready := Initial(nodes, indegree);
  }

  lemma RestOfReady(ready: seq<string>, i: nat)
    requires Distinct(ready) && i < |ready|
    ensures var rest := ready[..i] + ready[i + 1..];
      Distinct([ready[i]] + rest) && Elements([ready[i]] + rest) == Elements(ready)
  {
    var rest := ready[..i] + ready[i + 1..];
    assert ready == ready[..i] + [ready[i]] + ready[i + 1..];
    forall j, k | 0 <= j < k < |[ready[i]] + rest|
      ensures ([ready[i]] + rest)[j] != ([ready[i]] + rest)[k]
    {
      if j == 0 && k - 1 < i { assert rest[k - 1] == ready[k - 1]; }
    }
  }

  lemma TailNotHead(ready: seq<string>)
    requires Distinct(ready) && ready != []
    ensures ready[0] !in ready[1..]
  {
  }

  /** heapq.heappop: remove and return the least element. */
  method PopLeast(heap: seq<string>) returns (least: string, rest: seq<string>)
    requires Distinct(heap) && heap != []
    ensures IsLeast(least, Elements(heap))
    ensures Distinct([least] + rest) && Elements([least] + rest) == Elements(heap) && least !in rest
  {
    var at := 0;
    for i := 1 to |heap|
      invariant 0 <= at < i
      invariant forall j :: 0 <= j < i && j != at ==> Less(heap[at], heap[j])
    {
      LessTotal(heap[at], heap[i]);
      if Less(heap[i], heap[at]) {
        forall j | 0 <= j < i && j != at
          ensures Less(heap[i], heap[j])
        {
          LessTransitive(heap[i], heap[at], heap[j]);
        }
        at := i;
      }
    }
    RestOfReady(heap, at);
    least, rest := heap[at], heap[..at] + heap[at + 1..];
    assert ([least] + rest)[1..] == rest;
    TailNotHead([least] + rest);
  }

  /** critical_path._topo_sort: a heap of ready nodes. */
  method HeapOrder(nodes: seq<string>, edges: EdgeList) returns (order: seq<string>)
    requires Distinct(nodes) && Closed(EdgeSet(edges), Elements(nodes))
    ensures order == LeastOrder(EdgeSet(edges), Elements(nodes))
  {
    var indegree, adj := BuildCounts(nodes, edges);
    ghost var done := {};
    var ready := Start(edges, nodes, indegree);
    order := [];
    while ready != []
      invariant Counts(edges, nodes, done, indegree) && DoneIsFree(edges, done)
      invariant ReadyIs(edges, nodes, done, ready) && Follows(edges, nodes, done, order)
      decreases |Elements(nodes) - done|
    {
      var cid, rest := PopLeast(ready);
      var freed;
      indegree, freed := TakeSorted(edges, nodes, done, order, cid, rest, adj, indegree);
      ready, order, done := rest + freed, order + [cid], done + {cid};
    }
    StalledFollows(edges, nodes, done, order);
  }

  lemma SortKeepsTargets(edges: EdgeList, nodes: seq<string>, adj: map<string, seq<string>>, cid: string)
    requires Adjacency(edges, nodes, adj) && cid in adj
    ensures forall v :: multiset(Sort(adj[cid]))[v] == Parallel(edges, cid, v)
    ensures forall v :: v in Sort(adj[cid]) ==> v in nodes
  {
    assert forall v :: v in Sort(adj[cid]) ==> v in multiset(adj[cid]);
  }

  lemma SortKeepsDistinct(s: seq<string>)
    requires Distinct(s)
    ensures Distinct(Sort(s)) && Elements(Sort(s)) == Elements(s)
  {
    forall x
      ensures x in Sort(s) <==> x in s
    {
      assert x in Sort(s) <==> x in multiset(Sort(s));
      assert x in s <==> x in multiset(s);
    }
    DistinctCardinality(s);
    assert |Sort(s)| == |multiset(Sort(s))| == |multiset(s)| == |s|;
    assert Elements(Sort(s)) == Elements(s);
    FullCardinalityIsDistinct(Sort(s));
  }

  lemma {:induction false} FullCardinalityIsDistinct(s: seq<string>)
    requires |Elements(s)| == |s|
    ensures Distinct(s)
  {
    if s != [] {
      var n := |s| - 1;
      assert s == s[..n] + [s[n]];
      assert Elements(s) == Elements(s[..n]) + {s[n]};
      ElementsAtMost(s[..n]);
      FullCardinalityIsDistinct(s[..n]);
      assert s[n] !in Elements(s[..n]);
    }
  }

  lemma {:induction false} ElementsAtMost(s: seq<string>)
    ensures |Elements(s)| <= |s|
  {
    if s != [] {
      var n := |s| - 1;
      assert s == s[..n] + [s[n]];
      assert Elements(s) == Elements(s[..n]) + {s[n]};
      ElementsAtMost(s[..n]);
    }
  }

  /** ready.sort() */
  method Resort(edges: EdgeList, nodes: seq<string>, ghost done: set<string>, ready: seq<string>)
    returns (sorted: seq<string>)
    requires ReadyIs(edges, nodes, done, ready)
    ensures ReadyIs(edges, nodes, done, sorted) && IsSorted(sorted)
  {
    SortKeepsDistinct(ready);
    sorted := Sort(ready);
  }

  /** ready.pop(0) on a sorted list. */
  method PopFirst(ready: seq<string>) returns (first: string, rest: seq<string>)
    requires Distinct(ready) && IsSorted(ready) && ready != []
    ensures ready == [first] + rest && first !in rest
    ensures IsLeast(first, Elements(ready))
  {
    first, rest := ready[0], ready[1..];
    TailNotHead(ready);
    forall x | x in ready && x != ready[0]
      ensures Less(ready[0], x)
    {
      var i :| 0 <= i < |ready| && ready[i] == x;
    }
  }

  /** network._topological_order: a list of ready nodes, sorted again after each push. */
  method SortedListOrder(nodes: seq<string>, edges: EdgeList) returns (order: seq<string>)
    requires Distinct(nodes) && Closed(EdgeSet(edges), Elements(nodes))
    ensures order == LeastOrder(EdgeSet(edges), Elements(nodes))
  {
    var indegree, adj := BuildCounts(nodes, edges);
    ghost var done := {};
    var unsorted := Start(edges, nodes, indegree);
    var ready := Resort(edges, nodes, done, unsorted);
    order := [];
    while ready != []
      invariant Counts(edges, nodes, done, indegree) && DoneIsFree(edges, done)
      invariant ReadyIs(edges, nodes, done, ready) && IsSorted(ready) && Follows(edges, nodes, done, order)
      decreases |Elements(nodes) - done|
    {
      var cid, rest := PopFirst(ready);
      var freed;
      indegree, freed := TakeSorted(edges, nodes, done, order, cid, rest, adj, indegree);
      ready := Resort(edges, nodes, done + {cid}, rest + freed);
      order, done := order + [cid], done + {cid};
    }
    StalledFollows(edges, nodes, done, order);
  }

  /** network._check_acyclic: a stack of ready nodes and a count of those seen. */
  method AcceptsAcyclic(nodes: seq<string>, edges: EdgeList) returns (accepted: bool)
    requires Distinct(nodes) && Closed(EdgeSet(edges), Elements(nodes))
    ensures accepted <==> Acyclic(EdgeSet(edges))
  {
    var indegree, adj := BuildCounts(nodes, edges);
    ghost var done := {};
    ghost var order := [];
    var queue := Start(edges, nodes, indegree);
    var seen := 0;
    while queue != []
      invariant Counts(edges, nodes, done, indegree) && DoneIsFree(edges, done)
      invariant ReadyIs(edges, nodes, done, queue)
      invariant seen == |order| && Lists(edges, nodes, done, order)
      decreases |Elements(nodes) - done|
    {
      var last := |queue| - 1;
      var cid, rest := queue[last], queue[..last];
      LastThenRest(queue);
      seen := seen + 1;
      var freed;
      indegree, freed := TakeUnsorted(edges, nodes, done, order, cid, rest, adj, indegree);
      queue, order, done := rest + freed, order + [cid], done + {cid};
    }
    DistinctCardinality(nodes);
    DistinctCardinality(order);
    assert Elements(queue) == {};
    StalledExactly(edges, nodes, done, order);
    return seen == |nodes|;
  }

  lemma LastThenRest(queue: seq<string>)
    requires Distinct(queue) && queue != []
    ensures var rest := queue[..|queue| - 1];
      var all := [queue[|queue| - 1]] + rest;
      queue[|queue| - 1] !in rest && Distinct(all) && Elements(all) == Elements(queue)
  {
    var last := |queue| - 1;
    RestOfReady(queue, last);
    assert queue[..last] + queue[last + 1..] == queue[..last];
    assert ([queue[last]] + queue[..last])[1..] == queue[..last];
    TailNotHead([queue[last]] + queue[..last]);
  }

  /** One turn of the stack. */
  method TakeUnsorted(edges: EdgeList, nodes: seq<string>, ghost done: set<string>, ghost order: seq<string>,
      cid: string, rest: seq<string>, adj: map<string, seq<string>>, indegree: map<string, nat>)
    returns (indegree': map<string, nat>, freed: seq<string>)
    requires Closed(EdgeSet(edges), Elements(nodes)) && Adjacency(edges, nodes, adj)
    requires Counts(edges, nodes, done, indegree) && DoneIsFree(edges, done)
    requires cid !in rest && ReadyIs(edges, nodes, done, [cid] + rest)
    requires Lists(edges, nodes, done, order)
    ensures Counts(edges, nodes, done + {cid}, indegree') && DoneIsFree(edges, done + {cid})
    ensures ReadyIs(edges, nodes, done + {cid}, rest + freed)
    ensures Lists(edges, nodes, done + {cid}, order + [cid])
    ensures |Elements(nodes) - (done + {cid})| < |Elements(nodes) - done|
  {
    assert cid in Elements([cid] + rest);
    OrderGrows(edges, nodes, done, order, cid);
    indegree', freed := Take(edges, nodes, done, cid, rest, adj[cid], indegree);
    assert Elements(nodes) - (done + {cid}) == (Elements(nodes) - done) - {cid};
  }

  /** Every edge into a listed node comes from an earlier one. */
  ghost predicate OrdersDone(edges: EdgeList, order: seq<string>) {
    forall u, v :: (u, v) in EdgeSet(edges) && v in order ==> Before(order, u, v)
  }

  ghost predicate Lists(edges: EdgeList, nodes: seq<string>, done: set<string>, order: seq<string>) {
    Distinct(order) && Elements(order) == done <= Elements(nodes) && OrdersDone(edges, order)
  }

  lemma OrderGrows(edges: EdgeList, nodes: seq<string>, done: set<string>, order: seq<string>, cid: string)
    requires cid in Ready(EdgeSet(edges), Elements(nodes), done) && Lists(edges, nodes, done, order)
    ensures Lists(edges, nodes, done + {cid}, order + [cid])
  {
    var grown := order + [cid];
    assert cid !in Elements(order);
    forall u, v | (u, v) in EdgeSet(edges) && v in grown
      ensures Before(grown, u, v)
    {
      if v in order {
        var i, j :| 0 <= i < j < |order| && order[i] == u && order[j] == v;
        assert grown[i] == u && grown[j] == v;
      } else {
        assert u in Elements(order);
        var i :| 0 <= i < |order| && order[i] == u;
        assert grown[i] == u && grown[|order|] == v;
      }
    }
  }

  lemma AllListedIsAcyclic(edges: EdgeList, nodes: seq<string>, order: seq<string>)
    requires Closed(EdgeSet(edges), Elements(nodes))
    requires Distinct(order) && Elements(order) == Elements(nodes) && OrdersDone(edges, order)
    ensures Acyclic(EdgeSet(edges))
  {
    forall u, v | (u, v) in EdgeSet(edges)
      ensures Before(order, u, v)
    {
      assert v in Elements(order);
    }
    TopologicalIsAcyclic(EdgeSet(edges), Elements(nodes), order);
  }

  lemma StalledHasCycle(edges: EdgeList, nodes: seq<string>, done: set<string>)
    requires Closed(EdgeSet(edges), Elements(nodes))
    requires Ready(EdgeSet(edges), Elements(nodes), done) == {}
    requires done <= Elements(nodes) && done != Elements(nodes)
    ensures !Acyclic(EdgeSet(edges))
  {
    var left := Elements(nodes) - done;
    assert done + left == Elements(nodes);
    forall v | v in left
      ensures exists u :: u in left && (u, v) in EdgeSet(edges)
    {
      assert v !in Ready(EdgeSet(edges), Elements(nodes), done);
      var u :| (u, v) in EdgeSet(edges) && u !in done;
      assert u in left;
    }
    var v :| v in left;
    NoSourceIsCyclic(EdgeSet(edges), left, v);
  }

  /** When nothing is ready any more, everything is listed exactly if there is no cycle. */
  lemma StalledExactly(edges: EdgeList, nodes: seq<string>, done: set<string>, order: seq<string>)
    requires Closed(EdgeSet(edges), Elements(nodes))
    requires Ready(EdgeSet(edges), Elements(nodes), done) == {}
    requires Lists(edges, nodes, done, order)
    ensures |done| == |Elements(nodes)| <==> Acyclic(EdgeSet(edges))
  {
    SubsetCardinality(done, Elements(nodes));
    if done == Elements(nodes) {
      AllListedIsAcyclic(edges, nodes, order);
    } else {
      StalledHasCycle(edges, nodes, done);
    }
  }
}
