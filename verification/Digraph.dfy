/**
 Finite directed graphs over names: reachability, acyclicity and topological
 orders. An edge (u, v) says that u comes before v.
 */
module Digraph {
  import opened Names

  type Edges = set<(string, string)>

  ghost predicate IsWalk(edges: Edges, walk: seq<string>) {
    |walk| >= 2 && forall i :: 0 <= i < |walk| - 1 ==> (walk[i], walk[i + 1]) in edges
  }

  ghost predicate WalkBetween(edges: Edges, walk: seq<string>, u: string, v: string) {
    IsWalk(edges, walk) && walk[0] == u && walk[|walk| - 1] == v
  }

  /** There is a walk of at least one edge from u to v. */
  ghost predicate Reaches(edges: Edges, u: string, v: string) {
    exists walk :: WalkBetween(edges, walk, u, v)
  }

  ghost predicate ReachesOrIs(edges: Edges, u: string, v: string) {
    u == v || Reaches(edges, u, v)
  }

  ghost predicate Acyclic(edges: Edges) {
    forall v :: !Reaches(edges, v, v)
  }

  lemma EdgeReaches(edges: Edges, u: string, v: string)
    requires (u, v) in edges
    ensures Reaches(edges, u, v)
  {
    assert WalkBetween(edges, [u, v], u, v);
  }

  lemma ReachesTransitive(edges: Edges, u: string, v: string, w: string)
    requires Reaches(edges, u, v) && Reaches(edges, v, w)
    ensures Reaches(edges, u, w)
  {
    var a :| WalkBetween(edges, a, u, v);
    var b :| WalkBetween(edges, b, v, w);
    var c := a + b[1..];
    forall i | 0 <= i < |c| - 1
      ensures (c[i], c[i + 1]) in edges
    {
      if i >= |a| - 1 {
        assert c[i] == b[i - (|a| - 1)] && c[i + 1] == b[i - (|a| - 1) + 1];
      }
    }
    assert WalkBetween(edges, c, u, w);
  }

  ghost function Ancestors(edges: Edges, within: set<string>, v: string): set<string> {
    set u | u in within && Reaches(edges, u, v)
  }

  /** In an acyclic graph a step backwards loses an ancestor. */
  lemma AncestorsShrink(edges: Edges, within: set<string>, u: string, v: string)
    requires Acyclic(edges) && u in within && (u, v) in edges
    ensures Ancestors(edges, within, u) < Ancestors(edges, within, v)
    ensures |Ancestors(edges, within, u)| < |Ancestors(edges, within, v)|
  {
    EdgeReaches(edges, u, v);
    forall x | x in Ancestors(edges, within, u)
      ensures x in Ancestors(edges, within, v)
    {
      ReachesTransitive(edges, x, u, v);
    }
    assert u in Ancestors(edges, within, v) && u !in Ancestors(edges, within, u);
    SubsetCardinality(Ancestors(edges, within, u), Ancestors(edges, within, v));
  }

  /** Walking backwards inside a set that always offers a predecessor closes a cycle. */
  lemma {:induction false} NoSourceIsCyclic(edges: Edges, within: set<string>, v: string)
    requires v in within
    requires forall x :: x in within ==> exists u :: u in within && (u, x) in edges
    ensures !Acyclic(edges)
    decreases |Ancestors(edges, within, v)|
  {
    if Acyclic(edges) {
      var u :| u in within && (u, v) in edges;
      AncestorsShrink(edges, within, u, v);
      NoSourceIsCyclic(edges, within, u);
    }
  }

  lemma AcyclicHasSource(edges: Edges, within: set<string>)
    requires Acyclic(edges) && within != {}
    ensures exists v :: v in within && forall u :: u in within ==> (u, v) !in edges
  {
    if forall v :: v in within ==> exists u :: u in within && (u, v) in edges {
      var v :| v in within;
      NoSourceIsCyclic(edges, within, v);
    }
  }

  ghost predicate Closed(edges: Edges, nodes: set<string>) {
    forall u, v :: (u, v) in edges ==> u in nodes && v in nodes
  }

  ghost predicate Before(order: seq<string>, u: string, v: string) {
    exists i, j :: 0 <= i < j < |order| && order[i] == u && order[j] == v
  }

  /** Every node once, every edge forwards. */
  ghost predicate Topological(edges: Edges, nodes: set<string>, order: seq<string>) {
    && Distinct(order)
    && Elements(order) == nodes
    && forall u, v {:trigger Before(order, u, v)} :: (u, v) in edges ==> Before(order, u, v)
  }

  lemma DistinctIndex(order: seq<string>, i: nat, j: nat)
    requires Distinct(order) && i < |order| && j < |order| && order[i] == order[j]
    ensures i == j
  {
  }

  lemma {:induction false} WalkGoesForward(
      edges: Edges, nodes: set<string>, order: seq<string>, walk: seq<string>, i: nat, j: nat)
    requires Topological(edges, nodes, order) && IsWalk(edges, walk)
    requires i < |order| && j < |order| && order[i] == walk[0] && order[j] == walk[|walk| - 1]
    ensures i < j
    decreases |walk|
  {
    assert (walk[0], walk[1]) in edges;
    assert Before(order, walk[0], walk[1]);
    var a, b :| 0 <= a < b < |order| && order[a] == walk[0] && order[b] == walk[1];
    DistinctIndex(order, i, a);
    if |walk| > 2 {
      WalkGoesForward(edges, nodes, order, walk[1..], b, j);
    } else {
      DistinctIndex(order, b, j);
    }
  }

  lemma TopologicalIsAcyclic(edges: Edges, nodes: set<string>, order: seq<string>)
    requires Topological(edges, nodes, order)
    ensures Acyclic(edges)
  {
    forall v
      ensures !Reaches(edges, v, v)
    {
      if Reaches(edges, v, v) {
        var walk :| WalkBetween(edges, walk, v, v);
        assert (walk[0], walk[1]) in edges;
        assert Before(order, walk[0], walk[1]);
        var i :| 0 <= i < |order| && order[i] == v;
        WalkGoesForward(edges, nodes, order, walk, i, i);
      }
    }
  }
}
