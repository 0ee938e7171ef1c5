/** analyse_cpm: validation, the two passes and the critical chain, as the program runs them. */
module CpmAnalysis {
  import opened Wrappers
  import opened Names
  import opened Digraph
  import opened Kahn
  import opened CriticalPath

  // ----- validation -----

  ghost predicate UniqueIds(nodes: seq<Activity>) {
    forall i, j :: 0 <= i < j < |nodes| ==> nodes[i].id != nodes[j].id
  }

  ghost predicate PositiveDurations(nodes: seq<Activity>) {
    forall i :: 0 <= i < |nodes| ==> nodes[i].duration > 0.0
  }

  ghost predicate NoSelfDependency(nodes: seq<Activity>) {
    forall i :: 0 <= i < |nodes| ==> nodes[i].id !in nodes[i].dependsOn
  }

  ghost predicate KnownDependencies(nodes: seq<Activity>) {
    forall i, d :: 0 <= i < |nodes| && d in nodes[i].dependsOn ==> exists j :: 0 <= j < |nodes| && nodes[j].id == d
  }

  ghost predicate Lists(nodes: seq<Activity>, net: Network) {
    && net.Keys == (set i | 0 <= i < |nodes| :: nodes[i].id)
    && forall i :: 0 <= i < |nodes| ==> nodes[i].id in net && net[nodes[i].id] == nodes[i]
  }

  /** The activity at i is the first that repeats an id or has no positive duration. */
  ghost predicate FirstFault(nodes: seq<Activity>, i: int, error: CpmError) {
    && 0 <= i < |nodes| && UniqueIds(nodes[..i]) && PositiveDurations(nodes[..i])
    && if exists j :: 0 <= j < i && nodes[j].id == nodes[i].id then error == DuplicateId
       else nodes[i].duration <= 0.0 && error == NonPositiveDuration
  }

  /** The dependency j of activity i is the first on the activity itself or on none. */
  ghost predicate FirstBadDependency(nodes: seq<Activity>, i: int, j: int, error: CpmError) {
    && 0 <= i < |nodes| && 0 <= j < |nodes[i].dependsOn|
    && (forall k, l :: 0 <= k < i && 0 <= l < |nodes[k].dependsOn| ==> GoodDependency(nodes, k, nodes[k].dependsOn[l]))
    && (forall l :: 0 <= l < j ==> GoodDependency(nodes, i, nodes[i].dependsOn[l]))
    && if nodes[i].dependsOn[j] == nodes[i].id then error == SelfDependency
       else error == UnknownDependency && forall k :: 0 <= k < |nodes| ==> nodes[k].id != nodes[i].dependsOn[j]
  }

  ghost predicate GoodDependency(nodes: seq<Activity>, i: nat, d: string)
    requires i < |nodes|
  {
    d != nodes[i].id && exists k :: 0 <= k < |nodes| && nodes[k].id == d
  }

  method IndexById(nodes: seq<Activity>) returns (result: Result<Network, CpmError>)
    ensures result.Ok? <==> UniqueIds(nodes) && PositiveDurations(nodes)
    ensures result.Ok? ==> Lists(nodes, result.value)
    ensures result.Err? ==> exists i :: FirstFault(nodes, i, result.error)
  {
    var net: Network := map[];
    for i := 0 to |nodes|
      invariant UniqueIds(nodes[..i]) && PositiveDurations(nodes[..i]) && Lists(nodes[..i], net)
    {
      assert nodes[..i + 1] == nodes[..i] + [nodes[i]];
      if nodes[i].id in net {
        assert FirstFault(nodes, i, DuplicateId);
        return Err(DuplicateId);
      }
      if nodes[i].duration <= 0.0 {
        assert FirstFault(nodes, i, NonPositiveDuration);
        return Err(NonPositiveDuration);
      }
      net := net[nodes[i].id := nodes[i]];
    }
    assert nodes[..|nodes|] == nodes;
    return Ok(net);
  }

  method CheckDependencies(nodes: seq<Activity>, net: Network) returns (result: Option<CpmError>)
    requires Lists(nodes, net)
    ensures result.None? <==> NoSelfDependency(nodes) && KnownDependencies(nodes)
    ensures result.Some? ==> exists i, j :: FirstBadDependency(nodes, i, j, result.value)
  {
    for i := 0 to |nodes|
      invariant forall k :: 0 <= k < i ==> nodes[k].id !in nodes[k].dependsOn
      invariant forall k, d :: 0 <= k < i && d in nodes[k].dependsOn ==> d in net
    {
      var deps := nodes[i].dependsOn;
      for j := 0 to |deps|
        invariant nodes[i].id !in deps[..j]
        invariant forall d :: d in deps[..j] ==> d in net
      {
        assert deps[..j + 1] == deps[..j] + [deps[j]];
        if deps[j] == nodes[i].id {
          FirstBadIs(nodes, net, i, j, SelfDependency);
          return Some(SelfDependency);
        }
        if deps[j] !in net {
          assert deps[j] in nodes[i].dependsOn;
          assert forall k :: 0 <= k < |nodes| ==> nodes[k].id != deps[j];
          FirstBadIs(nodes, net, i, j, UnknownDependency);
          return Some(UnknownDependency);
        }
      }
      assert deps[..|deps|] == deps;
    }
    forall i, d | 0 <= i < |nodes| && d in nodes[i].dependsOn
      ensures exists j :: 0 <= j < |nodes| && nodes[j].id == d
    {
      assert d in net.Keys;
    }
    return None;
  }

  lemma FirstBadIs(nodes: seq<Activity>, net: Network, i: nat, j: nat, error: CpmError)
    requires Lists(nodes, net) && i < |nodes| && j < |nodes[i].dependsOn|
    requires forall k, d :: 0 <= k < i && d in nodes[k].dependsOn ==> d in net && d != nodes[k].id
    requires forall d :: d in nodes[i].dependsOn[..j] ==> d in net && d != nodes[i].id
    requires if nodes[i].dependsOn[j] == nodes[i].id then error == SelfDependency
      else nodes[i].dependsOn[j] !in net && error == UnknownDependency
    ensures FirstBadDependency(nodes, i, j, error)
  {
    forall k, d | 0 <= k < |nodes| && d in net && d != nodes[k].id
      ensures GoodDependency(nodes, k, d)
    {
      var m :| 0 <= m < |nodes| && nodes[m].id == d;
    }
    forall l | 0 <= l < j
      ensures GoodDependency(nodes, i, nodes[i].dependsOn[l])
    {
      assert nodes[i].dependsOn[l] in nodes[i].dependsOn[..j];
    }
  }

  lemma ListedIsWellFormed(nodes: seq<Activity>, net: Network)
    requires UniqueIds(nodes) && PositiveDurations(nodes) && NoSelfDependency(nodes) && KnownDependencies(nodes)
    requires Lists(nodes, net)
    ensures WellFormed(net)
  {
    forall n | n in net
      ensures net[n].id == n && net[n].duration > 0.0
      ensures forall d :: d in net[n].dependsOn ==> d in net && d != n
    {
      var i :| 0 <= i < |nodes| && nodes[i].id == n;
      assert net[nodes[i].id] == nodes[i];
    }
  }

  method ListEdges(nodes: seq<Activity>, net: Network) returns (ids: seq<string>, edges: EdgeList)
    requires Lists(nodes, net) && UniqueIds(nodes)
    ensures Distinct(ids) && Elements(ids) == net.Keys
    ensures EdgeSet(edges) == DependencyEdges(net)
  {
    ids, edges := [], [];
    for i := 0 to |nodes|
      invariant |ids| == i && forall k :: 0 <= k < i ==> ids[k] == nodes[k].id
      invariant forall e :: e in edges <==> exists k :: 0 <= k < i && e.1 == nodes[k].id && e.0 in nodes[k].dependsOn
    {
      var deps := nodes[i].dependsOn;
      ghost var before := edges;
      for j := 0 to |deps|
        invariant forall e :: e in edges <==> e in before || (e.1 == nodes[i].id && e.0 in deps[..j])
      {
        assert deps[..j + 1] == deps[..j] + [deps[j]];
        edges := edges + [(deps[j], nodes[i].id)];
      }
      assert deps[..|deps|] == deps;
      ids := ids + [nodes[i].id];
    }
    forall n | n in net
      ensures n in ids
    {
      var k :| 0 <= k < |nodes| && nodes[k].id == n;
      assert ids[k] == n;
    }
    forall e
      ensures e in EdgeSet(edges) <==> e in DependencyEdges(net)
    {
      if e in edges {
        var k :| 0 <= k < |nodes| && e.1 == nodes[k].id && e.0 in nodes[k].dependsOn;
        assert net[nodes[k].id] == nodes[k];
      }
      if e in DependencyEdges(net) {
        assert e.1 in net;
        var k :| 0 <= k < |nodes| && nodes[k].id == e.1;
        assert net[nodes[k].id] == nodes[k];
      }
    }
  }

  // ----- the passes -----

  lemma DependencyIsEarlier(net: Network, order: seq<string>, i: nat, d: string)
    requires Topological(DependencyEdges(net), net.Keys, order) && i < |order| && order[i] in net
    requires d in net[order[i]].dependsOn
    ensures d in order[..i]
  {
    assert (d, order[i]) in DependencyEdges(net);
    assert Before(order, d, order[i]);
    var a, b :| 0 <= a < b < |order| && order[a] == d && order[b] == order[i];
    DistinctIndex(order, b, i);
    assert order[..i][a] == d;
  }

  lemma DependentIsLater(net: Network, order: seq<string>, i: nat, m: string)
    requires Topological(DependencyEdges(net), net.Keys, order) && i < |order| && m in net
    requires order[i] in net[m].dependsOn
    ensures m in order[i + 1..]
  {
    assert (order[i], m) in DependencyEdges(net);
    assert Before(order, order[i], m);
    var a, b :| 0 <= a < b < |order| && order[a] == order[i] && order[b] == m;
    DistinctIndex(order, a, i);
    assert order[i + 1..][b - (i + 1)] == m;
  }

  /** max((ef[d] for d in deps), default=0) */
  method LatestFinish(deps: seq<string>, ef: Times) returns (latest: real)
    requires forall d :: d in deps ==> d in ef && ef[d] > 0.0
    ensures latest >= 0.0
    ensures forall d :: d in deps ==> ef[d] <= latest
    ensures latest == 0.0 || exists d :: d in deps && ef[d] == latest
  {
    latest := 0.0;
    for i := 0 to |deps|
      invariant latest >= 0.0
      invariant forall j :: 0 <= j < i ==> ef[deps[j]] <= latest
      invariant latest == 0.0 || exists j :: 0 <= j < i && ef[deps[j]] == latest
    {
      if ef[deps[i]] > latest {
        latest := ef[deps[i]];
      }
    }
  }

  lemma EarlyAtStable(net: Network, es: Times, ef: Times, n: string, m: string, start: real, finish: real)
    requires EarlyAt(net, es, ef, n) && m !in es && m !in ef
    ensures EarlyAt(net, es[m := start], ef[m := finish], n)
  {
    if es[n] != 0.0 {
      var d :| d in net[n].dependsOn && ef[d] == es[n];
      assert ef[m := finish][d] == es[n];
    }
  }

  ghost predicate EarlyOn(net: Network, es: Times, ef: Times) {
    es.Keys == ef.Keys && forall n {:trigger EarlyAt(net, es, ef, n)} :: n in es ==> EarlyAt(net, es, ef, n)
  }

  lemma EarlyOnGrows(net: Network, es: Times, ef: Times, n: string, start: real)
    requires WellFormed(net) && n in net && n !in es && EarlyOn(net, es, ef) && start >= 0.0
    requires forall d :: d in net[n].dependsOn ==> d in ef && ef[d] <= start
    requires start == 0.0 || exists d :: d in net[n].dependsOn && ef[d] == start
    ensures EarlyOn(net, es[n := start], ef[n := start + net[n].duration])
  {
    var es', ef' := es[n := start], ef[n := start + net[n].duration];
    NewEarlyAt(net, es, ef, n, start);
    forall m | m in es'
      ensures EarlyAt(net, es', ef', m)
    {
      if m != n { EarlyAtStable(net, es, ef, m, n, start, start + net[n].duration); }
    }
  }

  lemma DependenciesAreDone(net: Network, order: seq<string>, i: nat, es: Times, ef: Times)
    requires WellFormed(net) && Topological(DependencyEdges(net), net.Keys, order) && i < |order|
    requires EarlyOn(net, es, ef) && es.Keys == Elements(order[..i])
    ensures order[i] in net && order[i] !in es
    ensures forall d :: d in net[order[i]].dependsOn ==> d in ef && ef[d] > 0.0
  {
    NotYetListed(order, i);
    assert order[i] in Elements(order);
    forall d | d in net[order[i]].dependsOn
      ensures d in ef && ef[d] > 0.0
    {
      DependencyIsEarlier(net, order, i, d);
      assert EarlyAt(net, es, ef, d);
    }
  }

  method ForwardPass(net: Network, order: seq<string>) returns (es: Times, ef: Times)
    requires WellFormed(net) && Topological(DependencyEdges(net), net.Keys, order)
    ensures Early(net, es, ef)
  {
    es, ef := map[], map[];
    for i := 0 to |order|
      invariant es.Keys == Elements(order[..i]) && EarlyOn(net, es, ef)
    {
      var nid := order[i];
      DependenciesAreDone(net, order, i, es, ef);
      var start := LatestFinish(net[nid].dependsOn, ef);
      EarlyOnGrows(net, es, ef, nid, start);
      ElementsAppend(order, i);
      es := es[nid := start];
      ef := ef[nid := start + net[nid].duration];
    }
    assert order[..|order|] == order;
  }

  lemma NotYetListed(order: seq<string>, i: nat)
    requires Distinct(order) && i < |order|
    ensures order[i] !in Elements(order[..i])
  {
  }

  lemma NewEarlyAt(net: Network, es: Times, ef: Times, n: string, start: real)
    requires WellFormed(net) && n in net && start >= 0.0
    requires forall d :: d in net[n].dependsOn ==> d in ef && ef[d] <= start
    requires start == 0.0 || exists d :: d in net[n].dependsOn && ef[d] == start
    ensures EarlyAt(net, es[n := start], ef[n := start + net[n].duration], n)
  {
    if start != 0.0 {
      var d :| d in net[n].dependsOn && ef[d] == start;
      assert d != n && ef[n := start + net[n].duration][d] == start;
    }
  }

  /** max(ef.values()) if ef else 0 */
  method ProjectEnd(net: Network, order: seq<string>, ef: Times) returns (end: real)
    requires Elements(order) == net.Keys == ef.Keys
    ensures IsEnd(net, ef, end)
  {
    if order == [] {
      assert forall n :: n in net ==> n in Elements(order);
      return 0.0;
    }
    assert order[0] in Elements(order);
    end := ef[order[0]];
    for i := 0 to |order|
      invariant forall j :: 0 <= j < i ==> order[j] in ef && ef[order[j]] <= end
      invariant exists n :: n in net && ef[n] == end
    {
      assert order[i] in Elements(order);
      if ef[order[i]] > end {
        end := ef[order[i]];
      }
    }
    forall n | n in net
      ensures ef[n] <= end
    {
      assert n in Elements(order);
    }
  }

  /** One activity's dependencies each gain it as a dependent. */
  method AddDependent(before: map<string, seq<string>>, id: string, deps: seq<string>)
    returns (dependents: map<string, seq<string>>)
    requires forall d :: d in deps ==> d in before
    ensures dependents.Keys == before.Keys
    ensures forall n, m :: n in before ==> (m in dependents[n] <==> m in before[n] || (m == id && n in deps))
  {
    dependents := before;
    for j := 0 to |deps|
      invariant dependents.Keys == before.Keys
      invariant forall n, m :: n in before ==> (m in dependents[n] <==> m in before[n] || (m == id && n in deps[..j]))
    {
      MembersAppend(deps, j);
      dependents := dependents[deps[j] := dependents[deps[j]] + [id]];
    }
    assert deps[..|deps|] == deps;
  }

  method Dependents(nodes: seq<Activity>, net: Network) returns (dependents: map<string, seq<string>>)
    requires Lists(nodes, net) && WellFormed(net)
    ensures dependents.Keys == net.Keys
    ensures forall n, m :: n in net ==> (m in dependents[n] <==> m in net && n in net[m].dependsOn)
  {
    dependents := map n | n in net :: [];
    for i := 0 to |nodes|
      invariant dependents.Keys == net.Keys
      invariant forall n, m :: n in net ==>
        (m in dependents[n] <==> exists k :: 0 <= k < i && nodes[k].id == m && n in nodes[k].dependsOn)
    {
      assert net[nodes[i].id] == nodes[i];
      dependents := AddDependent(dependents, nodes[i].id, nodes[i].dependsOn);
    }
    forall n, m | n in net
      ensures m in dependents[n] <==> m in net && n in net[m].dependsOn
    {
      ListedDependent(nodes, net, n, m);
    }
  }

  lemma ListedDependent(nodes: seq<Activity>, net: Network, n: string, m: string)
    requires Lists(nodes, net)
    ensures (exists k :: 0 <= k < |nodes| && nodes[k].id == m && n in nodes[k].dependsOn) <==>
      m in net && n in net[m].dependsOn
  {
    if k :| 0 <= k < |nodes| && nodes[k].id == m && n in nodes[k].dependsOn {
      assert net[nodes[k].id] == nodes[k];
    }
    if m in net && n in net[m].dependsOn {
      var k :| 0 <= k < |nodes| && nodes[k].id == m;
      assert net[nodes[k].id] == nodes[k];
    }
  }

  /** min((ls[dep] for dep in dependents), default=project_end) */
  method EarliestStart(dependents: seq<string>, ls: Times, end: real) returns (earliest: real)
    requires forall m :: m in dependents ==> m in ls
    ensures forall m :: m in dependents ==> earliest <= ls[m]
    ensures if dependents == [] then earliest == end else exists m :: m in dependents && ls[m] == earliest
  {
    if dependents == [] {
      return end;
    }
    earliest := ls[dependents[0]];
    for i := 0 to |dependents|
      invariant forall j :: 0 <= j < i ==> earliest <= ls[dependents[j]]
      invariant exists m :: m in dependents && ls[m] == earliest
    {
      if ls[dependents[i]] < earliest {
        earliest := ls[dependents[i]];
      }
    }
  }

  lemma LateAtStable(net: Network, ls: Times, lf: Times, end: real, n: string, m: string, start: real, finish: real)
    requires LateAt(net, ls, lf, end, n) && m !in ls && m !in lf
    ensures LateAt(net, ls[m := start], lf[m := finish], end, n)
  {
    if k :| k in net && n in net[k].dependsOn && k in ls && lf[n] == ls[k] {
      assert ls[m := start][k] == lf[n];
    }
  }

  lemma NewLateAt(net: Network, ls: Times, lf: Times, end: real, n: string, finish: real)
    requires WellFormed(net) && n in net
    requires forall m :: m in net && n in net[m].dependsOn ==> m in ls && finish <= ls[m]
    requires (finish == end && forall m :: m in net ==> n !in net[m].dependsOn)
      || exists m :: m in net && n in net[m].dependsOn && m in ls && ls[m] == finish
    ensures LateAt(net, ls[n := finish - net[n].duration], lf[n := finish], end, n)
  {
    var ls', lf' := ls[n := finish - net[n].duration], lf[n := finish];
    forall m | m in net && n in net[m].dependsOn
      ensures m != n && m in ls' && ls'[m] == ls[m]
    {
    }
    if m :| m in net && n in net[m].dependsOn && m in ls && ls[m] == finish {
      assert ls'[m] == lf'[n];
    }
  }

  ghost predicate AreDependents(net: Network, dependents: map<string, seq<string>>) {
    && dependents.Keys == net.Keys
    && forall n, m :: n in net ==> (m in dependents[n] <==> m in net && n in net[m].dependsOn)
  }

  ghost predicate LateOn(net: Network, ls: Times, lf: Times, end: real) {
    ls.Keys == lf.Keys && forall n {:trigger LateAt(net, ls, lf, end, n)} :: n in ls ==> LateAt(net, ls, lf, end, n)
  }

  lemma LateOnGrows(net: Network, ls: Times, lf: Times, end: real, n: string, start: real, finish: real)
    requires n !in ls && LateOn(net, ls, lf, end)
    requires LateAt(net, ls[n := start], lf[n := finish], end, n)
    ensures LateOn(net, ls[n := start], lf[n := finish], end)
  {
    forall m | m in ls
      ensures LateAt(net, ls[n := start], lf[n := finish], end, m)
    {
      LateAtStable(net, ls, lf, end, m, n, start, finish);
    }
  }

  lemma DependentsAreDone(net: Network, order: seq<string>, i: nat, dependents: map<string, seq<string>>, ls: Times)
    requires Topological(DependencyEdges(net), net.Keys, order) && AreDependents(net, dependents) && i < |order|
    requires ls.Keys == Elements(order[i + 1..])
    ensures order[i] in net && order[i] !in ls
    ensures forall m :: m in dependents[order[i]] ==> m in ls
  {
    NotListedLater(order, i);
    assert order[i] in Elements(order);
    forall m | m in dependents[order[i]]
      ensures m in ls
    {
      DependentIsLater(net, order, i, m);
    }
  }

  lemma FinishIsLate(
      net: Network, dependents: map<string, seq<string>>, n: string, ls: Times, lf: Times, end: real, finish: real)
    requires WellFormed(net) && AreDependents(net, dependents) && n in net
    requires forall m :: m in dependents[n] ==> m in ls && finish <= ls[m]
    requires if dependents[n] == [] then finish == end else exists m :: m in dependents[n] && ls[m] == finish
    ensures LateAt(net, ls[n := finish - net[n].duration], lf[n := finish], end, n)
  {
    if dependents[n] == [] {
      assert forall m :: m in net ==> m !in dependents[n];
    } else {
      var m :| m in dependents[n] && ls[m] == finish;
      assert m in net && n in net[m].dependsOn;
    }
    NewLateAt(net, ls, lf, end, n, finish);
  }

  method BackwardStep(
      net: Network, dependents: map<string, seq<string>>, nid: string, ls: Times, ghost lf: Times, end: real)
    returns (finish: real)
    requires WellFormed(net) && AreDependents(net, dependents) && LateOn(net, ls, lf, end)
    requires nid in net && nid !in ls && forall m :: m in dependents[nid] ==> m in ls
    ensures LateOn(net, ls[nid := finish - net[nid].duration], lf[nid := finish], end)
  {
    finish := EarliestStart(dependents[nid], ls, end);
    FinishIsLate(net, dependents, nid, ls, lf, end, finish);
    LateOnGrows(net, ls, lf, end, nid, finish - net[nid].duration, finish);
  }

  method BackwardPass(net: Network, order: seq<string>, dependents: map<string, seq<string>>, end: real)
    returns (ls: Times, lf: Times)
    requires WellFormed(net) && Topological(DependencyEdges(net), net.Keys, order) && AreDependents(net, dependents)
    ensures Late(net, ls, lf, end)
  {
    ls, lf := map[], map[];
    for i := |order| downto 0
      invariant ls.Keys == Elements(order[i..]) && LateOn(net, ls, lf, end)
    {
      var nid := order[i];
      DependentsAreDone(net, order, i, dependents, ls);
      var finish := BackwardStep(net, dependents, nid, ls, lf, end);
      assert order[i..] == [nid] + order[i + 1..];
      lf := lf[nid := finish];
      ls := ls[nid := finish - net[nid].duration];
    }
    assert order[0..] == order;
  }

  lemma NotListedLater(order: seq<string>, i: nat)
    requires Distinct(order) && i < |order|
    ensures order[i] !in Elements(order[i + 1..])
  {
  }

  // ----- the critical chain -----

  /** The tables of the two passes, the project's end and the zero-slack flags. */
  datatype Timing = Timing(es: Times, ef: Times, ls: Times, lf: Times, end: real, on: map<string, bool>)

  /** What _critical_chain reads: the passes' results on a topological order. */
  ghost predicate Passes(net: Network, order: seq<string>, t: Timing) {
    && WellFormed(net) && Topological(DependencyEdges(net), net.Keys, order)
    && Early(net, t.es, t.ef) && IsEnd(net, t.ef, t.end) && Late(net, t.ls, t.lf, t.end)
    && t.on.Keys == net.Keys && forall n :: n in net ==> t.on[n] == (t.ls[n] == t.es[n])
  }

  /** The early finish of an activity never exceeds its late finish. */
  lemma SlackIsNotNegative(net: Network, order: seq<string>, t: Timing, n: string)
    requires Passes(net, order, t) && n in net
    ensures t.es[n] <= t.ls[n]
  {
    TopologicalIsAcyclic(DependencyEdges(net), net.Keys, order);
    DependentsAcyclic(net);
    var before := ChainReachesEarly(net, t.es, t.ef, n);
    var after := ChainReachesLate(net, t.ls, t.lf, t.end, n);
    ChainJoin(net, before, after);
    ChainFitsEarly(net, t.es, t.ef, before + after[1..]);
    assert EarlyAt(net, t.es, t.ef, n) && LateAt(net, t.ls, t.lf, t.end, n);
  }

  /** A dependency whose early finish ties a critical activity's start is critical too. */
  lemma TyingDependencyIsCritical(net: Network, order: seq<string>, t: Timing, n: string, d: string)
    requires Passes(net, order, t)
    requires n in net && t.on[n] && d in net[n].dependsOn && t.ef[d] == t.es[n]
    ensures t.on[d]
  {
    SlackIsNotNegative(net, order, t, d);
    assert EarlyAt(net, t.es, t.ef, d) && LateAt(net, t.ls, t.lf, t.end, d);
  }

  /** An activity that finishes last is critical. */
  lemma LastIsCritical(net: Network, order: seq<string>, t: Timing, n: string)
    requires Passes(net, order, t) && n in net && t.ef[n] == t.end
    ensures t.on[n]
  {
    assert EarlyAt(net, t.es, t.ef, n) && LateAt(net, t.ls, t.lf, t.end, n);
    forall m | m in net
      ensures n !in net[m].dependsOn
    {
      assert EarlyAt(net, t.es, t.ef, m);
    }
  }

  /** The tying dependencies of a critical activity. */
  ghost predicate Ties(net: Network, t: Timing, n: string, d: string) {
    n in net && n in t.es && d in net[n].dependsOn && d in t.on && t.on[d] && d in t.ef && t.ef[d] == t.es[n]
  }

  /** Of several dependencies that tie, the one with the greatest name is kept. */
  ghost predicate GreatestTie(net: Network, t: Timing, n: string, d: string) {
    Ties(net, t, n, d) && forall e :: Ties(net, t, n, e) ==> e == d || Less(e, d)
  }

  lemma LateStarterHasTie(net: Network, order: seq<string>, t: Timing, n: string)
    requires Passes(net, order, t) && n in net && t.on[n] && t.es[n] != 0.0
    ensures exists d :: Ties(net, t, n, d)
  {
    assert EarlyAt(net, t.es, t.ef, n);
    var d :| d in net[n].dependsOn && t.ef[d] == t.es[n];
    TyingDependencyIsCritical(net, order, t, n, d);
    assert Ties(net, t, n, d);
  }

  method BestPredecessor(net: Network, t: Timing, length: Times, n: string)
    returns (bestLength: real, bestPred: Option<string>)
    requires n in net && n in t.es && n in t.ef && t.ef[n] == t.es[n] + net[n].duration
    requires forall d :: d in net[n].dependsOn ==> d in t.on && d in t.ef && t.ef[d] > 0.0
    requires forall d :: d in net[n].dependsOn && t.on[d] ==> d in length && length[d] == t.ef[d]
    ensures bestPred.Some? ==> GreatestTie(net, t, n, bestPred.value) && bestLength == t.ef[n]
    ensures bestPred.None? ==> bestLength == net[n].duration && forall d :: !Ties(net, t, n, d)
  {
    var deps := Sort(net[n].dependsOn);
    SameMembers(deps, net[n].dependsOn);
    bestLength, bestPred := net[n].duration, None;
    for i := 0 to |deps|
      invariant BestAmong(net, t, n, deps, i, bestLength, bestPred)
    {
      var d := deps[i];
      assert d in net[n].dependsOn;
      BestOfOneMore(net, t, n, deps, i, bestLength, bestPred);
      if t.on[d] && t.ef[d] == t.es[n] && length[d] + net[n].duration >= bestLength {
        bestLength, bestPred := length[d] + net[n].duration, Some(d);
      }
    }
    BestOfAll(net, t, n, deps, bestLength, bestPred);
  }

  lemma BestOfOneMore(
      net: Network, t: Timing, n: string, deps: seq<string>, i: nat, bestLength: real, bestPred: Option<string>)
    requires n in net && n in t.ef && i < |deps| && BestAmong(net, t, n, deps, i, bestLength, bestPred)
    ensures if Ties(net, t, n, deps[i]) then BestAmong(net, t, n, deps, i + 1, t.ef[n], Some(deps[i]))
      else BestAmong(net, t, n, deps, i + 1, bestLength, bestPred)
  {
  }

  lemma BestOfAll(
      net: Network, t: Timing, n: string, deps: seq<string>, bestLength: real, bestPred: Option<string>)
    requires n in net && n in t.ef && BestAmong(net, t, n, deps, |deps|, bestLength, bestPred)
    requires forall d :: d in deps <==> d in net[n].dependsOn
    ensures bestPred.Some? ==> GreatestTie(net, t, n, bestPred.value) && bestLength == t.ef[n]
    ensures bestPred.None? ==> bestLength == net[n].duration && forall d :: !Ties(net, t, n, d)
  {
    forall d | Ties(net, t, n, d)
      ensures bestPred.Some? && (d == bestPred.value || Less(d, bestPred.value))
    {
      var j :| 0 <= j < |deps| && deps[j] == d;
    }
  }

  /** The best of the first dependencies: the last that ties, or the activity alone. */
  ghost predicate BestAmong(
      net: Network, t: Timing, n: string, deps: seq<string>, i: nat, bestLength: real, bestPred: Option<string>)
    requires n in net && n in t.ef
  {
    && IsSorted(deps) && i <= |deps|
    && match bestPred
       case None => bestLength == net[n].duration && forall j :: 0 <= j < i ==> !Ties(net, t, n, deps[j])
       case Some(d) =>
         bestLength == t.ef[n] && Ties(net, t, n, d)
         && forall j :: 0 <= j < i && Ties(net, t, n, deps[j]) ==> deps[j] == d || Less(deps[j], d)
  }

  /** What the dynamic program records for a critical activity. */
  ghost predicate Recorded(net: Network, t: Timing, length: Times, prev: map<string, Option<string>>, n: string)
  {
    && n in net && n in t.es && n in t.ef && n in t.on && t.on[n] && n in length && n in prev
    && length[n] == t.ef[n]
    && (prev[n].None? ==> t.es[n] == 0.0)
    && (prev[n].Some? ==> GreatestTie(net, t, n, prev[n].value))
  }

  lemma TieIsEarlier(net: Network, order: seq<string>, t: Timing, i: nat, d: string)
    requires Topological(DependencyEdges(net), net.Keys, order) && i < |order|
    requires Ties(net, t, order[i], d)
    ensures exists k :: 0 <= k < i && order[k] == d
  {
    DependencyIsEarlier(net, order, i, d);
    var k :| 0 <= k < |order[..i]| && order[..i][k] == d;
    assert order[k] == d;
  }

  lemma BestIsRecorded(
      net: Network, order: seq<string>, t: Timing, n: string, bestLength: real, bestPred: Option<string>)
    requires Passes(net, order, t) && n in net && t.on[n]
    requires bestPred.Some? ==> GreatestTie(net, t, n, bestPred.value) && bestLength == t.ef[n]
    requires bestPred.None? ==> bestLength == net[n].duration && forall d :: !Ties(net, t, n, d)
    ensures bestLength == t.ef[n] && (bestPred.None? ==> t.es[n] == 0.0)
  {
    assert EarlyAt(net, t.es, t.ef, n);
    if bestPred.None? && t.es[n] != 0.0 {
      LateStarterHasTie(net, order, t, n);
      assert false;
    }
  }

  lemma PassesAt(net: Network, order: seq<string>, t: Timing, n: string)
    requires Passes(net, order, t) && n in net
    ensures n in t.es && n in t.ef && n in t.on && t.ef[n] == t.es[n] + net[n].duration && t.ef[n] > 0.0
    ensures forall d :: d in net[n].dependsOn ==> d in net && d in t.on && d in t.ef && t.ef[d] > 0.0
  {
    assert EarlyAt(net, t.es, t.ef, n);
    forall d | d in net[n].dependsOn
      ensures d in net && d in t.ef && t.ef[d] > 0.0
    {
      assert EarlyAt(net, t.es, t.ef, d);
    }
  }

  ghost predicate RecordedOn(net: Network, t: Timing, length: Times, prev: map<string, Option<string>>) {
    forall n {:trigger Recorded(net, t, length, prev, n)} :: n in length ==> Recorded(net, t, length, prev, n)
  }

  lemma RecordedOnGrows(
      net: Network, t: Timing, length: Times, prev: map<string, Option<string>>, n: string, best: real,
      pred: Option<string>)
    requires RecordedOn(net, t, length, prev) && n !in length
    requires Recorded(net, t, length[n := best], prev[n := pred], n)
    ensures RecordedOn(net, t, length[n := best], prev[n := pred])
  {
    forall m | m in length
      ensures Recorded(net, t, length[n := best], prev[n := pred], m)
    {
      assert Recorded(net, t, length, prev, m);
    }
  }

  lemma CriticalDependenciesDone(
      net: Network, order: seq<string>, t: Timing, length: Times, prev: map<string, Option<string>>, i: nat)
    requires Topological(DependencyEdges(net), net.Keys, order) && i < |order| && order[i] in net
    requires RecordedOn(net, t, length, prev)
    requires forall n :: n in order[..i] && n in t.on && t.on[n] ==> n in length
    ensures forall d :: d in net[order[i]].dependsOn && d in t.on && t.on[d] ==>
      d in length && d in t.ef && length[d] == t.ef[d]
  {
    forall d | d in net[order[i]].dependsOn && d in t.on && t.on[d]
      ensures d in length && d in t.ef && length[d] == t.ef[d]
    {
      DependencyIsEarlier(net, order, i, d);
      assert Recorded(net, t, length, prev, d);
    }
  }

  /** One critical activity's turn. */
  method RecordBest(
      net: Network, ghost order: seq<string>, t: Timing, length: Times, ghost prev: map<string, Option<string>>,
      n: string)
    returns (best: real, pred: Option<string>)
    requires Passes(net, order, t) && n in net && t.on[n]
    requires RecordedOn(net, t, length, prev) && n !in length
    requires forall d :: d in net[n].dependsOn && d in t.on && t.on[d] ==>
      d in length && d in t.ef && length[d] == t.ef[d]
    ensures RecordedOn(net, t, length[n := best], prev[n := pred])
  {
    PassesAt(net, order, t, n);
    best, pred := BestPredecessor(net, t, length, n);
    BestIsRecorded(net, order, t, n, best, pred);
    RecordedOnGrows(net, t, length, prev, n, best, pred);
  }

  ghost predicate BestSoFar(
      net: Network, order: seq<string>, i: nat, t: Timing, length: Times, prev: map<string, Option<string>>)
    requires i <= |order|
  {
    && (forall n :: n in length <==> n in order[..i] && n in t.on && t.on[n])
    && RecordedOn(net, t, length, prev)
  }

  /** An activity off the critical set leaves the records as they are. */
  lemma TurnSkipped(
      net: Network, order: seq<string>, i: nat, t: Timing, length: Times, prev: map<string, Option<string>>)
    requires i < |order| && order[i] in t.on && !t.on[order[i]]
    requires BestSoFar(net, order, i, t, length, prev)
    ensures BestSoFar(net, order, i + 1, t, length, prev)
  {
    MembersAppend(order, i);
  }

  lemma TurnRecorded(
      net: Network, order: seq<string>, i: nat, t: Timing, length: Times, prev: map<string, Option<string>>,
      best: real, pred: Option<string>)
    requires i < |order| && order[i] in t.on && t.on[order[i]]
    requires BestSoFar(net, order, i, t, length, prev)
    requires RecordedOn(net, t, length[order[i] := best], prev[order[i] := pred])
    ensures BestSoFar(net, order, i + 1, t, length[order[i] := best], prev[order[i] := pred])
  {
    MembersAppend(order, i);
  }

  lemma TurnIsNew(net: Network, order: seq<string>, i: nat, t: Timing, length: Times, prev: map<string, Option<string>>)
    requires Passes(net, order, t) && i < |order|
    requires BestSoFar(net, order, i, t, length, prev)
    ensures order[i] in net && order[i] in t.on && order[i] !in length
  {
    assert order[i] in Elements(order);
    NotYetListed(order, i);
  }

  method BestChainTurn(
      net: Network, order: seq<string>, i: nat, t: Timing, length: Times, prev: map<string, Option<string>>)
    returns (length': Times, prev': map<string, Option<string>>)
    requires Passes(net, order, t) && i < |order|
    requires BestSoFar(net, order, i, t, length, prev)
    ensures BestSoFar(net, order, i + 1, t, length', prev')
  {
    TurnIsNew(net, order, i, t, length, prev);
    if t.on[order[i]] {
      CriticalDependenciesDone(net, order, t, length, prev, i);
      var best, pred := RecordBest(net, order, t, length, prev, order[i]);
      TurnRecorded(net, order, i, t, length, prev, best, pred);
      length', prev' := length[order[i] := best], prev[order[i] := pred];
    } else {
      TurnSkipped(net, order, i, t, length, prev);
      length', prev' := length, prev;
    }
  }

  /** The dynamic program: for every critical activity, its best chain's length and last step. */
  method BestChains(net: Network, order: seq<string>, t: Timing)
    returns (length: Times, prev: map<string, Option<string>>)
    requires Passes(net, order, t)
    ensures forall n :: n in length <==> n in net && t.on[n]
    ensures RecordedOn(net, t, length, prev)
  {
    length, prev := map[], map[];
    for i := 0 to |order|
      invariant BestSoFar(net, order, i, t, length, prev)
    {
      length, prev := BestChainTurn(net, order, i, t, length, prev);
    }
    assert order[..|order|] == order;
    assert forall n :: n in net ==> n in Elements(order);
  }

  /** What a critical path is: a chain of zero-slack activities, back to back from time 0. */
  ghost predicate IsCriticalPath(net: Network, es: Times, ef: Times, on: map<string, bool>, chain: seq<string>)
    requires es.Keys == net.Keys == ef.Keys == on.Keys
  {
    && IsChain(net, chain)
    && (forall i :: 0 <= i < |chain| ==> on[chain[i]])
    && es[chain[0]] == 0.0
    && forall i :: 0 <= i < |chain| - 1 ==> ef[chain[i]] == es[chain[i + 1]]
  }

  /** A critical path that ends with an activity weighs exactly that activity's early finish. */
  lemma {:induction false} CriticalPathTotal(
      net: Network, es: Times, ef: Times, on: map<string, bool>, chain: seq<string>)
    requires Early(net, es, ef) && on.Keys == net.Keys && IsCriticalPath(net, es, ef, on, chain)
    ensures Total(net, chain) == ef[Last(chain)]
    decreases |chain|
  {
    var k := |chain| - 1;
    assert EarlyAt(net, es, ef, chain[k]);
    if k > 0 {
      var front := chain[..k];
      assert forall i :: 0 <= i < k ==> front[i] == chain[i];
      assert ef[chain[k - 1]] == es[chain[k - 1 + 1]];
      CriticalPathTotal(net, es, ef, on, front);
    } else {
      assert chain[..0] == [];
    }
  }

  /** The activity is in the order at i, and those before it have smaller lengths. */
  ghost predicate FirstLongest(order: seq<string>, length: Times, n: string, i: int) {
    0 <= i < |order| && order[i] == n && n in length
    && forall j :: 0 <= j < i && order[j] in length ==> length[order[j]] < length[n]
  }

  /** max(length, key=length.get): the first activity, in insertion order, with the largest length. */
  method LongestEnd(order: seq<string>, length: Times) returns (end: Option<string>)
    requires length.Keys <= Elements(order)
    ensures end.None? <==> length == map[]
    ensures end.Some? ==> end.value in length && forall n :: n in length ==> length[n] <= length[end.value]
    ensures end.Some? ==> exists i :: FirstLongest(order, length, end.value, i)
  {
    end := None;
    for i := 0 to |order|
      invariant end.None? ==> forall j :: 0 <= j < i ==> order[j] !in length
      invariant end.Some? ==> end.value in length
      invariant end.Some? ==> forall j :: 0 <= j < i && order[j] in length ==> length[order[j]] <= length[end.value]
      invariant end.Some? ==> exists k :: FirstLongest(order, length, end.value, k)
    {
      if order[i] in length && (end.None? || length[order[i]] > length[end.value]) {
        assert FirstLongest(order, length, order[i], i);
        end := Some(order[i]);
      }
    }
    forall n | n in length
      ensures exists j :: 0 <= j < |order| && order[j] == n
    {
      assert n in Elements(order);
    }
  }

  ghost function IndexOf(order: seq<string>, n: string): (i: nat)
    requires n in order
    ensures i < |order| && order[i] == n
  {
    var i :| 0 <= i < |order| && order[i] == n;
    i
  }

  /** Follow the recorded predecessors back from an activity and reverse. */
  method Reconstruct(
      net: Network, ghost order: seq<string>, ghost t: Timing, ghost length: Times, prev: map<string, Option<string>>,
      last: string)
    returns (chain: seq<string>)
    requires t.es.Keys == net.Keys == t.ef.Keys == t.on.Keys
    requires Topological(DependencyEdges(net), net.Keys, order)
    requires last in net && t.on[last] && RecordedOn(net, t, length, prev)
    requires forall n :: n in net && t.on[n] ==> n in length
    ensures IsCriticalPath(net, t.es, t.ef, t.on, chain) && Last(chain) == last
    ensures forall i :: 0 <= i < |chain| - 1 ==> GreatestTie(net, t, chain[i + 1], chain[i])
  {
    assert last in Elements(order);
    chain := [last];
    var cur := last;
    assert Recorded(net, t, length, prev, cur);
    while prev[cur].Some?
      invariant cur in net && t.on[cur] && cur in order && Recorded(net, t, length, prev, cur)
      invariant chain != [] && chain[0] == cur && Last(chain) == last && IsChain(net, chain)
      invariant forall i :: 0 <= i < |chain| ==> t.on[chain[i]]
      invariant forall i :: 0 <= i < |chain| - 1 ==> t.ef[chain[i]] == t.es[chain[i + 1]]
      invariant forall i :: 0 <= i < |chain| - 1 ==> GreatestTie(net, t, chain[i + 1], chain[i])
      decreases IndexOf(order, cur)
    {
      var d := prev[cur].value;
      ghost var at := IndexOf(order, cur);
      TieIsEarlier(net, order, t, at, d);
      ghost var k :| 0 <= k < at && order[k] == d;
      DistinctIndex(order, k, IndexOf(order, d));
      assert d in Elements(order);
      ghost var before := chain;
      chain := [d] + chain;
      assert forall i :: 1 <= i < |chain| ==> chain[i] == before[i - 1];
      cur := d;
    }
  }

  /** The dependency that finishes as the activity starts, the one with the greatest name if there are several. */
  ghost predicate LastToFinish(net: Network, es: Times, ef: Times, n: string, d: string) {
    && n in net && n in es && d in net[n].dependsOn && d in ef && ef[d] == es[n]
    && forall e :: e in net[n].dependsOn && e in ef && ef[e] == es[n] ==> e == d || Less(e, d)
  }

  /** The activity is the first in the order that finishes at the end of the project. */
  ghost predicate FirstAtEnd(order: seq<string>, ef: Times, end: real, n: string, i: int) {
    0 <= i < |order| && order[i] == n && n in ef && ef[n] == end
    && forall j :: 0 <= j < i && order[j] in ef ==> ef[order[j]] < end
  }

  /** The critical path that is returned: back from the first activity at the end, by the last to finish. */
  ghost predicate IsChosenPath(net: Network, order: seq<string>, es: Times, ef: Times, end: real, chain: seq<string>) {
    && IsChain(net, chain) && chain[0] in es && es[chain[0]] == 0.0
    && (exists i :: FirstAtEnd(order, ef, end, Last(chain), i))
    && forall i :: 0 <= i < |chain| - 1 ==> LastToFinish(net, es, ef, chain[i + 1], chain[i])
  }

  lemma ChosenEndsAgree(order: seq<string>, ef: Times, end: real, a: string, b: string)
    requires exists i :: FirstAtEnd(order, ef, end, a, i)
    requires exists i :: FirstAtEnd(order, ef, end, b, i)
    ensures a == b
  {
    var i :| FirstAtEnd(order, ef, end, a, i);
    var j :| FirstAtEnd(order, ef, end, b, j);
    assert order[i] in ef && order[j] in ef;
  }

  /** Two such chains that end alike are alike. */
  lemma {:induction false} ChosenFrontsAgree(net: Network, es: Times, ef: Times, a: seq<string>, b: seq<string>)
    requires Early(net, es, ef) && WellFormed(net) && IsChain(net, a) && IsChain(net, b) && Last(a) == Last(b)
    requires es[a[0]] == 0.0 && es[b[0]] == 0.0
    requires forall i :: 0 <= i < |a| - 1 ==> LastToFinish(net, es, ef, a[i + 1], a[i])
    requires forall i :: 0 <= i < |b| - 1 ==> LastToFinish(net, es, ef, b[i + 1], b[i])
    ensures a == b
    decreases |a|
  {
    var k, l := |a| - 1, |b| - 1;
    if k > 0 {
      assert LastToFinish(net, es, ef, a[k - 1 + 1], a[k - 1]);
      assert EarlyAt(net, es, ef, a[k - 1]);
    }
    if l > 0 {
      assert LastToFinish(net, es, ef, b[l - 1 + 1], b[l - 1]);
      assert EarlyAt(net, es, ef, b[l - 1]);
    }
    if k > 0 && l > 0 {
      if a[k - 1] != b[l - 1] { LessAsymmetric(a[k - 1], b[l - 1]); }
      ChosenFrontsAgree(net, es, ef, a[..k], b[..l]);
      assert a == a[..k] + [a[k]] && b == b[..l] + [b[l]];
    }
  }

  /** There is at most one such path, so the analysis is determined by the activities. */
  lemma ChosenPathIsUnique(
      net: Network, order: seq<string>, es: Times, ef: Times, end: real, a: seq<string>, b: seq<string>)
    requires Early(net, es, ef) && WellFormed(net)
    requires IsChosenPath(net, order, es, ef, end, a) && IsChosenPath(net, order, es, ef, end, b)
    ensures a == b
  {
    ChosenEndsAgree(order, ef, end, Last(a), Last(b));
    ChosenFrontsAgree(net, es, ef, a, b);
  }

  lemma TiesAreLastToFinish(net: Network, order: seq<string>, t: Timing, n: string, d: string)
    requires Passes(net, order, t) && n in net && t.on[n] && GreatestTie(net, t, n, d)
    ensures LastToFinish(net, t.es, t.ef, n, d)
  {
    forall e | e in net[n].dependsOn && e in t.ef && t.ef[e] == t.es[n]
      ensures Ties(net, t, n, e)
    {
      TyingDependencyIsCritical(net, order, t, n, e);
    }
  }

  lemma LongestIsFirstAtEnd(
      net: Network, order: seq<string>, t: Timing, length: Times, prev: map<string, Option<string>>, last: string)
    requires Passes(net, order, t) && RecordedOn(net, t, length, prev)
    requires forall n :: n in length <==> n in net && t.on[n]
    requires exists i :: FirstLongest(order, length, last, i)
    requires last in length && forall n :: n in length ==> length[n] <= length[last]
    ensures exists i :: FirstAtEnd(order, t.ef, t.end, last, i)
  {
    assert Recorded(net, t, length, prev, last);
    var top :| top in net && t.ef[top] == t.end;
    LastIsCritical(net, order, t, top);
    assert Recorded(net, t, length, prev, top);
    var i :| FirstLongest(order, length, last, i);
    forall j | 0 <= j < i && order[j] in t.ef
      ensures t.ef[order[j]] < t.end
    {
      if t.on[order[j]] {
        assert Recorded(net, t, length, prev, order[j]);
      } else if t.ef[order[j]] == t.end {
        LastIsCritical(net, order, t, order[j]);
      }
    }
    assert FirstAtEnd(order, t.ef, t.end, last, i);
  }

  method CriticalChain(net: Network, order: seq<string>, t: Timing)
    returns (chain: seq<string>)
    requires Passes(net, order, t)
    ensures chain == [] <==> net == map[]
    ensures chain != [] ==> IsCriticalPath(net, t.es, t.ef, t.on, chain) && Total(net, chain) == t.end
    ensures chain != [] ==> IsChosenPath(net, order, t.es, t.ef, t.end, chain)
  {
    var length, prev := BestChains(net, order, t);
    var last := LongestEnd(order, length);
    if net.Keys == {} {
      assert length == map[];
      return [];
    }
    ghost var n :| n in net && t.ef[n] == t.end;
    LastIsCritical(net, order, t, n);
    assert n in length && Recorded(net, t, length, prev, n);
    chain := Reconstruct(net, order, t, length, prev, last.value);
    CriticalPathTotal(net, t.es, t.ef, t.on, chain);
    assert Recorded(net, t, length, prev, last.value);
    LongestIsFirstAtEnd(net, order, t, length, prev, last.value);
    forall i | 0 <= i < |chain| - 1
      ensures LastToFinish(net, t.es, t.ef, chain[i + 1], chain[i])
    {
      TiesAreLastToFinish(net, order, t, chain[i + 1], chain[i]);
    }
  }

  // ----- analyse_cpm -----

  ghost predicate ValidInput(nodes: seq<Activity>) {
    UniqueIds(nodes) && PositiveDurations(nodes) && NoSelfDependency(nodes) && KnownDependencies(nodes)
  }

  ghost function Dependencies(nodes: seq<Activity>): Edges {
    set i, d | 0 <= i < |nodes| && d in nodes[i].dependsOn :: (d, nodes[i].id)
  }

  lemma ListedDependencies(nodes: seq<Activity>, net: Network)
    requires Lists(nodes, net)
    ensures DependencyEdges(net) == Dependencies(nodes)
  {
    forall e | e in DependencyEdges(net)
      ensures e in Dependencies(nodes)
    {
      assert e.1 in net;
      var i :| 0 <= i < |nodes| && nodes[i].id == e.1;
      assert net[nodes[i].id] == nodes[i];
    }
    forall e | e in Dependencies(nodes)
      ensures e in DependencyEdges(net)
    {
      var i :| 0 <= i < |nodes| && nodes[i].id == e.1 && e.0 in nodes[i].dependsOn;
      assert net[nodes[i].id] == nodes[i];
    }
  }

  /**
   The analysis succeeds exactly on valid acyclic input; its times are those of the
   passes and its critical path is one.
   */
  method AnalyseCpm(nodes: seq<Activity>) returns (result: Result<Analysis, CpmError>, ghost net: Network)
    ensures result.Ok? <==> ValidInput(nodes) && Acyclic(Dependencies(nodes))
    ensures result.Ok? ==> Lists(nodes, net) && IsAnalysis(net, result.value)
    ensures result.Ok? && nodes != [] ==>
      && IsCriticalPath(net, result.value.earlyStart, result.value.earlyFinish, result.value.onCritical,
        result.value.criticalPath)
      && Total(net, result.value.criticalPath) == result.value.duration
      && IsChosenPath(net, LeastOrder(Dependencies(nodes), net.Keys), result.value.earlyStart,
        result.value.earlyFinish, result.value.duration, result.value.criticalPath)
    ensures result.Ok? && nodes == [] ==> result.value.criticalPath == [] && result.value.duration == 0.0
    ensures result.Err? && !(UniqueIds(nodes) && PositiveDurations(nodes)) ==>
      exists i :: FirstFault(nodes, i, result.error)
    ensures result.Err? && UniqueIds(nodes) && PositiveDurations(nodes) && !ValidInput(nodes) ==>
      exists i, j :: FirstBadDependency(nodes, i, j, result.error)
    ensures result == Err(Cycle) <==> ValidInput(nodes) && !Acyclic(Dependencies(nodes))
  {
    net := map[];
    var indexed := IndexById(nodes);
    if indexed.Err? {
      return Err(indexed.error), net;
    }
    var byId := indexed.value;
    net := byId;
    var broken := CheckDependencies(nodes, byId);
    if broken.Some? {
      return Err(broken.value), net;
    }
    ListedIsWellFormed(nodes, byId);
    ListedDependencies(nodes, byId);
    var order := TopoSort(nodes, byId);
    if order.None? {
      return Err(Cycle), net;
    }
    var analysis := AnalyseOrdered(nodes, byId, order.value);
    if nodes != [] {
      assert nodes[0].id in byId;
    }
    return Ok(analysis), net;
  }

  /** _topo_sort: the order, or None for the cycle error. */
  method TopoSort(nodes: seq<Activity>, net: Network) returns (order: Option<seq<string>>)
    requires Lists(nodes, net) && UniqueIds(nodes) && WellFormed(net)
    ensures order.Some? <==> Acyclic(DependencyEdges(net))
    ensures order.Some? ==> Topological(DependencyEdges(net), net.Keys, order.value)
    ensures order.Some? ==> order.value == LeastOrder(DependencyEdges(net), net.Keys)
  {
    var ids, edges := ListEdges(nodes, net);
    assert Closed(EdgeSet(edges), Elements(ids));
    var sorted := HeapOrder(ids, edges);
    LeastOrderExactly(EdgeSet(edges), Elements(ids));
    DistinctCardinality(ids);
    return if |sorted| != |ids| then None else Some(sorted);
  }

  method Slacks(net: Network, es: Times, ls: Times) returns (slack: Times, on: map<string, bool>)
    requires es.Keys == ls.Keys == net.Keys
    ensures slack.Keys == on.Keys == net.Keys
    ensures forall n :: n in net ==> slack[n] == ls[n] - es[n] && on[n] == (slack[n] == 0.0)
    ensures forall n :: n in net ==> on[n] == (ls[n] == es[n])
  {
    slack := map n | n in net :: ls[n] - es[n];
    on := map n | n in net :: slack[n] == 0.0;
  }

  method AnalyseOrdered(nodes: seq<Activity>, byId: Network, order: seq<string>) returns (a: Analysis)
    requires Lists(nodes, byId) && WellFormed(byId) && Topological(DependencyEdges(byId), byId.Keys, order)
    requires Acyclic(DependencyEdges(byId))
    ensures IsAnalysis(byId, a)
    ensures a.criticalPath == [] <==> byId == map[]
    ensures byId == map[] ==> a.duration == 0.0
    ensures byId != map[] ==>
      && IsCriticalPath(byId, a.earlyStart, a.earlyFinish, a.onCritical, a.criticalPath)
      && Total(byId, a.criticalPath) == a.duration
      && IsChosenPath(byId, order, a.earlyStart, a.earlyFinish, a.duration, a.criticalPath)
  {
    var es, ef := ForwardPass(byId, order);
    var end := ProjectEnd(byId, order, ef);
    var dependents := Dependents(nodes, byId);
    var ls, lf := BackwardPass(byId, order, dependents, end);
    var slack, on := Slacks(byId, es, ls);
    var chain := CriticalChain(byId, order, Timing(es, ef, ls, lf, end, on));
    return Analysis(chain, end, es, ef, ls, lf, slack, on);
  }
}
