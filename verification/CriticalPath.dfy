/**
 The critical path method: forward and backward passes over a topological order,
 slack, and one critical chain. Durations are reals, so the source's ints and floats
 are both covered as long as float rounding plays no part.
 */
module CriticalPath {
  import opened Digraph

  datatype Activity = Activity(id: string, duration: real, dependsOn: seq<string>)

  datatype CpmError = DuplicateId | NonPositiveDuration | SelfDependency | UnknownDependency | Cycle

  type Network = map<string, Activity>

  type Times = map<string, real>

  datatype Analysis = Analysis(
    criticalPath: seq<string>, duration: real,
    earlyStart: Times, earlyFinish: Times, lateStart: Times, lateFinish: Times,
    slack: Times, onCritical: map<string, bool>)

  // ----- dependency chains -----

  ghost predicate WellFormed(net: Network) {
    forall n :: n in net ==>
      && net[n].id == n && net[n].duration > 0.0
      && forall d :: d in net[n].dependsOn ==> d in net && d != n
  }

  ghost function DependencyEdges(net: Network): Edges {
    set n, d | n in net && d in net[n].dependsOn :: (d, n)
  }

  ghost predicate IsChain(net: Network, chain: seq<string>) {
    && chain != []
    && (forall i :: 0 <= i < |chain| ==> chain[i] in net)
    && forall i :: 0 <= i < |chain| - 1 ==> chain[i] in net[chain[i + 1]].dependsOn
  }

  ghost function Last(chain: seq<string>): string
    requires chain != []
  {
    chain[|chain| - 1]
  }

  ghost function Total(net: Network, chain: seq<string>): real
    requires forall i :: 0 <= i < |chain| ==> chain[i] in net
  {
    if chain == [] then 0.0
    else Total(net, chain[..|chain| - 1]) + net[Last(chain)].duration
  }

  lemma {:induction false} TotalSplits(net: Network, a: seq<string>, b: seq<string>)
    requires forall i :: 0 <= i < |a| ==> a[i] in net
    requires forall i :: 0 <= i < |b| ==> b[i] in net
    ensures forall i :: 0 <= i < |a + b| ==> (a + b)[i] in net
    ensures Total(net, a + b) == Total(net, a) + Total(net, b)
  {
    if b == [] {
      assert a + b == a;
    } else {
      var front := b[..|b| - 1];
      TotalSplits(net, a, front);
      assert (a + b)[..|a + b| - 1] == a + front;
    }
  }

  lemma ChainPrefix(net: Network, chain: seq<string>, i: nat)
    requires IsChain(net, chain) && i < |chain|
    ensures IsChain(net, chain[..i + 1]) && IsChain(net, chain[i..])
    ensures Total(net, chain) == Total(net, chain[..i + 1]) + Total(net, chain[i..]) - net[chain[i]].duration
  {
    TotalThrough(net, chain, i);
  }

  lemma TotalThrough(net: Network, chain: seq<string>, i: nat)
    requires i < |chain| && forall k :: 0 <= k < |chain| ==> chain[k] in net
    ensures Total(net, chain) == Total(net, chain[..i + 1]) + Total(net, chain[i..]) - net[chain[i]].duration
  {
    assert chain == chain[..i] + chain[i..];
    TotalSplits(net, chain[..i], chain[i..]);
    assert chain[..i + 1][..i] == chain[..i];
  }

  lemma ChainJoin(net: Network, a: seq<string>, b: seq<string>)
    requires IsChain(net, a) && IsChain(net, b) && Last(a) == b[0]
    ensures IsChain(net, a + b[1..]) && (a + b[1..])[0] == a[0] && Last(a + b[1..]) == Last(b)
    ensures b[0] in a + b[1..]
    ensures Total(net, a + b[1..]) == Total(net, a) + Total(net, b) - net[b[0]].duration
  {
    var c := a + b[1..];
    assert [b[0]] + b[1..] == b;
    TotalSplits(net, [b[0]], b[1..]);
    TotalSplits(net, a, b[1..]);
    assert Total(net, [b[0]]) == Total(net, [b[0]][..0]) + net[b[0]].duration;
    forall i | 0 <= i < |c| - 1
      ensures c[i] in net[c[i + 1]].dependsOn
    {
      if i >= |a| - 1 { assert c[i] == b[i - (|a| - 1)] && c[i + 1] == b[i - (|a| - 1) + 1]; }
    }
    assert c[|a| - 1] == b[0];
  }

  lemma SingleChain(net: Network, n: string)
    requires n in net
    ensures IsChain(net, [n]) && Total(net, [n]) == net[n].duration
  {
    assert [n][..0] == [];
  }

  lemma ChainExtends(net: Network, before: seq<string>, n: string)
    requires IsChain(net, before) && n in net && Last(before) in net[n].dependsOn
    ensures IsChain(net, before + [n]) && Last(before + [n]) == n
    ensures Total(net, before + [n]) == Total(net, before) + net[n].duration
  {
    assert (before + [n])[..|before|] == before;
  }

  // ----- what the passes establish node by node -----

  ghost predicate EarlyAt(net: Network, es: Times, ef: Times, n: string) {
    && n in net && n in es && n in ef && es[n] >= 0.0
    && ef[n] == es[n] + net[n].duration
    && (forall d :: d in net[n].dependsOn ==> d in ef && ef[d] <= es[n])
    && (es[n] == 0.0 || exists d :: d in net[n].dependsOn && ef[d] == es[n])
  }

  ghost predicate Early(net: Network, es: Times, ef: Times) {
    && es.Keys == net.Keys == ef.Keys
    && forall n {:trigger EarlyAt(net, es, ef, n)} :: n in net ==> EarlyAt(net, es, ef, n)
  }

  ghost predicate LateAt(net: Network, ls: Times, lf: Times, end: real, n: string) {
    && n in net && n in ls && n in lf && ls[n] == lf[n] - net[n].duration
    && (forall m :: m in net && n in net[m].dependsOn ==> m in ls && lf[n] <= ls[m])
    && ((lf[n] == end && forall m :: m in net ==> n !in net[m].dependsOn)
        || exists m :: m in net && n in net[m].dependsOn && m in ls && lf[n] == ls[m])
  }

  ghost predicate Late(net: Network, ls: Times, lf: Times, end: real) {
    && ls.Keys == net.Keys == lf.Keys
    && forall n {:trigger LateAt(net, ls, lf, end, n)} :: n in net ==> LateAt(net, ls, lf, end, n)
  }

  ghost predicate IsEnd(net: Network, ef: Times, end: real)
    requires ef.Keys == net.Keys
  {
    (forall n :: n in net ==> ef[n] <= end)
    && if net.Keys == {} then end == 0.0 else exists n :: n in net && ef[n] == end
  }

  // ----- early times are heaviest chains -----

  lemma {:induction false} ChainFitsEarly(net: Network, es: Times, ef: Times, chain: seq<string>)
    requires WellFormed(net) && Early(net, es, ef) && IsChain(net, chain)
    ensures Total(net, chain) <= ef[Last(chain)]
    decreases |chain|
  {
    var k := |chain| - 1;
    assert EarlyAt(net, es, ef, chain[k]);
    if k > 0 {
      ChainPrefix(net, chain, k - 1);
      ChainFitsEarly(net, es, ef, chain[..k]);
      assert chain[k - 1] in net[chain[k]].dependsOn;
    } else {
      assert chain[..0] == [];
    }
  }

  lemma {:induction false} ChainReachesEarly(net: Network, es: Times, ef: Times, n: string) returns (chain: seq<string>)
    requires WellFormed(net) && Early(net, es, ef) && Acyclic(DependencyEdges(net)) && n in net
    ensures IsChain(net, chain) && Last(chain) == n && Total(net, chain) == ef[n]
    decreases |Ancestors(DependencyEdges(net), net.Keys, n)|
  {
    assert EarlyAt(net, es, ef, n);
    if es[n] == 0.0 {
      chain := [n];
      SingleChain(net, n);
    } else {
      var d :| d in net[n].dependsOn && ef[d] == es[n];
      assert (d, n) in DependencyEdges(net);
      AncestorsShrink(DependencyEdges(net), net.Keys, d, n);
      var before := ChainReachesEarly(net, es, ef, d);
      chain := before + [n];
      ChainExtends(net, before, n);
    }
  }

  /** Each early finish is the heaviest chain that ends at the activity. */
  lemma EarlyFinishIsHeaviestChain(net: Network, es: Times, ef: Times, n: string)
    requires WellFormed(net) && Early(net, es, ef) && Acyclic(DependencyEdges(net)) && n in net
    ensures forall chain :: IsChain(net, chain) && Last(chain) == n ==> Total(net, chain) <= ef[n]
    ensures exists chain :: IsChain(net, chain) && Last(chain) == n && Total(net, chain) == ef[n]
  {
    forall chain | IsChain(net, chain) && Last(chain) == n
      ensures Total(net, chain) <= ef[n]
    {
      ChainFitsEarly(net, es, ef, chain);
    }
    var chain := ChainReachesEarly(net, es, ef, n);
  }

  /** The project duration is the heaviest chain of all. */
  lemma DurationIsHeaviestChain(net: Network, es: Times, ef: Times, end: real)
    requires WellFormed(net) && Early(net, es, ef) && Acyclic(DependencyEdges(net)) && IsEnd(net, ef, end)
    ensures forall chain :: IsChain(net, chain) ==> Total(net, chain) <= end
    ensures net.Keys != {} ==> exists chain :: IsChain(net, chain) && Total(net, chain) == end
  {
    forall chain | IsChain(net, chain)
      ensures Total(net, chain) <= end
    {
      ChainFitsEarly(net, es, ef, chain);
    }
    if net.Keys != {} {
      var n :| n in net && ef[n] == end;
      var chain := ChainReachesEarly(net, es, ef, n);
    }
  }

  // ----- late times are heaviest remaining chains -----

  /** The reversed dependencies; a step forwards in time loses one of these ancestors. */
  ghost function DependentEdges(net: Network): Edges {
    set n, d | n in net && d in net[n].dependsOn :: (n, d)
  }

  lemma ReversedWalk(net: Network, u: string, v: string)
    requires Reaches(DependentEdges(net), u, v)
    ensures Reaches(DependencyEdges(net), v, u)
  {
    var walk :| WalkBetween(DependentEdges(net), walk, u, v);
    var back := seq(|walk|, i requires 0 <= i < |walk| => walk[|walk| - 1 - i]);
    forall i | 0 <= i < |back| - 1
      ensures (back[i], back[i + 1]) in DependencyEdges(net)
    {
      assert (walk[|walk| - 2 - i], walk[|walk| - 2 - i + 1]) in DependentEdges(net);
    }
    assert WalkBetween(DependencyEdges(net), back, v, u);
  }

  lemma DependentsAcyclic(net: Network)
    requires Acyclic(DependencyEdges(net))
    ensures Acyclic(DependentEdges(net))
  {
    forall v
      ensures !Reaches(DependentEdges(net), v, v)
    {
      if Reaches(DependentEdges(net), v, v) { ReversedWalk(net, v, v); }
    }
  }

  lemma {:induction false} LateFinishAtMostEnd(net: Network, ls: Times, lf: Times, end: real, n: string)
    requires WellFormed(net) && Late(net, ls, lf, end) && Acyclic(DependentEdges(net)) && n in net
    ensures lf[n] <= end
    decreases |Ancestors(DependentEdges(net), net.Keys, n)|
  {
    assert LateAt(net, ls, lf, end, n);
    if m :| m in net && n in net[m].dependsOn && lf[n] == ls[m] {
      assert (m, n) in DependentEdges(net);
      AncestorsShrink(DependentEdges(net), net.Keys, m, n);
      LateFinishAtMostEnd(net, ls, lf, end, m);
      assert LateAt(net, ls, lf, end, m);
    }
  }

  lemma {:induction false} ChainFitsLate(net: Network, ls: Times, lf: Times, end: real, chain: seq<string>)
    requires WellFormed(net) && Late(net, ls, lf, end) && Acyclic(DependentEdges(net)) && IsChain(net, chain)
    ensures ls[chain[0]] + Total(net, chain) <= end
    decreases |chain|
  {
    assert LateAt(net, ls, lf, end, chain[0]);
    assert Total(net, [chain[0]]) == Total(net, [chain[0]][..0]) + net[chain[0]].duration;
    if |chain| > 1 {
      ChainPrefix(net, chain, 1);
      ChainFitsLate(net, ls, lf, end, chain[1..]);
      assert chain[0] in net[chain[1]].dependsOn;
      assert [chain[0]] + chain[1..] == chain;
      TotalSplits(net, [chain[0]], chain[1..]);
    } else {
      assert chain == [chain[0]];
      LateFinishAtMostEnd(net, ls, lf, end, chain[0]);
    }
  }

  lemma {:induction false} ChainReachesLate(net: Network, ls: Times, lf: Times, end: real, n: string)
    returns (chain: seq<string>)
    requires WellFormed(net) && Late(net, ls, lf, end) && Acyclic(DependentEdges(net)) && n in net
    ensures IsChain(net, chain) && chain[0] == n && ls[n] + Total(net, chain) == end
    decreases |Ancestors(DependentEdges(net), net.Keys, n)|
  {
    assert LateAt(net, ls, lf, end, n);
    assert Total(net, [n]) == Total(net, [n][..0]) + net[n].duration;
    if m :| m in net && n in net[m].dependsOn && lf[n] == ls[m] {
      assert (m, n) in DependentEdges(net);
      AncestorsShrink(DependentEdges(net), net.Keys, m, n);
      var after := ChainReachesLate(net, ls, lf, end, m);
      chain := [n] + after;
      TotalSplits(net, [n], after);
    } else {
      chain := [n];
    }
  }

  // ----- schedules -----

  ghost predicate FeasibleAt(net: Network, start: Times, deadline: real, n: string) {
    && n in net && n in start
    && 0.0 <= start[n] && start[n] + net[n].duration <= deadline
    && forall d :: d in net[n].dependsOn ==> d in net && d in start && start[d] + net[d].duration <= start[n]
  }

  /** A schedule gives every activity a start that respects its dependencies and the deadline. */
  ghost predicate Feasible(net: Network, start: Times, deadline: real) {
    && start.Keys == net.Keys
    && forall n {:trigger FeasibleAt(net, start, deadline, n)} :: n in net ==> FeasibleAt(net, start, deadline, n)
  }

  lemma {:induction false} ChainFitsSchedule(net: Network, start: Times, deadline: real, chain: seq<string>)
    requires Feasible(net, start, deadline) && IsChain(net, chain)
    ensures start[chain[0]] + Total(net, chain) <= start[Last(chain)] + net[Last(chain)].duration <= deadline
    decreases |chain|
  {
    var k := |chain| - 1;
    assert FeasibleAt(net, start, deadline, chain[k]);
    if k > 0 {
      ChainPrefix(net, chain, k - 1);
      ChainFitsSchedule(net, start, deadline, chain[..k]);
      assert chain[k - 1] in net[chain[k]].dependsOn;
    } else {
      assert chain[..0] == [];
    }
  }

  ghost predicate IsAnalysis(net: Network, a: Analysis) {
    && WellFormed(net) && Acyclic(DependencyEdges(net))
    && Early(net, a.earlyStart, a.earlyFinish)
    && IsEnd(net, a.earlyFinish, a.duration)
    && Late(net, a.lateStart, a.lateFinish, a.duration)
    && a.slack.Keys == net.Keys == a.onCritical.Keys
    && forall n :: n in net ==>
      a.slack[n] == a.lateStart[n] - a.earlyStart[n] && a.onCritical[n] == (a.slack[n] == 0.0)
  }

  lemma AnalysisAt(net: Network, a: Analysis, n: string)
    requires IsAnalysis(net, a) && n in net
    ensures EarlyAt(net, a.earlyStart, a.earlyFinish, n)
    ensures LateAt(net, a.lateStart, a.lateFinish, a.duration, n)
    ensures a.slack[n] == a.lateStart[n] - a.earlyStart[n] && a.onCritical[n] == (a.slack[n] == 0.0)
  {
  }

  lemma ChainThroughFits(net: Network, a: Analysis, n: string, chain: seq<string>)
    requires IsAnalysis(net, a) && IsChain(net, chain) && n in chain
    ensures n in net && Total(net, chain) <= a.duration - a.slack[n]
  {
    DependentsAcyclic(net);
    var i :| 0 <= i < |chain| && chain[i] == n;
    AnalysisAt(net, a, n);
    ChainPrefix(net, chain, i);
    ChainFitsEarly(net, a.earlyStart, a.earlyFinish, chain[..i + 1]);
    ChainFitsLate(net, a.lateStart, a.lateFinish, a.duration, chain[i..]);
  }

  lemma ChainThroughReaches(net: Network, a: Analysis, n: string) returns (chain: seq<string>)
    requires IsAnalysis(net, a) && n in net
    ensures IsChain(net, chain) && n in chain && Total(net, chain) == a.duration - a.slack[n]
  {
    DependentsAcyclic(net);
    AnalysisAt(net, a, n);
    var before := ChainReachesEarly(net, a.earlyStart, a.earlyFinish, n);
    var after := ChainReachesLate(net, a.lateStart, a.lateFinish, a.duration, n);
    ChainJoin(net, before, after);
    chain := before + after[1..];
  }

  /** Slack is what the heaviest chain through the activity leaves of the duration. */
  lemma SlackIsSpareTime(net: Network, a: Analysis, n: string)
    requires IsAnalysis(net, a) && n in net
    ensures forall chain :: IsChain(net, chain) && n in chain ==> Total(net, chain) <= a.duration - a.slack[n]
    ensures exists chain :: IsChain(net, chain) && n in chain && Total(net, chain) == a.duration - a.slack[n]
    ensures a.slack[n] >= 0.0
  {
    forall chain | IsChain(net, chain) && n in chain
      ensures Total(net, chain) <= a.duration - a.slack[n]
    {
      ChainThroughFits(net, a, n, chain);
    }
    var chain := ChainThroughReaches(net, a, n);
    ChainFitsEarly(net, a.earlyStart, a.earlyFinish, chain);
  }

  lemma EarlyBounds(net: Network, a: Analysis, n: string)
    requires IsAnalysis(net, a) && n in net
    ensures n in a.earlyStart && 0.0 <= a.earlyStart[n] && a.earlyStart[n] + net[n].duration <= a.duration
  {
    AnalysisAt(net, a, n);
  }

  lemma EarlyEdge(net: Network, a: Analysis, d: string, n: string)
    requires IsAnalysis(net, a) && n in net && d in net[n].dependsOn
    ensures d in net && d in a.earlyStart && a.earlyStart[d] + net[d].duration <= a.earlyStart[n]
  {
    AnalysisAt(net, a, n);
    AnalysisAt(net, a, d);
  }

  lemma EarlyIsFeasibleAt(net: Network, a: Analysis, n: string)
    requires IsAnalysis(net, a) && n in net
    ensures FeasibleAt(net, a.earlyStart, a.duration, n)
  {
    EarlyBounds(net, a, n);
    forall d | d in net[n].dependsOn
      ensures d in net && d in a.earlyStart && a.earlyStart[d] + net[d].duration <= a.earlyStart[n]
    {
      EarlyEdge(net, a, d, n);
    }
  }

  lemma LateIsFeasibleAt(net: Network, a: Analysis, n: string)
    requires IsAnalysis(net, a) && n in net
    ensures FeasibleAt(net, a.lateStart, a.duration, n)
  {
    DependentsAcyclic(net);
    AnalysisAt(net, a, n);
    SlackIsSpareTime(net, a, n);
    LateFinishAtMostEnd(net, a.lateStart, a.lateFinish, a.duration, n);
    forall d | d in net[n].dependsOn
      ensures d in net && d in a.lateStart && a.lateStart[d] + net[d].duration <= a.lateStart[n]
    {
      AnalysisAt(net, a, d);
    }
  }

  lemma ScheduleStartsLater(net: Network, a: Analysis, start: Times, n: string)
    requires IsAnalysis(net, a) && Feasible(net, start, a.duration) && n in net
    ensures a.earlyStart[n] <= start[n]
  {
    AnalysisAt(net, a, n);
    var before := ChainReachesEarly(net, a.earlyStart, a.earlyFinish, n);
    assert FeasibleAt(net, start, a.duration, before[0]);
    ChainFitsSchedule(net, start, a.duration, before);
  }

  lemma ScheduleStartsEarlier(net: Network, a: Analysis, start: Times, n: string)
    requires IsAnalysis(net, a) && Feasible(net, start, a.duration) && n in net
    ensures start[n] <= a.lateStart[n]
  {
    DependentsAcyclic(net);
    var after := ChainReachesLate(net, a.lateStart, a.lateFinish, a.duration, n);
    ChainFitsSchedule(net, start, a.duration, after);
  }

  lemma NoShorterSchedule(net: Network, a: Analysis, start: Times, deadline: real)
    requires IsAnalysis(net, a) && Feasible(net, start, deadline) && net.Keys != {}
    ensures a.duration <= deadline
  {
    DurationIsHeaviestChain(net, a.earlyStart, a.earlyFinish, a.duration);
    var chain :| IsChain(net, chain) && Total(net, chain) == a.duration;
    assert FeasibleAt(net, start, deadline, chain[0]);
    ChainFitsSchedule(net, start, deadline, chain);
  }

  /**
   The early and the late starts are both schedules that meet the duration, every
   schedule that meets it lies between them, and no shorter deadline can be met.
   */
  lemma StartsBoundEverySchedule(net: Network, a: Analysis, start: Times, deadline: real)
    requires IsAnalysis(net, a)
    ensures Feasible(net, a.earlyStart, a.duration) && Feasible(net, a.lateStart, a.duration)
    ensures Feasible(net, start, a.duration) ==>
      forall n :: n in net ==> a.earlyStart[n] <= start[n] <= a.lateStart[n]
    ensures Feasible(net, start, deadline) && net.Keys != {} ==> a.duration <= deadline
  {
    forall n | n in net
      ensures FeasibleAt(net, a.earlyStart, a.duration, n) && FeasibleAt(net, a.lateStart, a.duration, n)
    {
      EarlyIsFeasibleAt(net, a, n);
      LateIsFeasibleAt(net, a, n);
    }
    if Feasible(net, start, a.duration) {
      forall n | n in net
        ensures a.earlyStart[n] <= start[n] <= a.lateStart[n]
      {
        ScheduleStartsLater(net, a, start, n);
        ScheduleStartsEarlier(net, a, start, n);
      }
    }
    if Feasible(net, start, deadline) && net.Keys != {} { NoShorterSchedule(net, a, start, deadline); }
  }
}
