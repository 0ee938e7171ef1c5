/**
 Stratification of a rule program: an assignment of heights to predicates under
 which a head is at least as high as its body and strictly higher than what the
 body negates. The program relaxes heights in place for a bounded number of rounds.
 */
module Stratification {
  import opened Wrappers
  import opened Names
  import opened Digraph
  import opened Rules

  type Heights = map<string, nat>

  /** stratum.get(p, 0) */
  function Height(heights: Heights, p: string): nat {
    if p in heights then heights[p] else 0
  }

  function Lift(atom: RuleAtom): nat {
    if atom.negated then 1 else 0
  }

  ghost predicate Respects(rule: Rule, heights: Heights) {
    forall i :: 0 <= i < |rule.body| ==>
      Height(heights, rule.body[i].p) + Lift(rule.body[i]) <= Height(heights, rule.head.p)
  }

  ghost predicate IsStratification(rules: set<Rule>, heights: Heights) {
    forall rule :: rule in rules ==> Respects(rule, heights)
  }

  ghost predicate Stratifiable(rules: set<Rule>) {
    exists heights :: IsStratification(rules, heights)
  }

  ghost predicate Below(low: Heights, high: Heights) {
    forall p :: Height(low, p) <= Height(high, p)
  }

  ghost predicate IsLeastStratification(rules: set<Rule>, heights: Heights) {
    IsStratification(rules, heights) && forall other :: IsStratification(rules, other) ==> Below(heights, other)
  }

  // ----- the dependency graph -----

  /** (q, p): some rule for p reads q. */
  ghost function Dependencies(rules: set<Rule>): Edges {
    set rule, i | rule in rules && 0 <= i < |rule.body| :: (rule.body[i].p, rule.head.p)
  }

  /** (q, p): some rule for p negates q. */
  ghost function Negations(rules: set<Rule>): Edges {
    set rule, i | rule in rules && 0 <= i < |rule.body| && rule.body[i].negated :: (rule.body[i].p, rule.head.p)
  }

  /** A dependency cycle that passes through a negated atom. */
  ghost predicate NegationCycle(rules: set<Rule>) {
    exists q, p :: (q, p) in Negations(rules) && ReachesOrIs(Dependencies(rules), p, q)
  }

  ghost function Predicates(rules: set<Rule>): set<string> {
    (set rule | rule in rules :: rule.head.p)
    + set rule, i | rule in rules && 0 <= i < |rule.body| :: rule.body[i].p
  }

  lemma PredicatesOf(rules: set<Rule>, rule: Rule, i: nat)
    requires rule in rules && i < |rule.body|
    ensures rule.head.p in Predicates(rules) && rule.body[i].p in Predicates(rules)
  {
  }

  lemma {:induction false} HeightsRiseAlong(rules: set<Rule>, heights: Heights, walk: seq<string>)
    requires IsStratification(rules, heights) && IsWalk(Dependencies(rules), walk)
    ensures Height(heights, walk[0]) <= Height(heights, walk[|walk| - 1])
    decreases |walk|
  {
    assert (walk[0], walk[1]) in Dependencies(rules);
    if |walk| > 2 { HeightsRiseAlong(rules, heights, walk[1..]); }
  }

  lemma StratifiableHasNoNegationCycle(rules: set<Rule>, heights: Heights)
    requires IsStratification(rules, heights)
    ensures !NegationCycle(rules)
  {
    forall q, p | (q, p) in Negations(rules)
      ensures !ReachesOrIs(Dependencies(rules), p, q)
    {
      assert Height(heights, q) < Height(heights, p);
      if Reaches(Dependencies(rules), p, q) {
        var walk :| WalkBetween(Dependencies(rules), walk, p, q);
        HeightsRiseAlong(rules, heights, walk);
      }
    }
  }

  /** The predicates that p depends on through a negation. */
  ghost function NegatedBelow(rules: set<Rule>, p: string): set<string> {
    set edge | edge in Negations(rules) && ReachesOrIs(Dependencies(rules), edge.1, p) :: edge.0
  }

  lemma NegatedBelowGrows(rules: set<Rule>, rule: Rule, i: nat)
    requires rule in rules && i < |rule.body| && !NegationCycle(rules)
    ensures |NegatedBelow(rules, rule.body[i].p)| + Lift(rule.body[i]) <= |NegatedBelow(rules, rule.head.p)|
  {
    var q, p := rule.body[i].p, rule.head.p;
    var low, high := NegatedBelow(rules, q), NegatedBelow(rules, p);
    assert (q, p) in Dependencies(rules);
    EdgeReaches(Dependencies(rules), q, p);
    forall x | x in low
      ensures x in high
    {
      var edge :| edge in Negations(rules) && ReachesOrIs(Dependencies(rules), edge.1, q) && edge.0 == x;
      if edge.1 != q { ReachesTransitive(Dependencies(rules), edge.1, q, p); }
    }
    if rule.body[i].negated {
      assert (q, p) in Negations(rules);
      assert q in high;
      assert q !in low;
      SubsetCardinality(low + {q}, high);
    } else {
      SubsetCardinality(low, high);
    }
  }

  lemma NegatedBelowRespects(rules: set<Rule>, rule: Rule, heights: Heights)
    requires rule in rules && !NegationCycle(rules)
    requires heights.Keys == Predicates(rules)
    requires forall p :: p in heights ==> heights[p] == |NegatedBelow(rules, p)|
    ensures Respects(rule, heights)
  {
    forall i | 0 <= i < |rule.body|
      ensures Height(heights, rule.body[i].p) + Lift(rule.body[i]) <= Height(heights, rule.head.p)
    {
      NegatedBelowGrows(rules, rule, i);
      PredicatesOf(rules, rule, i);
    }
  }

  ghost function AncestorHeights(rules: set<Rule>): (heights: Heights)
    ensures heights.Keys == Predicates(rules)
    ensures forall p :: p in heights ==> heights[p] == |NegatedBelow(rules, p)|
  {
    map p | p in Predicates(rules) :: |NegatedBelow(rules, p)|
  }

  /** Without a cycle through negation, counting negated ancestors stratifies. */
  lemma NoNegationCycleIsStratifiable(rules: set<Rule>)
    requires !NegationCycle(rules)
    ensures Stratifiable(rules)
  {
    var heights := AncestorHeights(rules);
    forall rule | rule in rules
      ensures Respects(rule, heights)
    {
      NegatedBelowRespects(rules, rule, heights);
    }
    assert IsStratification(rules, heights);
  }

  lemma StratifiableExactly(rules: set<Rule>)
    ensures Stratifiable(rules) <==> !NegationCycle(rules)
  {
    if Stratifiable(rules) {
      var heights :| IsStratification(rules, heights);
      StratifiableHasNoNegationCycle(rules, heights);
    }
    if !NegationCycle(rules) { NoNegationCycleIsStratifiable(rules); }
  }

  // ----- the least stratification -----

  ghost predicate LowestAt(rules: set<Rule>, p: string, heights: Heights) {
    IsStratification(rules, heights)
    && forall other :: IsStratification(rules, other) ==> Height(heights, p) <= Height(other, p)
  }

  lemma {:induction false} LowestAtExists(rules: set<Rule>, p: string, heights: Heights)
    requires IsStratification(rules, heights)
    ensures exists lowest :: LowestAt(rules, p, lowest)
    decreases Height(heights, p)
  {
    if !LowestAt(rules, p, heights) {
      var other :| IsStratification(rules, other) && Height(other, p) < Height(heights, p);
      LowestAtExists(rules, p, other);
    }
  }

  ghost function LowestHeight(rules: set<Rule>, p: string): nat
    requires Stratifiable(rules)
  {
    var heights :| IsStratification(rules, heights);
    LowestAtExists(rules, p, heights);
    var lowest :| LowestAt(rules, p, lowest);
    Height(lowest, p)
  }

  lemma LowestHeightIsLowest(rules: set<Rule>, p: string, heights: Heights)
    requires IsStratification(rules, heights)
    ensures LowestHeight(rules, p) <= Height(heights, p)
    ensures exists lowest :: LowestAt(rules, p, lowest) && Height(lowest, p) == LowestHeight(rules, p)
  {
    LowestAtExists(rules, p, heights);
  }

  /** The pointwise least heights, which are a stratification themselves. */
  ghost function LeastHeights(rules: set<Rule>): (heights: Heights)
    requires Stratifiable(rules)
  {
    map p | p in Predicates(rules) :: LowestHeight(rules, p)
  }

  lemma LeastHeightsAreLeast(rules: set<Rule>)
    requires Stratifiable(rules)
    ensures IsLeastStratification(rules, LeastHeights(rules))
  {
    var least := LeastHeights(rules);
    forall rule | rule in rules
      ensures Respects(rule, least)
    {
      forall i | 0 <= i < |rule.body|
        ensures Height(least, rule.body[i].p) + Lift(rule.body[i]) <= Height(least, rule.head.p)
      {
        var some :| IsStratification(rules, some);
        LowestHeightIsLowest(rules, rule.head.p, some);
        var lowest :| LowestAt(rules, rule.head.p, lowest)
          && Height(lowest, rule.head.p) == LowestHeight(rules, rule.head.p);
        LowestHeightIsLowest(rules, rule.body[i].p, lowest);
        assert rule.body[i].p in Predicates(rules) && rule.head.p in Predicates(rules);
      }
    }
    forall other | IsStratification(rules, other)
      ensures Below(least, other)
    {
      forall p | p in least
        ensures Height(least, p) <= Height(other, p)
      {
        LowestHeightIsLowest(rules, p, other);
      }
    }
  }

  // ----- why len(predicates) + 1 rounds are enough -----

  ghost function Settled(preds: set<string>, heights: Heights, least: Heights): set<string> {
    set p | p in preds && Height(heights, p) == Height(least, p)
  }

  /** p is unsettled and some body atom already forces it to its final height. */
  ghost predicate Forced(rules: set<Rule>, rule: Rule, i: nat, heights: Heights, least: Heights) {
    && rule in rules && i < |rule.body|
    && Height(heights, rule.head.p) < Height(least, rule.head.p)
    && Height(heights, rule.body[i].p) == Height(least, rule.body[i].p)
    && Height(least, rule.body[i].p) + Lift(rule.body[i]) == Height(least, rule.head.p)
  }

  /**
   While something is unsettled, some unsettled head is forced by a settled body atom:
   otherwise the lowest unsettled predicates could all be lowered by one, and the least
   stratification would not be least.
   */
  lemma SomethingIsForced(rules: set<Rule>, heights: Heights, least: Heights, p: string)
    requires IsLeastStratification(rules, least) && Below(heights, least)
    requires Height(heights, p) < Height(least, p)
    ensures exists rule, i :: Forced(rules, rule, i, heights, least)
    decreases Height(least, p)
  {
    if q :| Height(heights, q) < Height(least, q) < Height(least, p) {
      SomethingIsForced(rules, heights, least, q);
    } else {
      var v := Height(least, p);
      var lowered: Heights := map q | q in least ::
        if Height(least, q) == v && Height(heights, q) < v then v - 1 else least[q];
      if forall rule, i :: !Forced(rules, rule, i, heights, least) {
        LoweredIsStratification(rules, heights, least, lowered, v);
        assert Below(least, lowered);
        assert false;
      }
    }
  }

  lemma LoweredIsStratification(rules: set<Rule>, heights: Heights, least: Heights, lowered: Heights, v: nat)
    requires IsStratification(rules, least) && Below(heights, least) && v > 0
    requires forall q :: Height(heights, q) < Height(least, q) ==> v <= Height(least, q)
    requires lowered == map q | q in least ::
      if Height(least, q) == v && Height(heights, q) < v then v - 1 else least[q]
    requires forall rule, i :: !Forced(rules, rule, i, heights, least)
    ensures IsStratification(rules, lowered)
  {
    forall rule | rule in rules
      ensures Respects(rule, lowered)
    {
      forall i | 0 <= i < |rule.body|
        ensures Height(lowered, rule.body[i].p) + Lift(rule.body[i]) <= Height(lowered, rule.head.p)
      {
        assert !Forced(rules, rule, i, heights, least);
        assert Respects(rule, least);
        assert Height(least, rule.body[i].p) + Lift(rule.body[i]) <= Height(least, rule.head.p);
      }
    }
  }

  /** One relaxation of one rule keeps the heights below every stratification. */
  lemma RaiseStaysBelow(rules: set<Rule>, rule: Rule, heights: Heights, i: nat, other: Heights)
    requires rule in rules && i < |rule.body|
    requires IsStratification(rules, other) && Below(heights, other)
    ensures Height(heights, rule.body[i].p) + Lift(rule.body[i]) <= Height(other, rule.head.p)
  {
    assert Respects(rule, other);
  }

  // ----- the program -----

  /** The height a rule's body demands of its head, under the current heights. */
  method Required(rule: Rule, heights: Heights) returns (required: nat)
    ensures forall i :: 0 <= i < |rule.body| ==> Height(heights, rule.body[i].p) + Lift(rule.body[i]) <= required
    ensures
      || required == 0
      || exists i :: 0 <= i < |rule.body| && required == Height(heights, rule.body[i].p) + Lift(rule.body[i])
  {
    required := 0;
    for j := 0 to |rule.body|
      invariant forall i :: 0 <= i < j ==> Height(heights, rule.body[i].p) + Lift(rule.body[i]) <= required
      invariant
        || required == 0
        || exists i :: 0 <= i < j && required == Height(heights, rule.body[i].p) + Lift(rule.body[i])
    {
      var demand := Height(heights, rule.body[j].p) + Lift(rule.body[j]);
      if demand > required {
        required := demand;
      }
    }
  }

  ghost predicate BelowAll(rules: set<Rule>, heights: Heights) {
    forall other :: IsStratification(rules, other) ==> Below(heights, other)
  }

  lemma RaiseStaysBelowAll(rules: set<Rule>, rule: Rule, heights: Heights, i: nat, required: nat)
    requires rule in rules && i < |rule.body| && BelowAll(rules, heights)
    requires required == Height(heights, rule.body[i].p) + Lift(rule.body[i])
    ensures BelowAll(rules, heights[rule.head.p := required])
  {
    forall other | IsStratification(rules, other)
      ensures Below(heights[rule.head.p := required], other)
    {
      RaiseStaysBelow(rules, rule, heights, i, other);
    }
  }

  ghost predicate Meets(rule: Rule, heights: Heights, heights': Heights) {
    forall i :: 0 <= i < |rule.body| ==>
      Height(heights, rule.body[i].p) + Lift(rule.body[i]) <= Height(heights', rule.head.p)
  }

  lemma MeetsMonotone(rule: Rule, low: Heights, heights: Heights, heights': Heights, high: Heights)
    requires Below(low, heights) && Meets(rule, heights, heights') && Below(heights', high)
    ensures Meets(rule, low, high)
  {
    forall i | 0 <= i < |rule.body|
      ensures Height(low, rule.body[i].p) + Lift(rule.body[i]) <= Height(high, rule.head.p)
    {
      assert Height(low, rule.body[i].p) <= Height(heights, rule.body[i].p);
    }
  }

  /** One rule's turn in a round: raise its head to what the body requires. */
  method Relax(rules: seq<Rule>, rule: Rule, heights: Heights) returns (heights': Heights, changed: bool)
    requires rule in rules && rule.head.p in heights
    requires BelowAll(Elements(rules), heights)
    ensures heights'.Keys == heights.Keys && Below(heights, heights')
    ensures BelowAll(Elements(rules), heights')
    ensures Meets(rule, heights, heights')
    ensures !changed ==> heights' == heights
    ensures changed ==> Height(heights, rule.head.p) < Height(heights', rule.head.p)
  {
    var required := Required(rule, heights);
    if Height(heights, rule.head.p) >= required {
      return heights, false;
    }
    ghost var i :| 0 <= i < |rule.body| && required == Height(heights, rule.body[i].p) + Lift(rule.body[i]);
    RaiseStaysBelowAll(Elements(rules), rule, heights, i, required);
    return heights[rule.head.p := required], true;
  }

  /**
   One in-place round. Heights only rise, stay below every stratification, and if
   nothing changed they are one; every body is met by its head after the round.
   */
  method Round(rules: seq<Rule>, preds: set<string>, heights: Heights) returns (heights': Heights, changed: bool)
    requires Predicates(Elements(rules)) <= preds && heights.Keys == preds
    requires BelowAll(Elements(rules), heights)
    ensures heights'.Keys == preds && Below(heights, heights')
    ensures BelowAll(Elements(rules), heights')
    ensures !changed ==> heights' == heights
    ensures changed ==> exists p :: Height(heights, p) < Height(heights', p)
    ensures forall rule :: rule in rules ==> Meets(rule, heights, heights')
  {
    heights' := heights;
    changed := false;
    for k := 0 to |rules|
      invariant heights'.Keys == preds && Below(heights, heights')
      invariant BelowAll(Elements(rules), heights')
      invariant !changed ==> heights' == heights
      invariant changed ==> exists p :: Height(heights, p) < Height(heights', p)
      invariant forall j :: 0 <= j < k ==> Meets(rules[j], heights, heights')
    {
      ghost var before := heights';
      assert rules[k].head.p in Predicates(Elements(rules));
      var raised;
      heights', raised := Relax(rules, rules[k], heights');
      changed := changed || raised;
      forall j | 0 <= j <= k
        ensures Meets(rules[j], heights, heights')
      {
        if j < k {
          MeetsMonotone(rules[j], heights, heights, before, heights');
        } else {
          MeetsMonotone(rules[j], heights, before, heights', heights');
        }
      }
      if raised {
        assert Height(heights, rules[k].head.p) < Height(heights', rules[k].head.p);
      }
    }
  }

  lemma RoundSettlesMore(rules: set<Rule>, preds: set<string>, heights: Heights, heights': Heights, least: Heights)
    requires IsLeastStratification(rules, least) && Predicates(rules) <= preds
    requires Below(heights, heights') && Below(heights', least)
    requires forall rule :: rule in rules ==> Meets(rule, heights, heights')
    requires exists p :: Height(heights, p) < Height(least, p)
    ensures |Settled(preds, heights, least)| < |Settled(preds, heights', least)|
  {
    var p :| Height(heights, p) < Height(least, p);
    SomethingIsForced(rules, heights, least, p);
    var rule, i :| Forced(rules, rule, i, heights, least);
    var before, after := Settled(preds, heights, least), Settled(preds, heights', least);
    forall q | q in before
      ensures q in after
    {
      assert Height(heights, q) <= Height(heights', q) <= Height(least, q);
    }
    PredicatesOf(rules, rule, i);
    assert Meets(rule, heights, heights');
    assert Height(heights', rule.head.p) <= Height(least, rule.head.p);
    assert rule.head.p in after && rule.head.p !in before;
    SubsetCardinality(before + {rule.head.p}, after);
  }

  lemma UnchangedIsStratification(rules: set<Rule>, heights: Heights)
    requires BelowAll(rules, heights)
    requires forall rule :: rule in rules ==> Meets(rule, heights, heights)
    ensures IsLeastStratification(rules, heights) && !NegationCycle(rules)
  {
    assert IsStratification(rules, heights) by {
      forall rule | rule in rules
        ensures Respects(rule, heights)
      {
        assert Meets(rule, heights, heights);
      }
    }
    StratifiableHasNoNegationCycle(rules, heights);
  }

  /**
   Stratify returns exactly when no dependency cycle passes through a negated atom,
   and what it returns is the pointwise least stratification.
   */
  method Stratify(rules: seq<Rule>, preds: set<string>) returns (result: Option<Heights>)
    requires Predicates(Elements(rules)) <= preds
    ensures result.Some? <==> !NegationCycle(Elements(rules))
    ensures result.Some? ==> result.value.Keys == preds && IsLeastStratification(Elements(rules), result.value)
  {
    var all := Elements(rules);
    var heights: Heights := map p | p in preds :: 0;
    ghost var least: Heights := map[];
    StratifiableExactly(all);
    if Stratifiable(all) {
      LeastHeightsAreLeast(all);
      least := LeastHeights(all);
    }
    for round := 0 to |preds| + 1
      invariant heights.Keys == preds && BelowAll(all, heights)
      invariant Stratifiable(all) ==>
        IsLeastStratification(all, least) && round <= |Settled(preds, heights, least)|
    {
      ghost var before := heights;
      var changed;
      heights, changed := Round(rules, preds, heights);
      if !changed {
        UnchangedIsStratification(all, heights);
        return Some(heights);
      }
      if Stratifiable(all) {
        ghost var p :| Height(before, p) < Height(heights, p);
        assert Below(heights, least);
        assert Height(before, p) < Height(least, p);
        RoundSettlesMore(all, preds, before, heights, least);
      }
    }
    if Stratifiable(all) {
      SubsetCardinality(Settled(preds, heights, least), preds);
      assert false;
    }
    return None;
  }
}
