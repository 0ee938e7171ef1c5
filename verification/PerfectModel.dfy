/**
 The closure is the perfect model of the program: stratum by stratum the least set
 above the lower strata, with negation read in the final result. From this follow
 the finite derivations, uniqueness, idempotence, monotonicity and the merge law.
 */
module PerfectModel {
  import opened Wrappers
  import opened Names
  import opened Rules
  import opened Stratification
  import opened Closure

  ghost predicate ClosedUnder(rules: set<Rule>, facts: set<Assertion>) {
    forall rule, b :: rule in rules && IsSolution(rule, facts, b) && Derive(rule.head, b).Some?
      ==> Derive(rule.head, b).value in facts
  }

  ghost predicate AllHeadsResolve(rules: set<Rule>, facts: set<Assertion>) {
    forall rule, b :: rule in rules && IsSolution(rule, facts, b) ==> Derive(rule.head, b).Some?
  }

  /** other competes with model at a level: same facts below, and closed under the level's rules. */
  ghost predicate Competes(
      rules: set<Rule>, heights: Heights, base: set<Assertion>, level: nat, model: set<Assertion>,
      other: set<Assertion>)
  {
    && base <= other
    && (forall a: Assertion :: Height(heights, a.p) < level ==> (a in model <==> a in other))
    && ClosedUnder(LevelRules(rules, heights, level), other)
  }

  ghost predicate LeastAtLevel(
      rules: set<Rule>, heights: Heights, base: set<Assertion>, level: nat, model: set<Assertion>)
  {
    forall other :: Competes(rules, heights, base, level, model, other)
      ==> forall a :: a in model && Height(heights, a.p) == level ==> a in other
  }

  ghost predicate IsPerfectModel(rules: set<Rule>, heights: Heights, base: set<Assertion>, model: set<Assertion>) {
    && base <= model
    && AllHeadsResolve(rules, model)
    && ClosedUnder(rules, model)
    && forall level :: LeastAtLevel(rules, heights, base, level, model)
  }

  // ----- rounds in declarative terms -----

  lemma ConsequencesAreExact(rules: set<Rule>, facts: set<Assertion>)
    ensures Consequences(rules, facts) <= facts <==> ClosedUnder(rules, facts)
    ensures MalformedRound(rules, facts) <==> !AllHeadsResolve(rules, facts)
  {
    forall rule, b | rule in rules
      ensures b in Solutions(rule, facts) <==> IsSolution(rule, facts, b)
    {
      SolutionsAreExact(rule, facts, b);
    }
    if ClosedUnder(rules, facts) {
      forall a | a in Consequences(rules, facts)
        ensures a in facts
      {
        var rule, b :| rule in rules && b in Solutions(rule, facts) && Derive(rule.head, b) == Some(a);
        assert IsSolution(rule, facts, b);
      }
    }
    if Consequences(rules, facts) <= facts {
      forall rule, b | rule in rules && IsSolution(rule, facts, b) && Derive(rule.head, b).Some?
        ensures Derive(rule.head, b).value in facts
      {
        assert b in Solutions(rule, facts);
        assert Derive(rule.head, b).value in Consequences(rules, facts);
      }
    }
  }

  /** What one stratum's rules may read: facts no higher, negated facts strictly lower. */
  lemma LevelReads(rules: set<Rule>, heights: Heights, level: nat, rule: Rule, atom: RuleAtom)
    requires IsStratification(rules, heights) && rule in LevelRules(rules, heights, level) && atom in rule.body
    ensures Height(heights, atom.p) <= level
    ensures atom.negated ==> Height(heights, atom.p) < level
  {
    assert Respects(rule, heights);
    var i :| 0 <= i < |rule.body| && rule.body[i] == atom;
    assert Height(heights, rule.body[i].p) + Lift(rule.body[i]) <= Height(heights, rule.head.p);
  }

  ghost predicate AgreeBelow(heights: Heights, level: nat, facts: set<Assertion>, other: set<Assertion>) {
    forall a: Assertion :: Height(heights, a.p) < level ==> (a in facts <==> a in other)
  }

  /** A level's solutions carry over to a larger set that agrees on the lower strata. */
  lemma SolutionGrows(
      rules: set<Rule>, heights: Heights, level: nat, rule: Rule, facts: set<Assertion>, other: set<Assertion>,
      b: Bindings)
    requires IsStratification(rules, heights) && rule in LevelRules(rules, heights, level)
    requires IsSolution(rule, facts, b) && AgreeBelow(heights, level, facts, other)
    requires forall a :: a in facts && Height(heights, a.p) <= level ==> a in other
    ensures IsSolution(rule, other, b)
  {
    forall a, atom | a in facts && atom in rule.body && !atom.negated && a.p == atom.p
      ensures a in other
    {
      LevelReads(rules, heights, level, rule, atom);
    }
    forall a, atom | a in other && atom in rule.body && atom.negated && a.p == atom.p
      ensures a in facts
    {
      LevelReads(rules, heights, level, rule, atom);
    }
    SolutionTransfers(rule, facts, other, b);
  }

  lemma DerivedHeight(rules: set<Rule>, heights: Heights, level: nat, facts: set<Assertion>, a: Assertion)
    requires a in Consequences(LevelRules(rules, heights, level), facts)
    ensures Height(heights, a.p) == level
  {
  }

  // ----- one stratum -----

  /** Everything a saturated stratum adds sits at that stratum. */
  lemma {:induction false} SaturateAddsAtLevel(rules: set<Rule>, heights: Heights, level: nat, facts: set<Assertion>)
    requires |facts| <= MAX_CLOSURE_ASSERTIONS
    requires Saturate(LevelRules(rules, heights, level), facts).Ok?
    ensures var result := Saturate(LevelRules(rules, heights, level), facts).value;
      facts <= result && forall a :: a in result && a !in facts ==> Height(heights, a.p) == level
    decreases MAX_CLOSURE_ASSERTIONS - |facts|
  {
    var levelRules := LevelRules(rules, heights, level);
    var next := facts + Consequences(levelRules, facts);
    forall a | a in Consequences(levelRules, facts)
      ensures Height(heights, a.p) == level
    {
      DerivedHeight(rules, heights, level, facts, a);
    }
    if next != facts {
      SubsetCardinality(facts, next);
      SaturateAddsAtLevel(rules, heights, level, next);
    }
  }

  /** While a stratum runs, no fact appears for a predicate that its rules negate. */
  lemma NegationIsStable(
      rules: set<Rule>, heights: Heights, level: nat, facts: set<Assertion>, rule: Rule, atom: RuleAtom, a: Assertion)
    requires IsStratification(rules, heights) && |facts| <= MAX_CLOSURE_ASSERTIONS
    requires Saturate(LevelRules(rules, heights, level), facts).Ok?
    requires rule in LevelRules(rules, heights, level) && atom in rule.body && atom.negated && a.p == atom.p
    ensures a in Saturate(LevelRules(rules, heights, level), facts).value <==> a in facts
  {
    SaturateAddsAtLevel(rules, heights, level, facts);
    LevelReads(rules, heights, level, rule, atom);
  }

  lemma {:induction false} SaturateCloses(rules: set<Rule>, facts: set<Assertion>)
    requires |facts| <= MAX_CLOSURE_ASSERTIONS && Saturate(rules, facts).Ok?
    ensures ClosedUnder(rules, Saturate(rules, facts).value)
    ensures AllHeadsResolve(rules, Saturate(rules, facts).value)
    decreases MAX_CLOSURE_ASSERTIONS - |facts|
  {
    var next := facts + Consequences(rules, facts);
    ConsequencesAreExact(rules, facts);
    if next == facts {
      assert Consequences(rules, facts) <= facts;
    } else {
      SubsetCardinality(facts, next);
      SaturateCloses(rules, next);
    }
  }

  /** A round stays inside any larger set that agrees below and is closed under the level. */
  lemma RoundStaysInside(
      rules: set<Rule>, heights: Heights, level: nat, facts: set<Assertion>, other: set<Assertion>)
    requires IsStratification(rules, heights)
    requires facts <= other && AgreeBelow(heights, level, facts, other)
    requires ClosedUnder(LevelRules(rules, heights, level), other)
    ensures Consequences(LevelRules(rules, heights, level), facts) <= other
    ensures AgreeBelow(heights, level, facts + Consequences(LevelRules(rules, heights, level), facts), other)
  {
    var levelRules := LevelRules(rules, heights, level);
    forall a | a in Consequences(levelRules, facts)
      ensures a in other
    {
      var rule, b :| rule in levelRules && b in Solutions(rule, facts) && Derive(rule.head, b) == Some(a);
      SolutionsAreExact(rule, facts, b);
      SolutionGrows(rules, heights, level, rule, facts, other, b);
    }
  }

  lemma {:induction false} SaturateStaysInside(
      rules: set<Rule>, heights: Heights, level: nat, facts: set<Assertion>, other: set<Assertion>)
    requires IsStratification(rules, heights) && |facts| <= MAX_CLOSURE_ASSERTIONS
    requires facts <= other && AgreeBelow(heights, level, facts, other)
    requires ClosedUnder(LevelRules(rules, heights, level), other)
    requires Saturate(LevelRules(rules, heights, level), facts).Ok?
    ensures Saturate(LevelRules(rules, heights, level), facts).value <= other
    decreases MAX_CLOSURE_ASSERTIONS - |facts|
  {
    var next := facts + Consequences(LevelRules(rules, heights, level), facts);
    RoundStaysInside(rules, heights, level, facts, other);
    if next != facts {
      SubsetCardinality(facts, next);
      SaturateStaysInside(rules, heights, level, next, other);
    }
  }

  /** Inside a bounded set where every head resolves, saturation cannot fail. */
  lemma {:induction false} SaturateSucceedsInside(
      rules: set<Rule>, heights: Heights, level: nat, facts: set<Assertion>, other: set<Assertion>)
    requires IsStratification(rules, heights)
    requires |facts| <= MAX_CLOSURE_ASSERTIONS && |other| <= MAX_CLOSURE_ASSERTIONS
    requires facts <= other && AgreeBelow(heights, level, facts, other)
    requires ClosedUnder(LevelRules(rules, heights, level), other)
    requires AllHeadsResolve(LevelRules(rules, heights, level), other)
    ensures Saturate(LevelRules(rules, heights, level), facts).Ok?
    decreases MAX_CLOSURE_ASSERTIONS - |facts|
  {
    var levelRules := LevelRules(rules, heights, level);
    var next := facts + Consequences(levelRules, facts);
    ConsequencesAreExact(levelRules, facts);
    forall rule, b | rule in levelRules && IsSolution(rule, facts, b)
      ensures Derive(rule.head, b).Some?
    {
      SolutionGrows(rules, heights, level, rule, facts, other, b);
    }
    RoundStaysInside(rules, heights, level, facts, other);
    if next != facts {
      SubsetCardinality(facts, next);
      SubsetCardinality(next, other);
      SaturateSucceedsInside(rules, heights, level, next, other);
    }
  }

  // ----- all strata -----

  /** The model extends the facts by assertions of the level or above. */
  ghost predicate AddsFrom(heights: Heights, level: nat, facts: set<Assertion>, model: set<Assertion>) {
    facts <= model && forall a :: a in model && a !in facts ==> level <= Height(heights, a.p)
  }

  lemma LevelThenAbove(
      rules: set<Rule>, heights: Heights, level: nat, top: nat, facts: set<Assertion>,
      model: set<Assertion>)
    returns (next: set<Assertion>)
    requires level <= top && |facts| <= MAX_CLOSURE_ASSERTIONS && Climb(rules, heights, level, top, facts) == Ok(model)
    ensures |next| <= MAX_CLOSURE_ASSERTIONS && Climb(rules, heights, level + 1, top, next) == Ok(model)
    ensures AddsFrom(heights, level + 1, next, model) ==> AddsFrom(heights, level, facts, model)
  {
    next := OneLevelUp(rules, heights, level, top, facts);
  }

  lemma {:induction false} ClimbedFrom(
      rules: set<Rule>, heights: Heights, level: nat, top: nat, facts: set<Assertion>, model: set<Assertion>)
    requires |facts| <= MAX_CLOSURE_ASSERTIONS && Climb(rules, heights, level, top, facts) == Ok(model)
    ensures AddsFrom(heights, level, facts, model) && |model| <= MAX_CLOSURE_ASSERTIONS
    decreases top + 1 - level
  {
    if level > top {
      assert model == facts;
    } else {
      var next := LevelThenAbove(rules, heights, level, top, facts, model);
      ClimbedFrom(rules, heights, level + 1, top, next, model);
    }
  }

  /** From some level on: later strata add nothing at or below earlier ones. */
  lemma ClimbAddsAbove(rules: set<Rule>, heights: Heights, level: nat, top: nat, facts: set<Assertion>)
    requires |facts| <= MAX_CLOSURE_ASSERTIONS && Climb(rules, heights, level, top, facts).Ok?
    ensures var model := Climb(rules, heights, level, top, facts).value;
      && facts <= model && |model| <= MAX_CLOSURE_ASSERTIONS
      && forall a :: a in model && a !in facts ==> level <= Height(heights, a.p)
  {
    ClimbedFrom(rules, heights, level, top, facts, Climb(rules, heights, level, top, facts).value);
  }

  lemma OneLevelUp(rules: set<Rule>, heights: Heights, level: nat, top: nat, facts: set<Assertion>)
    returns (next: set<Assertion>)
    requires level <= top && |facts| <= MAX_CLOSURE_ASSERTIONS && Climb(rules, heights, level, top, facts).Ok?
    ensures facts <= next && |next| <= MAX_CLOSURE_ASSERTIONS
    ensures forall a :: a in next && a !in facts ==> Height(heights, a.p) == level
    ensures Climb(rules, heights, level, top, facts) == Climb(rules, heights, level + 1, top, next)
  {
    SaturateStaysBounded(LevelRules(rules, heights, level), facts);
    SaturateAddsAtLevel(rules, heights, level, facts);
    next := Saturate(LevelRules(rules, heights, level), facts).value;
  }

  /** A level's solutions are the same in the level's own result and in the final one. */
  lemma ClosedStaysClosed(rules: set<Rule>, heights: Heights, level: nat, facts: set<Assertion>, model: set<Assertion>)
    requires IsStratification(rules, heights)
    requires facts <= model && AgreeBelow(heights, level + 1, facts, model)
    requires ClosedUnder(LevelRules(rules, heights, level), facts)
    requires AllHeadsResolve(LevelRules(rules, heights, level), facts)
    ensures ClosedUnder(LevelRules(rules, heights, level), model)
    ensures AllHeadsResolve(LevelRules(rules, heights, level), model)
  {
    forall rule, b | rule in LevelRules(rules, heights, level) && IsSolution(rule, model, b)
      ensures Derive(rule.head, b).Some? && Derive(rule.head, b).value in model
    {
      SolutionGrows(rules, heights, level, rule, model, facts, b);
    }
  }

  ghost predicate ClosedAt(rules: set<Rule>, heights: Heights, level: nat, model: set<Assertion>) {
    ClosedUnder(LevelRules(rules, heights, level), model) && AllHeadsResolve(LevelRules(rules, heights, level), model)
  }

  /** Climbing from a level leaves every level from there on closed. */
  lemma {:induction false} ClimbCloses(
      rules: set<Rule>, heights: Heights, level: nat, top: nat, facts: set<Assertion>, k: nat)
    requires IsStratification(rules, heights) && level <= k <= top
    requires |facts| <= MAX_CLOSURE_ASSERTIONS && Climb(rules, heights, level, top, facts).Ok?
    ensures ClosedAt(rules, heights, k, Climb(rules, heights, level, top, facts).value)
    decreases top + 1 - level
  {
    var next := NextLevel(rules, heights, level, top, facts);
    if level == k {
      SaturateCloses(LevelRules(rules, heights, level), facts);
      ClosedStaysClosed(rules, heights, level, next, Climb(rules, heights, level, top, facts).value);
    } else {
      ClimbCloses(rules, heights, level + 1, top, next, k);
    }
  }

  /** What one step of the climb gives, and how it sits in the final result. */
  lemma NextLevel(rules: set<Rule>, heights: Heights, level: nat, top: nat, facts: set<Assertion>)
    returns (next: set<Assertion>)
    requires level <= top
    requires |facts| <= MAX_CLOSURE_ASSERTIONS && Climb(rules, heights, level, top, facts).Ok?
    ensures Saturate(LevelRules(rules, heights, level), facts) == Ok(next)
    ensures |next| <= MAX_CLOSURE_ASSERTIONS
    ensures Climb(rules, heights, level, top, facts) == Climb(rules, heights, level + 1, top, next)
    ensures facts <= next <= Climb(rules, heights, level, top, facts).value
    ensures forall a :: a in next && a !in facts ==> Height(heights, a.p) == level
    ensures AgreeBelow(heights, level + 1, next, Climb(rules, heights, level, top, facts).value)
  {
    SaturateStaysBounded(LevelRules(rules, heights, level), facts);
    next := Saturate(LevelRules(rules, heights, level), facts).value;
    SaturateAddsAtLevel(rules, heights, level, facts);
    ClimbAddsAbove(rules, heights, level + 1, top, next);
  }

  lemma BaseIsLeast(rules: set<Rule>, heights: Heights, base: set<Assertion>, level: nat, facts: set<Assertion>)
    requires forall a :: a in facts && level <= Height(heights, a.p) ==> a in base
    ensures LeastAtLevel(rules, heights, base, level, facts)
  {
  }

  lemma BaseHoldsAbove(
      rules: set<Rule>, heights: Heights, level: nat, top: nat, facts: set<Assertion>,
      base: set<Assertion>)
    returns (next: set<Assertion>)
    requires level <= top && |facts| <= MAX_CLOSURE_ASSERTIONS && Climb(rules, heights, level, top, facts).Ok?
    requires forall a :: a in facts && level <= Height(heights, a.p) ==> a in base
    ensures |next| <= MAX_CLOSURE_ASSERTIONS
      && Climb(rules, heights, level, top, facts) == Climb(rules, heights, level + 1, top, next)
    ensures forall a :: a in next && level + 1 <= Height(heights, a.p) ==> a in base
  {
    next := NextLevel(rules, heights, level, top, facts);
  }

  lemma FirstLevelIsLeast(
      rules: set<Rule>, heights: Heights, level: nat, top: nat, facts: set<Assertion>, base: set<Assertion>,
      model: set<Assertion>)
    requires IsStratification(rules, heights) && level <= top
    requires |facts| <= MAX_CLOSURE_ASSERTIONS && Climb(rules, heights, level, top, facts) == Ok(model)
    requires forall a :: a in facts && level <= Height(heights, a.p) ==> a in base
    ensures LeastAtLevel(rules, heights, base, level, model)
  {
    var next := NextLevel(rules, heights, level, top, facts);
    LevelIsLeast(rules, heights, level, facts, next, model, base);
  }

  /** ... and least there above any base that holds what the facts have at or above it. */
  lemma {:induction false} ClimbIsLeast(
      rules: set<Rule>, heights: Heights, level: nat, top: nat,
      facts: set<Assertion>, base: set<Assertion>, k: nat, model: set<Assertion>)
    requires IsStratification(rules, heights) && level <= k
    requires |facts| <= MAX_CLOSURE_ASSERTIONS && Climb(rules, heights, level, top, facts) == Ok(model)
    requires forall a :: a in facts && level <= Height(heights, a.p) ==> a in base
    ensures LeastAtLevel(rules, heights, base, k, model)
    decreases top + 1 - level
  {
    if level > top {
      BaseIsLeast(rules, heights, base, k, facts);
    } else if level == k {
      FirstLevelIsLeast(rules, heights, level, top, facts, base, model);
    } else {
      var next := BaseHoldsAbove(rules, heights, level, top, facts, base);
      ClimbIsLeast(rules, heights, level + 1, top, next, base, k, model);
    }
  }

  lemma LevelIsLeast(
      rules: set<Rule>, heights: Heights, level: nat,
      facts: set<Assertion>, next: set<Assertion>, model: set<Assertion>, base: set<Assertion>)
    requires IsStratification(rules, heights) && |facts| <= MAX_CLOSURE_ASSERTIONS
    requires Saturate(LevelRules(rules, heights, level), facts) == Ok(next)
    requires facts <= next <= model && AgreeBelow(heights, level + 1, next, model)
    requires forall a :: a in next && a !in facts ==> Height(heights, a.p) == level
    requires forall a :: a in facts && level <= Height(heights, a.p) ==> a in base
    ensures LeastAtLevel(rules, heights, base, level, model)
  {
    forall other | Competes(rules, heights, base, level, model, other)
      ensures forall a :: a in model && Height(heights, a.p) == level ==> a in other
    {
      assert AgreeBelow(heights, level, facts, other) by {
        forall a: Assertion | Height(heights, a.p) < level
          ensures a in facts <==> a in other
        {
          assert a in next <==> a in model;
        }
      }
      SaturateStaysInside(rules, heights, level, facts, other);
    }
  }

  lemma ClosedAtEveryLevel(rules: set<Rule>, heights: Heights, top: nat, model: set<Assertion>)
    requires IsTop(rules, heights, top)
    requires forall k :: 0 <= k <= top ==> ClosedAt(rules, heights, k, model)
    ensures ClosedUnder(rules, model) && AllHeadsResolve(rules, model)
  {
    forall rule, b | rule in rules && IsSolution(rule, model, b)
      ensures Derive(rule.head, b).Some? && Derive(rule.head, b).value in model
    {
      assert ClosedAt(rules, heights, Height(heights, rule.head.p), model);
      assert rule in LevelRules(rules, heights, Height(heights, rule.head.p));
    }
  }

  /** Soundness: a returned closure is the perfect model and within the bound. */
  lemma ClosureIsPerfect(rules: set<Rule>, base: set<Assertion>)
    requires ClosureOf(rules, base).Ok?
    ensures Stratifiable(rules)
    ensures IsPerfectModel(rules, LeastHeights(rules), base, ClosureOf(rules, base).value)
    ensures |ClosureOf(rules, base).value| <= MAX_CLOSURE_ASSERTIONS
  {
    var heights := LeastHeights(rules);
    var top := Top(rules, heights);
    LeastHeightsAreLeast(rules);
    ClimbAddsAbove(rules, heights, 0, top, base);
    var model := ClosureOf(rules, base).value;
    forall k | 0 <= k <= top
      ensures ClosedAt(rules, heights, k, model)
    {
      ClimbCloses(rules, heights, 0, top, base, k);
    }
    ClosedAtEveryLevel(rules, heights, top, model);
    forall level
      ensures LeastAtLevel(rules, heights, base, level, model)
    {
      ClimbIsLeast(rules, heights, 0, top, base, base, level, model);
    }
  }

  // ----- uniqueness and completeness -----

  lemma {:induction false} PerfectModelsAgreeBelow(
      rules: set<Rule>, heights: Heights, base: set<Assertion>, model: set<Assertion>, other: set<Assertion>,
      level: nat)
    requires IsPerfectModel(rules, heights, base, model) && IsPerfectModel(rules, heights, base, other)
    ensures AgreeBelow(heights, level, model, other)
    decreases level
  {
    if level > 0 {
      PerfectModelsAgreeBelow(rules, heights, base, model, other, level - 1);
      assert Competes(rules, heights, base, level - 1, model, other);
      assert Competes(rules, heights, base, level - 1, other, model);
      assert LeastAtLevel(rules, heights, base, level - 1, model);
      assert LeastAtLevel(rules, heights, base, level - 1, other);
    }
  }

  lemma PerfectModelIsUnique(
      rules: set<Rule>, heights: Heights, base: set<Assertion>, model: set<Assertion>, other: set<Assertion>)
    requires IsPerfectModel(rules, heights, base, model) && IsPerfectModel(rules, heights, base, other)
    ensures model == other
  {
    forall a
      ensures a in model <==> a in other
    {
      PerfectModelsAgreeBelow(rules, heights, base, model, other, Height(heights, a.p) + 1);
    }
  }

  /** While climbing towards a bounded perfect model, no stratum fails. */
  lemma {:induction false} ClimbSucceeds(
      rules: set<Rule>, heights: Heights, level: nat, top: nat,
      facts: set<Assertion>, base: set<Assertion>, model: set<Assertion>)
    requires IsStratification(rules, heights) && IsPerfectModel(rules, heights, base, model)
    requires |facts| <= MAX_CLOSURE_ASSERTIONS && |model| <= MAX_CLOSURE_ASSERTIONS
    requires base <= facts <= model && AgreeBelow(heights, level, facts, model)
    ensures Climb(rules, heights, level, top, facts).Ok?
    decreases top + 1 - level
  {
    if level <= top {
      var next := LevelSucceeds(rules, heights, level, facts, base, model);
      var first := ClimbGoesOn(rules, heights, level, top, facts);
      ClimbSucceeds(rules, heights, level + 1, top, next, base, model);
    }
  }

  /** One stratum's fixpoint stays inside the model and agrees with it up to that stratum. */
  lemma LevelSucceeds(
      rules: set<Rule>, heights: Heights, level: nat, facts: set<Assertion>, base: set<Assertion>,
      model: set<Assertion>)
    returns (next: set<Assertion>)
    requires IsStratification(rules, heights) && IsPerfectModel(rules, heights, base, model)
    requires |facts| <= MAX_CLOSURE_ASSERTIONS && |model| <= MAX_CLOSURE_ASSERTIONS
    requires base <= facts <= model && AgreeBelow(heights, level, facts, model)
    ensures Saturate(LevelRules(rules, heights, level), facts) == Ok(next)
    ensures |next| <= MAX_CLOSURE_ASSERTIONS && base <= next <= model && AgreeBelow(heights, level + 1, next, model)
  {
    SaturateSucceedsInside(rules, heights, level, facts, model);
    SaturateStaysBounded(LevelRules(rules, heights, level), facts);
    SaturateStaysInside(rules, heights, level, facts, model);
    SaturateAddsAtLevel(rules, heights, level, facts);
    SaturateCloses(LevelRules(rules, heights, level), facts);
    next := Saturate(LevelRules(rules, heights, level), facts).value;
    assert Competes(rules, heights, base, level, model, next);
    assert LeastAtLevel(rules, heights, base, level, model);
  }

  /**
   The closure returns a set exactly when that set is the perfect model of a
   stratifiable program and both it and the base are within the bound.
   */
  lemma ClosureExactly(rules: set<Rule>, base: set<Assertion>, model: set<Assertion>)
    ensures ClosureOf(rules, base) == Ok(model) <==>
      && |base| <= MAX_CLOSURE_ASSERTIONS && |model| <= MAX_CLOSURE_ASSERTIONS
      && Stratifiable(rules) && IsPerfectModel(rules, LeastHeights(rules), base, model)
  {
    if ClosureOf(rules, base) == Ok(model) { ClosureIsPerfect(rules, base); }
    if && |base| <= MAX_CLOSURE_ASSERTIONS && |model| <= MAX_CLOSURE_ASSERTIONS
       && Stratifiable(rules) && IsPerfectModel(rules, LeastHeights(rules), base, model)
    {
      var heights := LeastHeights(rules);
      LeastHeightsAreLeast(rules);
      ClimbSucceeds(rules, heights, 0, Top(rules, heights), base, base, model);
      ClosureIsPerfect(rules, base);
      PerfectModelIsUnique(rules, heights, base, model, ClosureOf(rules, base).value);
    }
  }
}
