/**
 What the perfect-model characterization buys: finite derivations whose negations
 never become true, independence of the stratification chosen, order independence,
 idempotence, monotonicity without negation, and the law of merging fragments.
 */
module ClosureLaws {
  import opened Wrappers
  import opened Names
  import opened Rules
  import opened Stratification
  import opened Closure
  import opened PerfectModel

  // ----- derivations -----

  datatype Derivation =
    | Given(fact: Assertion)
    | ByRule(fact: Assertion, rule: Rule, b: Bindings, premises: seq<Derivation>)

  /** A finite derivation from base whose negated atoms fail in the final model. */
  ghost predicate IsDerivation(rules: set<Rule>, base: set<Assertion>, model: set<Assertion>, d: Derivation) {
    match d
    case Given(fact) => fact in base
    case ByRule(fact, rule, b, premises) =>
      var positives := Signed(rule.body, false);
      && rule in rules
      && b.Keys == AllVars(positives)
      && Derive(rule.head, b) == Some(fact)
      && |premises| == |positives|
      && (forall i :: 0 <= i < |premises| ==> FitsAtom(positives[i], premises[i].fact, b))
      && (forall atom :: atom in rule.body && atom.negated ==> !SomeInstanceFits(atom, model, b))
      && (forall i :: 0 <= i < |premises| ==> IsDerivation(rules, base, model, premises[i]))
  }

  ghost predicate Derivable(rules: set<Rule>, base: set<Assertion>, model: set<Assertion>, fact: Assertion) {
    exists d :: IsDerivation(rules, base, model, d) && d.fact == fact
  }

  ghost function DerivableFacts(rules: set<Rule>, base: set<Assertion>, model: set<Assertion>): set<Assertion> {
    set a | a in model && Derivable(rules, base, model, a)
  }

  lemma {:induction false} PremisesExist(
      rules: set<Rule>, base: set<Assertion>, model: set<Assertion>, atoms: seq<RuleAtom>, b: Bindings)
    returns (premises: seq<Derivation>)
    requires forall atom :: atom in atoms ==> SomeFactFits(atom, DerivableFacts(rules, base, model), b)
    ensures |premises| == |atoms|
    ensures forall i :: 0 <= i < |premises| ==>
      FitsAtom(atoms[i], premises[i].fact, b) && IsDerivation(rules, base, model, premises[i])
  {
    if atoms == [] {
      premises := [];
    } else {
      var rest := PremisesExist(rules, base, model, atoms[1..], b);
      assert atoms[0] in atoms;
      var fact :| fact in DerivableFacts(rules, base, model) && FitsAtom(atoms[0], fact, b);
      var d :| IsDerivation(rules, base, model, d) && d.fact == fact;
      premises := [d] + rest;
    }
  }

  /** The derivable facts compete with the model at every level where they agree below. */
  lemma DerivableFactsCompete(
      rules: set<Rule>, heights: Heights, base: set<Assertion>, model: set<Assertion>, level: nat)
    requires IsStratification(rules, heights) && IsPerfectModel(rules, heights, base, model)
    requires AgreeBelow(heights, level, model, DerivableFacts(rules, base, model))
    ensures Competes(rules, heights, base, level, model, DerivableFacts(rules, base, model))
  {
    var derivable := DerivableFacts(rules, base, model);
    forall a | a in base
      ensures a in derivable
    {
      assert IsDerivation(rules, base, model, Given(a));
    }
    forall rule, b | rule in LevelRules(rules, heights, level) && IsSolution(rule, derivable, b)
      && Derive(rule.head, b).Some?
      ensures Derive(rule.head, b).value in derivable
    {
      SolutionGrows(rules, heights, level, rule, derivable, model, b);
      var premises := PremisesExist(rules, base, model, Signed(rule.body, false), b);
      var fact := Derive(rule.head, b).value;
      assert IsDerivation(rules, base, model, ByRule(fact, rule, b, premises));
      assert fact in model;
    }
  }

  lemma {:induction false} EverythingIsDerivable(
      rules: set<Rule>, heights: Heights, base: set<Assertion>, model: set<Assertion>, level: nat)
    requires IsStratification(rules, heights) && IsPerfectModel(rules, heights, base, model)
    ensures AgreeBelow(heights, level, model, DerivableFacts(rules, base, model))
    decreases level
  {
    if level > 0 {
      EverythingIsDerivable(rules, heights, base, model, level - 1);
      DerivableFactsCompete(rules, heights, base, model, level - 1);
      assert LeastAtLevel(rules, heights, base, level - 1, model);
    }
  }

  lemma {:induction false} DerivationsAreSound(
      rules: set<Rule>, base: set<Assertion>, model: set<Assertion>, d: Derivation)
    requires base <= model && ClosedUnder(rules, model) && IsDerivation(rules, base, model, d)
    ensures d.fact in model
    decreases d
  {
    match d
    case Given(_) =>
    case ByRule(fact, rule, b, premises) =>
      var positives := Signed(rule.body, false);
      forall atom | atom in rule.body && !atom.negated
        ensures SomeFactFits(atom, model, b)
      {
        var i :| 0 <= i < |positives| && positives[i] == atom;
        DerivationsAreSound(rules, base, model, premises[i]);
      }
      assert IsSolution(rule, model, b);
  }

  /** The closure holds exactly the facts with a finite derivation that stays admitted. */
  lemma ClosureIsDerivable(rules: set<Rule>, base: set<Assertion>, model: set<Assertion>, fact: Assertion)
    requires ClosureOf(rules, base) == Ok(model)
    ensures fact in model <==> Derivable(rules, base, model, fact)
  {
    ClosureIsPerfect(rules, base);
    var heights := LeastHeights(rules);
    LeastHeightsAreLeast(rules);
    EverythingIsDerivable(rules, heights, base, model, Height(heights, fact.p) + 1);
    if Derivable(rules, base, model, fact) {
      var d :| IsDerivation(rules, base, model, d) && d.fact == fact;
      DerivationsAreSound(rules, base, model, d);
    }
  }

  // ----- independence of the stratification -----

  /** A derivation of a fact at or below a level stays inside any competitor at that level. */
  lemma {:induction false} DerivationInCompetitor(
      rules: set<Rule>, heights: Heights, base: set<Assertion>, level: nat,
      model: set<Assertion>, other: set<Assertion>, d: Derivation)
    requires IsStratification(rules, heights) && Competes(rules, heights, base, level, model, other)
    requires base <= model && ClosedUnder(rules, model) && IsDerivation(rules, base, model, d)
    requires Height(heights, d.fact.p) <= level
    ensures d.fact in other
    decreases d
  {
    DerivationsAreSound(rules, base, model, d);
    if d.ByRule? && Height(heights, d.fact.p) == level {
      var positives := Signed(d.rule.body, false);
      assert d.rule in LevelRules(rules, heights, level);
      forall atom | atom in d.rule.body && !atom.negated
        ensures SomeFactFits(atom, other, d.b)
      {
        var i :| 0 <= i < |positives| && positives[i] == atom;
        LevelReads(rules, heights, level, d.rule, atom);
        DerivationInCompetitor(rules, heights, base, level, model, other, d.premises[i]);
      }
      forall atom | atom in d.rule.body && atom.negated
        ensures !SomeInstanceFits(atom, other, d.b)
      {
        LevelReads(rules, heights, level, d.rule, atom);
        NegationCarries(atom, model, other, d.b);
      }
      assert IsSolution(d.rule, other, d.b);
    }
  }

  lemma NegationCarries(atom: RuleAtom, model: set<Assertion>, other: set<Assertion>, b: Bindings)
    requires forall a :: a in other && a.p == atom.p ==> a in model
    requires !SomeInstanceFits(atom, model, b)
    ensures !SomeInstanceFits(atom, other, b)
  {
    forall c | Extends(b, c)
      ensures !SomeFactFits(atom, other, c)
    {
      assert !SomeFactFits(atom, model, c);
    }
  }

  /** The closure is the one perfect model under every stratification, not only the least. */
  lemma AnyStratificationGivesTheClosure(
      rules: set<Rule>, base: set<Assertion>, model: set<Assertion>, heights: Heights, other: set<Assertion>)
    requires ClosureOf(rules, base) == Ok(model) && IsStratification(rules, heights)
    ensures IsPerfectModel(rules, heights, base, other) <==> other == model
  {
    ClosureIsPerfect(rules, base);
    forall level
      ensures LeastAtLevel(rules, heights, base, level, model)
    {
      forall rival | Competes(rules, heights, base, level, model, rival)
        ensures forall a :: a in model && Height(heights, a.p) == level ==> a in rival
      {
        forall a | a in model && Height(heights, a.p) == level
          ensures a in rival
        {
          ClosureIsDerivable(rules, base, model, a);
          var d :| IsDerivation(rules, base, model, d) && d.fact == a;
          DerivationInCompetitor(rules, heights, base, level, model, rival, d);
        }
      }
    }
    if IsPerfectModel(rules, heights, base, other) {
      PerfectModelIsUnique(rules, heights, base, model, other);
    }
  }

  // ----- order independence -----

  ghost predicate IsOutcome(
      result: Result<seq<Assertion>, ErrorKind>, graph: seq<Assertion>, ontology: Ontology, key: Assertion -> string)
  {
    match Expected(graph, ontology)
    case Err(e) => result == Err(e)
    case Ok(model) => result.Ok? && CanonicalListing(result.value, model, key)
  }

  /** Reordering or repeating assertions, terms or rules changes neither closure nor error. */
  lemma OrderDoesNotMatter(
      graph: seq<Assertion>, ontology: Ontology, graph': seq<Assertion>, ontology': Ontology, key: Assertion -> string,
      result: Result<seq<Assertion>, ErrorKind>, result': Result<seq<Assertion>, ErrorKind>)
    requires Elements(graph) == Elements(graph')
    requires Elements(ontology.rules) == Elements(ontology'.rules)
    requires Elements(ontology.terms) == Elements(ontology'.terms)
    requires IsOutcome(result, graph, ontology, key) && IsOutcome(result', graph', ontology', key)
    ensures result == result'
  {
    assert forall term :: term in ontology.terms <==> term in Elements(ontology.terms);
    assert forall term :: term in ontology'.terms <==> term in Elements(ontology'.terms);
    assert LiftedFacts(ontology.terms) == LiftedFacts(ontology'.terms);
    if result.Ok? {
      CanonicalListingIsUnique(result.value, result'.value, Expected(graph, ontology).value, key);
    }
  }

  // ----- idempotence -----

  lemma PerfectModelOfItself(
      rules: set<Rule>, heights: Heights, base: set<Assertion>, between: set<Assertion>, model: set<Assertion>)
    requires IsPerfectModel(rules, heights, base, model) && base <= between <= model
    ensures IsPerfectModel(rules, heights, between, model)
  {
    forall level
      ensures LeastAtLevel(rules, heights, between, level, model)
    {
      assert LeastAtLevel(rules, heights, base, level, model);
      forall other | Competes(rules, heights, between, level, model, other)
        ensures forall a :: a in model && Height(heights, a.p) == level ==> a in other
      {
        assert Competes(rules, heights, base, level, model, other);
      }
    }
  }

  /** Facts between the base and its closure have the same closure. */
  lemma ClosureOfBetween(rules: set<Rule>, base: set<Assertion>, between: set<Assertion>, model: set<Assertion>)
    requires ClosureOf(rules, base) == Ok(model) && base <= between <= model
    ensures ClosureOf(rules, between) == Ok(model)
  {
    ClosureIsPerfect(rules, base);
    PerfectModelOfItself(rules, LeastHeights(rules), base, between, model);
    SubsetCardinality(between, model);
    ClosureExactly(rules, between, model);
  }

  /** Closing a closure under the same ontology gives it back, negation included. */
  lemma ClosureIsIdempotent(graph: seq<Assertion>, ontology: Ontology, closed: seq<Assertion>, model: set<Assertion>)
    requires Expected(graph, ontology) == Ok(model) && Elements(closed) == model
    ensures Expected(closed, ontology) == Ok(model)
  {
    ClosureIsPerfect(Elements(ontology.rules), BaseFacts(graph, ontology));
    assert BaseFacts(closed, ontology) == model;
    ClosureOfBetween(Elements(ontology.rules), BaseFacts(graph, ontology), model, model);
  }

  // ----- programs without negation -----

  ghost predicate NegationFree(rules: set<Rule>) {
    forall rule, atom :: rule in rules && atom in rule.body ==> !atom.negated
  }

  lemma {:induction false} DerivationWithMoreFacts(
      rules: set<Rule>, base: set<Assertion>, model: set<Assertion>, base': set<Assertion>, model': set<Assertion>,
      d: Derivation)
    requires NegationFree(rules) && base <= base' && IsDerivation(rules, base, model, d)
    ensures IsDerivation(rules, base', model', d)
    decreases d
  {
    if d.ByRule? {
      forall i | 0 <= i < |d.premises|
        ensures IsDerivation(rules, base', model', d.premises[i])
      {
        DerivationWithMoreFacts(rules, base, model, base', model', d.premises[i]);
      }
    }
  }

  /** More facts, larger closure. */
  lemma ClosureIsMonotone(rules: set<Rule>, base: set<Assertion>, base': set<Assertion>)
    requires NegationFree(rules) && base <= base'
    requires ClosureOf(rules, base).Ok? && ClosureOf(rules, base').Ok?
    ensures base <= ClosureOf(rules, base).value <= ClosureOf(rules, base').value
  {
    var model, model' := ClosureOf(rules, base).value, ClosureOf(rules, base').value;
    ClosureIsPerfect(rules, base);
    forall a | a in model
      ensures a in model'
    {
      ClosureIsDerivable(rules, base, model, a);
      var d :| IsDerivation(rules, base, model, d) && d.fact == a;
      DerivationWithMoreFacts(rules, base, model, base', model', d);
      ClosureIsDerivable(rules, base', model', a);
    }
  }

  /** A positive program's solutions survive more facts, so a part of a model never fails alone. */
  lemma PartOfModelSucceeds(rules: set<Rule>, base: set<Assertion>, model: set<Assertion>, part: set<Assertion>)
    requires NegationFree(rules) && ClosureOf(rules, base) == Ok(model) && part <= model
    ensures ClosureOf(rules, part).Ok? && ClosureOf(rules, part).value <= model
  {
    ClosureIsPerfect(rules, base);
    LeastHeightsAreLeast(rules);
    var heights, top := LeastHeights(rules), Top(rules, LeastHeights(rules));
    SubsetCardinality(part, model);
    ClimbInsidePositive(rules, heights, 0, top, part, model);
  }

  lemma {:induction false} ClimbInsidePositive(
      rules: set<Rule>, heights: Heights, level: nat, top: nat, facts: set<Assertion>, model: set<Assertion>)
    requires NegationFree(rules) && |facts| <= MAX_CLOSURE_ASSERTIONS && |model| <= MAX_CLOSURE_ASSERTIONS
    requires facts <= model && ClosedUnder(rules, model) && AllHeadsResolve(rules, model)
    ensures Climb(rules, heights, level, top, facts).Ok? && Climb(rules, heights, level, top, facts).value <= model
    decreases top + 1 - level
  {
    if level <= top {
      SaturateInsidePositive(rules, LevelRules(rules, heights, level), facts, model);
      SaturateStaysBounded(LevelRules(rules, heights, level), facts);
      ClimbInsidePositive(rules, heights, level + 1, top, Saturate(LevelRules(rules, heights, level), facts).value,
        model);
    }
  }

  lemma {:induction false} SaturateInsidePositive(
      rules: set<Rule>, some: set<Rule>, facts: set<Assertion>, model: set<Assertion>)
    requires NegationFree(rules) && some <= rules
    requires |facts| <= MAX_CLOSURE_ASSERTIONS && |model| <= MAX_CLOSURE_ASSERTIONS
    requires facts <= model && ClosedUnder(rules, model) && AllHeadsResolve(rules, model)
    ensures Saturate(some, facts).Ok? && Saturate(some, facts).value <= model
    decreases MAX_CLOSURE_ASSERTIONS - |facts|
  {
    var next := facts + Consequences(some, facts);
    forall rule, b | rule in some && b in Solutions(rule, facts)
      ensures Derive(rule.head, b).Some? && Derive(rule.head, b).value in model
    {
      SolutionsAreExact(rule, facts, b);
      SolutionTransfers(rule, facts, model, b);
    }
    assert next <= model;
    if next != facts {
      SubsetCardinality(facts, next);
      SubsetCardinality(next, model);
      SaturateInsidePositive(rules, some, next, model);
    }
  }

  // ----- merging fragments -----

  ghost function Merged(fragments: seq<seq<Assertion>>): set<Assertion> {
    set fragment, a | fragment in fragments && a in fragment :: a
  }

  /** merge_graph: the members' assertions one after another. */
  method MergeGraph(fragments: seq<seq<Assertion>>) returns (graph: seq<Assertion>)
    ensures Elements(graph) == Merged(fragments)
  {
    graph := [];
    for i := 0 to |fragments|
      invariant Elements(graph) == Merged(fragments[..i])
    {
      assert fragments[..i + 1] == fragments[..i] + [fragments[i]];
      ghost var before := graph;
      graph := graph + fragments[i];
      assert Elements(graph) == Elements(before) + Elements(fragments[i]);
    }
    assert fragments[..|fragments|] == fragments;
  }

  ghost predicate AreClosures(fragments: seq<seq<Assertion>>, closures: seq<seq<Assertion>>, ontology: Ontology) {
    |closures| == |fragments|
    && forall i :: 0 <= i < |fragments| ==> Expected(fragments[i], ontology) == Ok(Elements(closures[i]))
  }

  /** The merge of the closed fragments lies between the raw merge and any model of the raw merge. */
  lemma MergeOfClosuresIsBetween(
      fragments: seq<seq<Assertion>>, closures: seq<seq<Assertion>>, ontology: Ontology, base: set<Assertion>,
      model: set<Assertion>)
    requires AreClosures(fragments, closures, ontology) && NegationFree(Elements(ontology.rules))
    requires base == Merged(fragments) + LiftedFacts(ontology.terms)
    requires ClosureOf(Elements(ontology.rules), base) == Ok(model)
    ensures Merged(closures) + LiftedFacts(ontology.terms) <= model
  {
    var rules := Elements(ontology.rules);
    ClosureIsPerfect(rules, base);
    forall a | a in Merged(closures)
      ensures a in model
    {
      var closure :| closure in closures && a in closure;
      var i :| 0 <= i < |closures| && closures[i] == closure;
      assert Expected(fragments[i], ontology) == Ok(Elements(closures[i]));
      assert fragments[i] in fragments;
      assert a in Elements(closures[i]);
      ClosureIsMonotone(rules, BaseFacts(fragments[i], ontology), base);
    }
  }

  lemma RawMergeIsInside(fragments: seq<seq<Assertion>>, closures: seq<seq<Assertion>>, ontology: Ontology)
    requires AreClosures(fragments, closures, ontology)
    ensures Merged(fragments) <= Merged(closures)
  {
    forall a | a in Merged(fragments)
      ensures a in Merged(closures)
    {
      var fragment :| fragment in fragments && a in fragment;
      var i :| 0 <= i < |fragments| && fragments[i] == fragment;
      ClosureIsPerfect(Elements(ontology.rules), BaseFacts(fragments[i], ontology));
      assert a in BaseFacts(fragments[i], ontology);
      assert a in Elements(closures[i]) && closures[i] in closures;
    }
  }

  /**
   For a program without negation, closing the merge of closed fragments succeeds
   with a result exactly when closing the merge of the raw fragments does.
   */
  lemma MergeOfClosures(
      fragments: seq<seq<Assertion>>, closures: seq<seq<Assertion>>, ontology: Ontology,
      raw: seq<Assertion>, closed: seq<Assertion>, model: set<Assertion>)
    requires AreClosures(fragments, closures, ontology) && NegationFree(Elements(ontology.rules))
    requires Elements(raw) == Merged(fragments) && Elements(closed) == Merged(closures)
    ensures Expected(closed, ontology) == Ok(model) <==> Expected(raw, ontology) == Ok(model)
  {
    var rules := Elements(ontology.rules);
    var base, base' := BaseFacts(raw, ontology), BaseFacts(closed, ontology);
    RawMergeIsInside(fragments, closures, ontology);
    if Expected(raw, ontology) == Ok(model) {
      MergeOfClosuresIsBetween(fragments, closures, ontology, base, model);
      ClosureOfBetween(rules, base, base', model);
    }
    if Expected(closed, ontology) == Ok(model) {
      ClosureIsPerfect(rules, base');
      PartOfModelSucceeds(rules, base', model, base);
      var model' := ClosureOf(rules, base).value;
      MergeOfClosuresIsBetween(fragments, closures, ontology, base, model');
      ClosureOfBetween(rules, base, base', model');
    }
  }
}
