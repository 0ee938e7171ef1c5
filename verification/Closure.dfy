/**
 The entailment closure: stratum by stratum, fire the stratum's rules on a snapshot
 until nothing is added, failing closed on a malformed head or an overflow.

 The reference form below works on sets, so it cannot depend on any order; the
 methods work on the ordered dictionary and are proved to compute the same outcome.
 */
module Closure {
  import opened Wrappers
  import opened Names
  import opened Rules
  import opened Stratification

  const MAX_CLOSURE_ASSERTIONS: nat := 100_000

  datatype ErrorKind = MalformedDocument | ClosureOverflow

  datatype TermKind = ClassTerm | PropertyTerm

  datatype OntologyTerm = OntologyTerm(
    kind: TermKind, name: string, subClassOf: seq<string>, domain: seq<string>, range: seq<string>)

  datatype ImportRef = ImportRef(id: string, version: string, hash: string)

  datatype Ontology = Ontology(
    id: string, version: string, imports: seq<ImportRef>, terms: seq<OntologyTerm>, rules: seq<Rule>)

  // ----- one round, on sets -----

  ghost function Consequences(rules: set<Rule>, facts: set<Assertion>): set<Assertion> {
    set rule, b |
      rule in rules && b in Solutions(rule, facts) && Derive(rule.head, b).Some?
      :: Derive(rule.head, b).value
  }

  ghost predicate MalformedRound(rules: set<Rule>, facts: set<Assertion>) {
    exists rule, b :: rule in rules && b in Solutions(rule, facts) && Derive(rule.head, b).None?
  }

  type Outcome = Result<set<Assertion>, ErrorKind>

  /** The bounded fixpoint of one stratum's rules. */
  ghost function Saturate(rules: set<Rule>, facts: set<Assertion>): Outcome
    requires |facts| <= MAX_CLOSURE_ASSERTIONS
    decreases MAX_CLOSURE_ASSERTIONS - |facts|
  {
    var next := facts + Consequences(rules, facts);
    if MalformedRound(rules, facts) then Err(MalformedDocument)
    else if next == facts then Ok(facts)
    else
      SubsetCardinality(facts, next);
      if |next| > MAX_CLOSURE_ASSERTIONS then Err(ClosureOverflow)
      else Saturate(rules, next)
  }

  ghost function LevelRules(rules: set<Rule>, heights: Heights, level: nat): set<Rule> {
    set rule | rule in rules && Height(heights, rule.head.p) == level
  }

  lemma {:induction false} SaturateStaysBounded(rules: set<Rule>, facts: set<Assertion>)
    requires |facts| <= MAX_CLOSURE_ASSERTIONS
    ensures Saturate(rules, facts).Ok? ==>
      facts <= Saturate(rules, facts).value && |Saturate(rules, facts).value| <= MAX_CLOSURE_ASSERTIONS
    decreases MAX_CLOSURE_ASSERTIONS - |facts|
  {
    var next := facts + Consequences(rules, facts);
    if !MalformedRound(rules, facts) && next != facts {
      SubsetCardinality(facts, next);
      if |next| <= MAX_CLOSURE_ASSERTIONS { SaturateStaysBounded(rules, next); }
    }
  }

  /** Saturate the strata from level to top, lowest first. */
  ghost function Climb(rules: set<Rule>, heights: Heights, level: nat, top: nat, facts: set<Assertion>): Outcome
    requires |facts| <= MAX_CLOSURE_ASSERTIONS
    decreases top + 1 - level
  {
    if level > top then Ok(facts)
    else
      SaturateStaysBounded(LevelRules(rules, heights, level), facts);
      match Saturate(LevelRules(rules, heights, level), facts)
      case Err(e) => Err(e)
      case Ok(next) => Climb(rules, heights, level + 1, top, next)
  }

  ghost predicate IsTop(rules: set<Rule>, heights: Heights, top: nat) {
    forall rule :: rule in rules ==> Height(heights, rule.head.p) <= top
  }

  lemma {:induction false} TopExists(rules: set<Rule>, heights: Heights)
    ensures exists top :: IsTop(rules, heights, top)
  {
    if rules == {} {
      assert IsTop(rules, heights, 0);
    } else {
      var rule :| rule in rules;
      TopExists(rules - {rule}, heights);
      var top :| IsTop(rules - {rule}, heights, top);
      var h := Height(heights, rule.head.p);
      assert IsTop(rules, heights, if h > top then h else top);
    }
  }

  ghost function Top(rules: set<Rule>, heights: Heights): (top: nat)
    ensures IsTop(rules, heights, top)
  {
    TopExists(rules, heights);
    var top :| IsTop(rules, heights, top);
    top
  }

  /** The outcome of the closure as a function of two sets and nothing else. */
  ghost function ClosureOf(rules: set<Rule>, facts: set<Assertion>): Outcome {
    if |facts| > MAX_CLOSURE_ASSERTIONS then Err(ClosureOverflow)
    else if !Stratifiable(rules) then Err(MalformedDocument)
    else Climb(rules, LeastHeights(rules), 0, Top(rules, LeastHeights(rules)), facts)
  }

  lemma NoRulesNothingAdded(facts: set<Assertion>)
    requires |facts| <= MAX_CLOSURE_ASSERTIONS
    ensures Saturate({}, facts) == Ok(facts)
  {
    assert Consequences({}, facts) == {};
    assert facts + {} == facts;
  }

  /** Two climbs that see the same rules at a level do the same there. */
  lemma ClimbsSplit(
      rules: set<Rule>, heights: Heights, top: nat, other: Heights, more: nat, level: nat, facts: set<Assertion>)
    returns (first: Outcome)
    requires |facts| <= MAX_CLOSURE_ASSERTIONS && level <= top && level <= more
    requires LevelRules(rules, heights, level) == LevelRules(rules, other, level)
    ensures first.Ok? ==> |first.value| <= MAX_CLOSURE_ASSERTIONS
    ensures first.Ok? ==> Climb(rules, heights, level, top, facts) == Climb(rules, heights, level + 1, top, first.value)
    ensures first.Ok? ==> Climb(rules, other, level, more, facts) == Climb(rules, other, level + 1, more, first.value)
    ensures first.Err? ==> Climb(rules, heights, level, top, facts) == first == Climb(rules, other, level, more, facts)
  {
    SaturateStaysBounded(LevelRules(rules, heights, level), facts);
    first := Saturate(LevelRules(rules, heights, level), facts);
  }

  /** A climb saturates its level's rules, then goes on with what that gave. */
  lemma ClimbGoesOn(rules: set<Rule>, heights: Heights, level: nat, top: nat, facts: set<Assertion>)
    returns (first: Outcome)
    requires |facts| <= MAX_CLOSURE_ASSERTIONS && level <= top
    ensures first == Saturate(LevelRules(rules, heights, level), facts)
    ensures first.Ok? ==> facts <= first.value && |first.value| <= MAX_CLOSURE_ASSERTIONS
    ensures first.Ok? ==> Climb(rules, heights, level, top, facts) == Climb(rules, heights, level + 1, top, first.value)
    ensures first.Err? ==> Climb(rules, heights, level, top, facts) == first
  {
    SaturateStaysBounded(LevelRules(rules, heights, level), facts);
    first := Saturate(LevelRules(rules, heights, level), facts);
  }

  lemma {:induction false} ClimbExtends(
      rules: set<Rule>, heights: Heights, level: nat, top: nat, facts: set<Assertion>)
    requires |facts| <= MAX_CLOSURE_ASSERTIONS
    ensures Climb(rules, heights, level, top, facts).Ok? ==>
      facts <= Climb(rules, heights, level, top, facts).value
    decreases top + 1 - level
  {
    if level <= top {
      var first := ClimbGoesOn(rules, heights, level, top, facts);
      if first.Ok? { ClimbExtends(rules, heights, level + 1, top, first.value); }
    }
  }

  lemma EmptyLevelIsSkipped(rules: set<Rule>, heights: Heights, top: nat, level: nat, more: nat, facts: set<Assertion>)
    requires |facts| <= MAX_CLOSURE_ASSERTIONS && IsTop(rules, heights, top) && top < level <= more
    ensures Climb(rules, heights, level, more, facts) == Climb(rules, heights, level + 1, more, facts)
  {
    assert LevelRules(rules, heights, level) == {};
    NoRulesNothingAdded(facts);
  }

  lemma {:induction false} ClimbIgnoresEmptyLevels(
      rules: set<Rule>, heights: Heights, level: nat, top: nat, more: nat, facts: set<Assertion>, outcome: Outcome)
    requires |facts| <= MAX_CLOSURE_ASSERTIONS && top <= more && IsTop(rules, heights, top)
    requires Climb(rules, heights, level, top, facts) == outcome
    ensures Climb(rules, heights, level, more, facts) == outcome
    decreases more + 1 - level
  {
    if level <= top {
      var first := ClimbsSplit(rules, heights, top, heights, more, level, facts);
      if first.Ok? { ClimbIgnoresEmptyLevels(rules, heights, level + 1, top, more, first.value, outcome); }
    } else {
      AboveTheTop(rules, heights, top, level, more, facts);
    }
  }

  lemma {:induction false} AboveTheTop(
      rules: set<Rule>, heights: Heights, top: nat, level: nat, more: nat, facts: set<Assertion>)
    requires |facts| <= MAX_CLOSURE_ASSERTIONS && IsTop(rules, heights, top) && top < level
    ensures Climb(rules, heights, level, more, facts) == Ok(facts)
    decreases more + 1 - level
  {
    if level <= more {
      EmptyLevelIsSkipped(rules, heights, top, level, more, facts);
      AboveTheTop(rules, heights, top, level + 1, more, facts);
    }
  }

  lemma {:induction false} ClimbSeesOnlyHeights(
      rules: set<Rule>, heights: Heights, other: Heights, level: nat, top: nat, facts: set<Assertion>)
    requires |facts| <= MAX_CLOSURE_ASSERTIONS && Below(heights, other) && Below(other, heights)
    ensures Climb(rules, heights, level, top, facts) == Climb(rules, other, level, top, facts)
    decreases top + 1 - level
  {
    if level <= top {
      assert LevelRules(rules, heights, level) == LevelRules(rules, other, level) by {
        SameHeights(heights, other);
      }
      var first := ClimbsSplit(rules, heights, top, other, top, level, facts);
      if first.Ok? { ClimbSeesOnlyHeights(rules, heights, other, level + 1, top, first.value); }
    }
  }

  lemma SameHeights(heights: Heights, other: Heights)
    requires Below(heights, other) && Below(other, heights)
    ensures forall p :: Height(heights, p) == Height(other, p)
  {
    assert forall p :: Height(heights, p) <= Height(other, p) && Height(other, p) <= Height(heights, p);
  }

  /** Any least stratification and any top give the closure. */
  lemma ClosureByAnyLeastHeights(rules: set<Rule>, heights: Heights, top: nat, facts: set<Assertion>)
    requires |facts| <= MAX_CLOSURE_ASSERTIONS
    requires IsLeastStratification(rules, heights) && IsTop(rules, heights, top)
    ensures ClosureOf(rules, facts) == Climb(rules, heights, 0, top, facts)
  {
    LeastHeightsAreLeast(rules);
    var least := LeastHeights(rules);
    var other := Top(rules, least);
    assert Below(heights, least) && Below(least, heights);
    ClimbSeesOnlyHeights(rules, heights, least, 0, top, facts);
    assert IsTop(rules, least, top) by {
      forall rule | rule in rules
        ensures Height(least, rule.head.p) <= top
      {
        assert Height(least, rule.head.p) <= Height(heights, rule.head.p);
      }
    }
    if top <= other {
      ClimbIgnoresEmptyLevels(rules, least, 0, top, other, facts, Climb(rules, least, 0, top, facts));
    } else {
      ClimbIgnoresEmptyLevels(rules, least, 0, other, top, facts, Climb(rules, least, 0, other, facts));
    }
  }

  // ----- the program -----

  ghost function Related(subject: string, p: string, names: seq<string>): set<Assertion> {
    set name | name in names :: Assertion(subject, p, Term(name))
  }

  ghost function TermFacts(term: OntologyTerm): set<Assertion> {
    {KindFact(term)} +
    if term.kind.ClassTerm? then Related(term.name, SUB_CLASS_OF, term.subClassOf)
    else Related(term.name, DOMAIN, term.domain) + Related(term.name, RANGE, term.range)
  }

  /** Facts lifted from the declared terms. */
  ghost function LiftedFacts(terms: seq<OntologyTerm>): set<Assertion> {
    set term, fact | term in terms && fact in TermFacts(term) :: fact
  }

  /** An empty parent, domain or range name is malformed. */
  ghost predicate NamesEmptyTerm(term: OntologyTerm) {
    if term.kind.ClassTerm? then "" in term.subClassOf else "" in term.domain || "" in term.range
  }

  const KIND := "urn:cbp:core/kind"
  const SUB_CLASS_OF := "urn:cbp:core/subClassOf"
  const DOMAIN := "urn:cbp:core/domain"
  const RANGE := "urn:cbp:core/range"

  function KindFact(term: OntologyTerm): Assertion {
    Assertion(term.name, KIND, Literal("str", if term.kind.ClassTerm? then "\"class\"" else "\"property\""))
  }

  /** What a declared term says of its name, in the published vocabulary. */
  ghost predicate Says(term: OntologyTerm, p: string, about: Obj) {
    (p == "urn:cbp:core/kind" && term.kind == ClassTerm && about == Literal("str", "\"class\""))
    || (p == "urn:cbp:core/kind" && term.kind == PropertyTerm && about == Literal("str", "\"property\""))
    || (about.Term? && SaysOfName(term, p, about.name))
  }

  /** A class names its parents; a property names its domains and its ranges. */
  ghost predicate SaysOfName(term: OntologyTerm, p: string, name: string) {
    (p == "urn:cbp:core/subClassOf" && term.kind == ClassTerm && name in term.subClassOf)
    || (p == "urn:cbp:core/domain" && term.kind == PropertyTerm && name in term.domain)
    || (p == "urn:cbp:core/range" && term.kind == PropertyTerm && name in term.range)
  }

  ghost predicate SaidBy(terms: seq<OntologyTerm>, fact: Assertion) {
    exists term :: term in terms && term.name == fact.s && Says(term, fact.p, fact.o)
  }

  ghost predicate SayTheEmptyName(terms: seq<OntologyTerm>) {
    exists term, p :: term in terms && SaysOfName(term, p, "")
  }

  /** Lifting gives exactly what the declared terms say of their names. */
  lemma LiftedExactly(terms: seq<OntologyTerm>)
    ensures forall fact :: fact in LiftedFacts(terms) <==> SaidBy(terms, fact)
    ensures (exists term :: term in terms && NamesEmptyTerm(term)) <==> SayTheEmptyName(terms)
  {
    forall term, fact
      ensures fact in TermFacts(term) <==> term.name == fact.s && Says(term, fact.p, fact.o)
    {
      TermFactsAreSaid(term, fact);
    }
    forall term | NamesEmptyTerm(term)
      ensures exists p :: SaysOfName(term, p, "")
    {
      assert SaysOfName(term, SUB_CLASS_OF, "") || SaysOfName(term, DOMAIN, "") || SaysOfName(term, RANGE, "");
    }
  }

  lemma TermFactsAreSaid(term: OntologyTerm, fact: Assertion)
    ensures fact in TermFacts(term) <==> term.name == fact.s && Says(term, fact.p, fact.o)
  {
  }

  method Relate(subject: string, p: string, names: seq<string>, facts: seq<Assertion>)
    returns (result: Result<seq<Assertion>, ErrorKind>)
    ensures result.Err? <==> "" in names
    ensures result.Err? ==> result.error == MalformedDocument
    ensures result.Ok? ==> Elements(result.value) == Elements(facts) + Related(subject, p, names)
  {
    var grown := facts;
    for i := 0 to |names|
      invariant "" !in names[..i]
      invariant Elements(grown) == Elements(facts) + Related(subject, p, names[..i])
    {
      assert names[..i + 1] == names[..i] + [names[i]];
      assert Related(subject, p, names[..i + 1]) ==
        Related(subject, p, names[..i]) + {Assertion(subject, p, Term(names[i]))};
      if names[i] == "" {
        return Err(MalformedDocument);
      }
      ghost var before := grown;
      grown := grown + [Assertion(subject, p, Term(names[i]))];
      assert Elements(grown) == Elements(before) + {Assertion(subject, p, Term(names[i]))};
    }
    assert names[..|names|] == names;
    return Ok(grown);
  }

  method TermFactList(term: OntologyTerm, facts: seq<Assertion>) returns (result: Result<seq<Assertion>, ErrorKind>)
    ensures result.Err? <==> NamesEmptyTerm(term)
    ensures result.Err? ==> result.error == MalformedDocument
    ensures result.Ok? ==> Elements(result.value) == Elements(facts) + TermFacts(term)
  {
    var grown := facts + [KindFact(term)];
    assert Elements(grown) == Elements(facts) + {KindFact(term)};
    if term.kind.ClassTerm? {
      result := Relate(term.name, SUB_CLASS_OF, term.subClassOf, grown);
    } else {
      result := Relate(term.name, DOMAIN, term.domain, grown);
      if result.Ok? {
        result := Relate(term.name, RANGE, term.range, result.value);
      }
    }
  }

  method OntologyFacts(terms: seq<OntologyTerm>) returns (result: Result<seq<Assertion>, ErrorKind>)
    ensures result.Err? <==> SayTheEmptyName(terms)
    ensures result.Err? ==> result.error == MalformedDocument
    ensures result.Ok? ==> forall fact :: fact in result.value <==> SaidBy(terms, fact)
  {
    var facts: seq<Assertion> := [];
    NoTermsNoFacts();
    for i := 0 to |terms|
      invariant forall j :: 0 <= j < i ==> !NamesEmptyTerm(terms[j])
      invariant Elements(facts) == LiftedFacts(terms[..i])
    {
      var grown := TermFactList(terms[i], facts);
      if grown.Err? {
        assert SayTheEmptyName(terms) by {
          assert terms[i] in terms && NamesEmptyTerm(terms[i]);
          LiftedExactly(terms);
        }
        return grown;
      }
      LiftedFactsOfOneMore(terms, i);
      facts := grown.value;
    }
    assert terms[..|terms|] == terms;
    AllLifted(terms, facts);
    return Ok(facts);
  }

  lemma AllLifted(terms: seq<OntologyTerm>, facts: seq<Assertion>)
    requires Elements(facts) == LiftedFacts(terms)
    requires forall j :: 0 <= j < |terms| ==> !NamesEmptyTerm(terms[j])
    ensures !SayTheEmptyName(terms)
    ensures forall fact :: fact in facts <==> SaidBy(terms, fact)
  {
    LiftedExactly(terms);
    assert forall fact :: fact in facts <==> fact in Elements(facts);
  }

  lemma NoTermsNoFacts()
    ensures LiftedFacts([]) == {} == Elements<Assertion>([])
  {
  }

  lemma LiftedFactsOfOneMore(terms: seq<OntologyTerm>, i: nat)
    requires i < |terms|
    ensures LiftedFacts(terms[..i + 1]) == LiftedFacts(terms[..i]) + TermFacts(terms[i])
  {
    assert terms[..i + 1] == terms[..i] + [terms[i]];
  }

  /** Keep the first of equal assertions, as the dictionary's setdefault does. */
  method Deduplicate(facts: seq<Assertion>) returns (collection: seq<Assertion>)
    ensures Distinct(collection) && Elements(collection) == Elements(facts)
  {
    collection := [];
    for i := 0 to |facts|
      invariant Distinct(collection) && Elements(collection) == Elements(facts[..i])
    {
      ElementsAppend(facts, i);
      if facts[i] !in collection {
        ghost var before := collection;
        collection := collection + [facts[i]];
        assert Elements(collection) == Elements(before) + {facts[i]};
      }
    }
    assert facts[..|facts|] == facts;
  }

  /** Fire one rule on a snapshot, adding what is new to the collection. */
  method Fire(rule: Rule, snapshot: seq<Assertion>, collection: seq<Assertion>)
    returns (result: Result<seq<Assertion>, ErrorKind>)
    requires Distinct(collection)
    ensures result.Err? <==> MalformedRound({rule}, Elements(snapshot))
    ensures result.Err? ==> result.error == MalformedDocument
    ensures result.Ok? ==> Distinct(result.value) && collection <= result.value
    ensures result.Ok? ==> Elements(result.value) == Elements(collection) + Consequences({rule}, Elements(snapshot))
  {
    var bindings := RuleBindings(rule, snapshot);
    ghost var solutions := Solutions(rule, Elements(snapshot));
    var grown := collection;
    for i := 0 to |bindings|
      invariant Distinct(grown) && collection <= grown
      invariant forall j :: 0 <= j < i ==> Derive(rule.head, bindings[j]).Some?
      invariant forall j :: 0 <= j < i ==> Derive(rule.head, bindings[j]).value in grown
      invariant forall a :: a in grown ==>
        a in collection || exists b :: b in solutions && Derive(rule.head, b) == Some(a)
    {
      assert bindings[i] in Elements(bindings);
      var derived := Derive(rule.head, bindings[i]);
      if derived.None? {
        return Err(MalformedDocument);
      }
      if derived.value !in grown {
        grown := grown + [derived.value];
      }
    }
    forall b | b in solutions
      ensures Derive(rule.head, b).Some? && Derive(rule.head, b).value in grown
    {
      assert b in Elements(bindings);
    }
    return Ok(grown);
  }

  lemma ConsequencesUnion(rules: set<Rule>, more: set<Rule>, facts: set<Assertion>)
    ensures Consequences(rules + more, facts) == Consequences(rules, facts) + Consequences(more, facts)
    ensures MalformedRound(rules + more, facts) <==> MalformedRound(rules, facts) || MalformedRound(more, facts)
  {
  }

  /** One round: every rule of the level is fired on the same snapshot. */
  method FireAll(rules: seq<Rule>, snapshot: seq<Assertion>) returns (result: Result<seq<Assertion>, ErrorKind>)
    requires Distinct(snapshot)
    ensures result.Err? <==> MalformedRound(Elements(rules), Elements(snapshot))
    ensures result.Err? ==> result.error == MalformedDocument
    ensures result.Ok? ==> Distinct(result.value) && snapshot <= result.value
    ensures result.Ok? ==>
      Elements(result.value) == Elements(snapshot) + Consequences(Elements(rules), Elements(snapshot))
  {
    ghost var facts := Elements(snapshot);
    var grown := snapshot;
    for i := 0 to |rules|
      invariant Distinct(grown) && snapshot <= grown
      invariant !MalformedRound(Elements(rules[..i]), facts)
      invariant Elements(grown) == facts + Consequences(Elements(rules[..i]), facts)
    {
      assert Elements(rules[..i + 1]) == Elements(rules[..i]) + {rules[i]};
      ConsequencesUnion(Elements(rules[..i]), {rules[i]}, facts);
      var fired := Fire(rules[i], snapshot, grown);
      if fired.Err? {
        assert rules[i] in Elements(rules);
        return fired;
      }
      grown := fired.value;
    }
    assert rules[..|rules|] == rules;
    return Ok(grown);
  }

  method SaturateLevel(rules: seq<Rule>, collection: seq<Assertion>) returns (result: Result<seq<Assertion>, ErrorKind>)
    requires Distinct(collection) && |collection| <= MAX_CLOSURE_ASSERTIONS
    ensures |Elements(collection)| == |collection|
    ensures result.Ok? ==> Distinct(result.value) && |result.value| <= MAX_CLOSURE_ASSERTIONS
    ensures result.Ok? ==> Saturate(Elements(rules), Elements(collection)) == Ok(Elements(result.value))
    ensures result.Err? ==> Saturate(Elements(rules), Elements(collection)) == Err(result.error)
  {
    DistinctCardinality(collection);
    var current := collection;
    while true
      invariant Distinct(current) && |Elements(current)| == |current| <= MAX_CLOSURE_ASSERTIONS
      invariant Saturate(Elements(rules), Elements(collection)) == Saturate(Elements(rules), Elements(current))
      decreases MAX_CLOSURE_ASSERTIONS - |current|
    {
      var fired := FireAll(rules, current);
      if fired.Err? {
        return fired;
      }
      DistinctCardinality(fired.value);
      if |fired.value| == |current| {
        assert fired.value == current;
        return Ok(current);
      }
      assert Elements(fired.value) != Elements(current);
      if |fired.value| > MAX_CLOSURE_ASSERTIONS {
        return Err(ClosureOverflow);
      }
      current := fired.value;
    }
  }

  method SelectLevel(rules: seq<Rule>, heights: Heights, level: nat) returns (selected: seq<Rule>)
    ensures Elements(selected) == LevelRules(Elements(rules), heights, level)
  {
    selected := [];
    for i := 0 to |rules|
      invariant forall rule :: rule in selected <==> rule in rules[..i] && Height(heights, rule.head.p) == level
    {
      assert rules[..i + 1] == rules[..i] + [rules[i]];
      if Height(heights, rules[i].head.p) == level {
        selected := selected + [rules[i]];
      }
    }
    assert rules[..|rules|] == rules;
  }

  /** max(stratum.values(), default=0) */
  method MaxHeight(heights: Heights) returns (top: nat)
    ensures forall p :: p in heights ==> heights[p] <= top
  {
    top := 0;
    var left := heights.Keys;
    while left != {}
      invariant left <= heights.Keys
      invariant forall p :: p in heights && p !in left ==> heights[p] <= top
      decreases left
    {
      var p :| p in left;
      if heights[p] > top {
        top := heights[p];
      }
      left := left - {p};
    }
  }

  // ----- the canonical listing -----

  ghost predicate Injective(key: Assertion -> string) {
    forall a, b :: key(a) == key(b) ==> a == b
  }

  ghost predicate CanonicalListing(listing: seq<Assertion>, facts: set<Assertion>, key: Assertion -> string) {
    Elements(listing) == facts
    && forall i, j :: 0 <= i < j < |listing| ==> Less(key(listing[i]), key(listing[j]))
  }

  /** The values of the dictionary in the order of their sorted keys. */
  method SortedByKey(collection: seq<Assertion>, key: Assertion -> string) returns (listing: seq<Assertion>)
    requires Distinct(collection) && Injective(key)
    ensures CanonicalListing(listing, Elements(collection), key)
  {
    var keys := seq(|collection|, i requires 0 <= i < |collection| => key(collection[i]));
    KeysAreDistinct(collection, key, keys);
    var byKey := IndexByKey(keys, collection);
    var ordered := Sort(keys);
    SameMembers(ordered, keys);
    listing := [];
    for i := 0 to |ordered|
      invariant |listing| == i
      invariant forall j :: 0 <= j < i ==> listing[j] in collection && key(listing[j]) == ordered[j]
    {
      assert ordered[i] in keys;
      listing := listing + [byKey[ordered[i]]];
    }
    SortedDistinctIsStrict(ordered, keys);
    ListingIsCanonical(collection, key, keys, ordered, listing);
  }

  method IndexByKey(keys: seq<string>, collection: seq<Assertion>) returns (byKey: map<string, Assertion>)
    requires |keys| == |collection| && Distinct(keys)
    ensures forall i :: 0 <= i < |keys| ==> keys[i] in byKey && byKey[keys[i]] == collection[i]
  {
    byKey := map[];
    for i := 0 to |keys|
      invariant forall j :: 0 <= j < i ==> keys[j] in byKey && byKey[keys[j]] == collection[j]
    {
      byKey := byKey[keys[i] := collection[i]];
    }
  }

  lemma ListingIsCanonical(
      collection: seq<Assertion>, key: Assertion -> string, keys: seq<string>, ordered: seq<string>,
      listing: seq<Assertion>)
    requires |keys| == |collection| && |listing| == |ordered|
    requires forall i :: 0 <= i < |keys| ==> keys[i] == key(collection[i])
    requires forall x :: x in ordered <==> x in keys
    requires forall i :: 0 <= i < |ordered| ==> listing[i] in collection && key(listing[i]) == ordered[i]
    requires forall i, j :: 0 <= i < j < |ordered| ==> Less(ordered[i], ordered[j])
    requires Injective(key)
    ensures CanonicalListing(listing, Elements(collection), key)
  {
    forall a | a in collection
      ensures a in listing
    {
      var n :| 0 <= n < |collection| && collection[n] == a;
      assert keys[n] in keys;
      var i :| 0 <= i < |ordered| && ordered[i] == keys[n];
      assert listing[i] == a;
    }
  }

  lemma KeysAreDistinct(collection: seq<Assertion>, key: Assertion -> string, keys: seq<string>)
    requires Distinct(collection) && Injective(key)
    requires |keys| == |collection| && forall i :: 0 <= i < |keys| ==> keys[i] == key(collection[i])
    ensures Distinct(keys)
  {
  }

  lemma SortedDistinctIsStrict(ordered: seq<string>, keys: seq<string>)
    requires IsSorted(ordered) && multiset(ordered) == multiset(keys) && Distinct(keys)
    ensures forall i, j :: 0 <= i < j < |ordered| ==> Less(ordered[i], ordered[j])
  {
    forall i, j | 0 <= i < j < |ordered|
      ensures ordered[i] != ordered[j]
    {
      if ordered[i] == ordered[j] {
        TwiceInMultiset(ordered, i, j);
        DistinctOnceInMultiset(keys, ordered[i]);
      }
    }
  }

  lemma TwiceInMultiset(s: seq<string>, i: nat, j: nat)
    requires i < j < |s| && s[i] == s[j]
    ensures multiset(s)[s[i]] >= 2
  {
    assert s == s[..j] + [s[j]] + s[j + 1..];
    assert s[i] in s[..j];
  }

  lemma {:induction false} DistinctOnceInMultiset(s: seq<string>, x: string)
    requires Distinct(s)
    ensures multiset(s)[x] <= 1
  {
    if s != [] {
      assert s == [s[0]] + s[1..];
      DistinctOnceInMultiset(s[1..], x);
      if x == s[0] {
        assert x !in s[1..];
      }
    }
  }

  lemma ListingLength(a: seq<Assertion>, facts: set<Assertion>, key: Assertion -> string)
    requires CanonicalListing(a, facts, key)
    ensures |a| == |facts|
  {
    forall i, j | 0 <= i < j < |a|
      ensures a[i] != a[j]
    {
      LessIrreflexive(key(a[i]));
    }
    DistinctCardinality(a);
  }

  lemma {:induction false} CanonicalListingIsUnique(
      a: seq<Assertion>, b: seq<Assertion>, facts: set<Assertion>, key: Assertion -> string)
    requires CanonicalListing(a, facts, key) && CanonicalListing(b, facts, key)
    ensures a == b
    decreases |a|
  {
    ListingLength(a, facts, key);
    ListingLength(b, facts, key);
    if a != [] {
      assert a[0] in Elements(a) && a[0] in Elements(b);
      assert b[0] in Elements(a);
      if a[0] != b[0] {
        var i :| 0 <= i < |b| && b[i] == a[0];
        var j :| 0 <= j < |a| && a[j] == b[0];
        LessAsymmetric(key(a[0]), key(b[0]));
        assert false;
      }
      TailListing(a, facts, key);
      TailListing(b, facts, key);
      CanonicalListingIsUnique(a[1..], b[1..], facts - {a[0]}, key);
    }
  }

  lemma TailListing(a: seq<Assertion>, facts: set<Assertion>, key: Assertion -> string)
    requires CanonicalListing(a, facts, key) && a != []
    ensures CanonicalListing(a[1..], facts - {a[0]}, key)
  {
    forall x | x in facts - {a[0]}
      ensures x in a[1..]
    {
      assert x in Elements(a);
      var i :| 0 <= i < |a| && a[i] == x;
      assert a[1..][i - 1] == x;
    }
    forall x | x in a[1..]
      ensures x in facts - {a[0]}
    {
      assert x in Elements(a);
      LessIrreflexive(key(a[0]));
    }
  }

  // ----- compute_closure -----

  ghost function BaseFacts(graph: seq<Assertion>, ontology: Ontology): set<Assertion> {
    Elements(graph) + LiftedFacts(ontology.terms)
  }

  /** The outcome that the closure of a graph under an ontology must have. */
  ghost function Expected(graph: seq<Assertion>, ontology: Ontology): Outcome {
    if exists term :: term in ontology.terms && NamesEmptyTerm(term) then Err(MalformedDocument)
    else ClosureOf(Elements(ontology.rules), BaseFacts(graph, ontology))
  }

  /** The listing loses nothing of the graph and nothing that the terms say. */
  ghost predicate HoldsTheBase(listing: seq<Assertion>, graph: seq<Assertion>, terms: seq<OntologyTerm>) {
    (forall a :: a in graph ==> a in listing)
    && forall fact :: SaidBy(terms, fact) ==> fact in listing
  }

  lemma ListingHoldsTheBase(
      listing: seq<Assertion>, graph: seq<Assertion>, ontology: Ontology, closed: set<Assertion>,
      key: Assertion -> string)
    requires CanonicalListing(listing, closed, key) && BaseFacts(graph, ontology) <= closed
    ensures HoldsTheBase(listing, graph, ontology.terms) && |listing| == |closed|
  {
    ListingLength(listing, closed, key);
    LiftedExactly(ontology.terms);
    forall a | a in BaseFacts(graph, ontology)
      ensures a in listing
    {
      assert a in Elements(listing);
    }
  }

  method ClimbLevels(rules: seq<Rule>, heights: Heights, top: nat, collection: seq<Assertion>)
    returns (result: Result<seq<Assertion>, ErrorKind>)
    requires Distinct(collection) && |Elements(collection)| == |collection| <= MAX_CLOSURE_ASSERTIONS
    ensures result.Ok? ==> Distinct(result.value) && |result.value| <= MAX_CLOSURE_ASSERTIONS
    ensures result.Ok? ==> Climb(Elements(rules), heights, 0, top, Elements(collection)) == Ok(Elements(result.value))
    ensures result.Err? ==> Climb(Elements(rules), heights, 0, top, Elements(collection)) == Err(result.error)
  {
    var current := collection;
    for level := 0 to top + 1
      invariant Distinct(current) && |Elements(current)| == |current| <= MAX_CLOSURE_ASSERTIONS
      invariant Climb(Elements(rules), heights, 0, top, Elements(collection))
        == Climb(Elements(rules), heights, level, top, Elements(current))
    {
      var levelRules := SelectLevel(rules, heights, level);
      var saturated := SaturateLevel(levelRules, current);
      ghost var first := ClimbGoesOn(Elements(rules), heights, level, top, Elements(current));
      if saturated.Err? {
        return saturated;
      }
      current := saturated.value;
      DistinctCardinality(current);
    }
    return Ok(current);
  }

  /**
   compute_closure: the outcome is the reference outcome of the sets of assertions
   and rules, listed by canonical key. The key stands for the canonical JSON bytes.
   */
  method ComputeClosure(graph: seq<Assertion>, ontology: Ontology, key: Assertion -> string)
    returns (result: Result<seq<Assertion>, ErrorKind>)
    requires Injective(key)
    ensures result.Err? ==> Expected(graph, ontology) == Err(result.error)
    ensures result.Ok? ==>
      Expected(graph, ontology).Ok? && CanonicalListing(result.value, Expected(graph, ontology).value, key)
    ensures result.Ok? ==> HoldsTheBase(result.value, graph, ontology.terms) && |result.value| <= 100_000
    ensures SayTheEmptyName(ontology.terms) ==> result == Err(MalformedDocument)
  {
    var lifted := OntologyFacts(ontology.terms);
    LiftedExactly(ontology.terms);
    if lifted.Err? {
      return Err(lifted.error);
    }
    var collection := Deduplicate(graph + lifted.value);
    assert Elements(graph + lifted.value) == BaseFacts(graph, ontology);
    DistinctCardinality(collection);
    if |collection| > MAX_CLOSURE_ASSERTIONS {
      return Err(ClosureOverflow);
    }
    var predicates := (set a | a in collection :: a.p)
      + (set rule | rule in ontology.rules :: rule.head.p)
      + set rule, atom | rule in ontology.rules && atom in rule.body :: atom.p;
    var rules := ontology.rules;
    var stratum := Stratify(rules, predicates);
    StratifiableExactly(Elements(rules));
    if stratum.None? {
      return Err(MalformedDocument);
    }
    var top := MaxHeight(stratum.value);
    ClosureByAnyLeastHeights(Elements(rules), stratum.value, top, Elements(collection));
    var closed := ClimbLevels(rules, stratum.value, top, collection);
    if closed.Err? {
      return Err(closed.error);
    }
    ClimbExtends(Elements(rules), stratum.value, 0, top, Elements(collection));
    var listing := SortedByKey(closed.value, key);
    DistinctCardinality(closed.value);
    ListingHoldsTheBase(listing, graph, ontology, Elements(closed.value), key);
    return Ok(listing);
  }
}
