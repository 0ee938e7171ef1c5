/**
 The facts, patterns and rules of an ontology fragment, and the join that
 evaluates one rule body: unification, matching, negation and head instantiation.
 */
module Rules {
  import opened Wrappers
  import opened Names

  // A literal's value is its canonical JSON text; two values agree when their texts do.
  datatype Obj = Term(name: string) | Literal(kind: string, value: string)

  datatype Assertion = Assertion(s: string, p: string, o: Obj)

  datatype Pattern = Var(name: string) | Constant(name: string) | Lit(kind: string, value: string)

  datatype RuleAtom = RuleAtom(s: Pattern, p: string, o: Pattern, negated: bool)

  datatype Rule = Rule(id: string, head: RuleAtom, body: seq<RuleAtom>)

  type Bindings = map<string, Obj>

  const WILDCARD := "_"

  function PatternVars(pattern: Pattern): set<string> {
    if pattern.Var? && pattern.name != WILDCARD then {pattern.name} else {}
  }

  function AtomVars(atom: RuleAtom): set<string> {
    PatternVars(atom.s) + PatternVars(atom.o)
  }

  function AllVars(atoms: seq<RuleAtom>): set<string> {
    if atoms == [] then {} else AtomVars(atoms[0]) + AllVars(atoms[1..])
  }

  /** The atoms of a body with the given sign, in body order. */
  function Signed(body: seq<RuleAtom>, negated: bool): (atoms: seq<RuleAtom>)
    ensures forall atom :: atom in atoms <==> atom in body && atom.negated == negated
  {
    if body == [] then []
    else
      var rest := Signed(body[1..], negated);
      if body[0].negated == negated then [body[0]] + rest else rest
  }

  /** What the constructors of a rule enforce about its shape. */
  ghost predicate ValidRule(rule: Rule) {
    && !rule.head.negated
    && rule.body != []
    && AtomVars(rule.head) <= AllVars(Signed(rule.body, false))
    && !rule.head.s.Lit?
    && forall atom :: atom in rule.body ==> !atom.s.Lit?
  }

  // ----- what a pattern means under a complete substitution -----

  predicate Fits(pattern: Pattern, value: Obj, b: Bindings) {
    match pattern
    case Var(x) => x == WILDCARD || (x in b && b[x] == value)
    case Constant(name) => value == Term(name)
    case Lit(kind, text) => value == Literal(kind, text)
  }

  predicate FitsAtom(atom: RuleAtom, fact: Assertion, b: Bindings) {
    atom.p == fact.p && Fits(atom.s, Term(fact.s), b) && Fits(atom.o, fact.o, b)
  }

  ghost predicate Extends(b: Bindings, c: Bindings) {
    forall x :: x in b ==> x in c && c[x] == b[x]
  }

  ghost predicate SomeFactFits(atom: RuleAtom, facts: set<Assertion>, b: Bindings) {
    exists fact :: fact in facts && FitsAtom(atom, fact, b)
  }

  /** The atom has an instance among the facts; its unbound variables are existential. */
  ghost predicate SomeInstanceFits(atom: RuleAtom, facts: set<Assertion>, b: Bindings) {
    exists c :: Extends(b, c) && SomeFactFits(atom, facts, c)
  }

  /**
   The declarative meaning of a rule body: b binds exactly the named variables of
   the positive atoms, every positive atom is a fact, no negated atom has an instance.
   */
  ghost predicate IsSolution(rule: Rule, facts: set<Assertion>, b: Bindings) {
    && b.Keys == AllVars(Signed(rule.body, false))
    && (forall atom :: atom in rule.body && !atom.negated ==> SomeFactFits(atom, facts, b))
    && (forall atom :: atom in rule.body && atom.negated ==> !SomeInstanceFits(atom, facts, b))
  }

  // ----- unification as the program performs it -----

  function Unify(pattern: Pattern, value: Obj, b: Bindings): Option<Bindings> {
    match pattern
    case Var(x) =>
      if x == WILDCARD then Some(b)
      else if x !in b then Some(b[x := value])
      else if b[x] == value then Some(b)
      else None
    case Constant(name) => if value == Term(name) then Some(b) else None
    case Lit(kind, text) => if value == Literal(kind, text) then Some(b) else None
  }

  function MatchAtom(atom: RuleAtom, fact: Assertion, b: Bindings): Option<Bindings> {
    if atom.p != fact.p then None
    else
      match Unify(atom.s, Term(fact.s), b)
      case None => None
      case Some(b') => Unify(atom.o, fact.o, b')
  }

  /** Unification finds the least extension under which the pattern fits, if there is one. */
  lemma UnifyIsLeast(pattern: Pattern, value: Obj, b: Bindings, c: Bindings)
    ensures Unify(pattern, value, b).Some? ==>
      var b' := Unify(pattern, value, b).value;
      Extends(b, b') && b'.Keys == b.Keys + PatternVars(pattern) && Fits(pattern, value, b')
    ensures Extends(b, c) && Fits(pattern, value, c) ==>
      Unify(pattern, value, b).Some? && Extends(Unify(pattern, value, b).value, c)
  {
  }

  lemma FitsMonotone(pattern: Pattern, value: Obj, b: Bindings, c: Bindings)
    requires Extends(b, c) && Fits(pattern, value, b)
    ensures Fits(pattern, value, c)
  {
  }

  /** Matching an atom finds the least extension under which the atom is that fact. */
  lemma MatchAtomIsLeast(atom: RuleAtom, fact: Assertion, b: Bindings, c: Bindings)
    ensures MatchAtom(atom, fact, b).Some? ==>
      var b' := MatchAtom(atom, fact, b).value;
      Extends(b, b') && b'.Keys == b.Keys + AtomVars(atom) && FitsAtom(atom, fact, b')
    ensures Extends(b, c) && FitsAtom(atom, fact, c) ==>
      MatchAtom(atom, fact, b).Some? && Extends(MatchAtom(atom, fact, b).value, c)
  {
    UnifyIsLeast(atom.s, Term(fact.s), b, c);
    match Unify(atom.s, Term(fact.s), b)
    case None =>
    case Some(b') =>
      UnifyIsLeast(atom.o, fact.o, b', c);
      match Unify(atom.o, fact.o, b') {
        case None =>
        case Some(b'') => FitsMonotone(atom.s, Term(fact.s), b', b'');
      }
  }

  // ----- the join -----

  /** All ways to extend b so that every atom is a fact, taking the atoms in order. */
  ghost function Join(atoms: seq<RuleAtom>, facts: set<Assertion>, b: Bindings): set<Bindings>
    decreases |atoms|
  {
    if atoms == [] then {b}
    else
      set fact, c |
        fact in facts && MatchAtom(atoms[0], fact, b).Some?
        && c in Join(atoms[1..], facts, MatchAtom(atoms[0], fact, b).value) :: c
  }

  lemma {:induction false} JoinIsExact(atoms: seq<RuleAtom>, facts: set<Assertion>, b: Bindings, c: Bindings)
    ensures c in Join(atoms, facts, b) <==>
      && Extends(b, c) && c.Keys == b.Keys + AllVars(atoms)
      && forall atom :: atom in atoms ==> SomeFactFits(atom, facts, c)
    decreases |atoms|
  {
    if atoms == [] {
      if Extends(b, c) && c.Keys == b.Keys { assert b == c; }
    } else {
      if c in Join(atoms, facts, b) {
        var fact :| fact in facts && MatchAtom(atoms[0], fact, b).Some?
          && c in Join(atoms[1..], facts, MatchAtom(atoms[0], fact, b).value);
        var b' := MatchAtom(atoms[0], fact, b).value;
        MatchAtomIsLeast(atoms[0], fact, b, c);
        JoinIsExact(atoms[1..], facts, b', c);
        FitsMonotone(atoms[0].s, Term(fact.s), b', c);
        FitsMonotone(atoms[0].o, fact.o, b', c);
        assert SomeFactFits(atoms[0], facts, c);
      }
      if && Extends(b, c) && c.Keys == b.Keys + AllVars(atoms)
         && forall atom :: atom in atoms ==> SomeFactFits(atom, facts, c)
      {
        assert atoms[0] in atoms;
        var fact :| fact in facts && FitsAtom(atoms[0], fact, c);
        MatchAtomIsLeast(atoms[0], fact, b, c);
        JoinIsExact(atoms[1..], facts, MatchAtom(atoms[0], fact, b).value, c);
      }
    }
  }

  ghost predicate NegatedHolds(atom: RuleAtom, facts: set<Assertion>, b: Bindings) {
    exists fact :: fact in facts && MatchAtom(atom, fact, b).Some?
  }

  lemma NegatedHoldsIsExact(atom: RuleAtom, facts: set<Assertion>, b: Bindings)
    ensures NegatedHolds(atom, facts, b) <==> SomeInstanceFits(atom, facts, b)
  {
    if NegatedHolds(atom, facts, b) {
      var fact :| fact in facts && MatchAtom(atom, fact, b).Some?;
      MatchAtomIsLeast(atom, fact, b, b);
      assert SomeFactFits(atom, facts, MatchAtom(atom, fact, b).value);
    }
    if SomeInstanceFits(atom, facts, b) {
      var c :| Extends(b, c) && SomeFactFits(atom, facts, c);
      var fact :| fact in facts && FitsAtom(atom, fact, c);
      MatchAtomIsLeast(atom, fact, b, c);
    }
  }

  ghost predicate Passes(negatives: seq<RuleAtom>, facts: set<Assertion>, b: Bindings) {
    forall atom :: atom in negatives ==> !NegatedHolds(atom, facts, b)
  }

  ghost function Solutions(rule: Rule, facts: set<Assertion>): set<Bindings> {
    set b | b in Join(Signed(rule.body, false), facts, map[]) && Passes(Signed(rule.body, true), facts, b)
  }

  /** The join is sound and complete: it finds exactly the declared solutions. */
  lemma SolutionsAreExact(rule: Rule, facts: set<Assertion>, b: Bindings)
    ensures b in Solutions(rule, facts) <==> IsSolution(rule, facts, b)
  {
    JoinIsExact(Signed(rule.body, false), facts, map[], b);
    forall atom | atom in rule.body
      ensures NegatedHolds(atom, facts, b) <==> SomeInstanceFits(atom, facts, b)
    {
      NegatedHoldsIsExact(atom, facts, b);
    }
  }

  // ----- the head -----

  function ResolveSubject(pattern: Pattern, b: Bindings): Option<string> {
    match pattern
    case Constant(name) => Some(name)
    case Var(x) => if x in b && b[x].Term? then Some(b[x].name) else None
    case Lit(_, _) => None
  }

  function ResolveObject(pattern: Pattern, b: Bindings): Option<Obj> {
    match pattern
    case Constant(name) => Some(Term(name))
    case Lit(kind, text) => Some(Literal(kind, text))
    case Var(x) => if x in b then Some(b[x]) else None
  }

  /** The instance of the head, or None for the malformed-document error. */
  function Derive(head: RuleAtom, b: Bindings): Option<Assertion> {
    match ResolveSubject(head.s, b)
    case None => None
    case Some(subject) =>
      match ResolveObject(head.o, b)
      case None => None
      case Some(obj) => Some(Assertion(subject, head.p, obj))
  }

  /** A derived fact is the head read under the solution. */
  lemma DeriveFits(head: RuleAtom, b: Bindings)
    requires WILDCARD !in b
    ensures Derive(head, b).Some? ==> FitsAtom(head, Derive(head, b).value, b)
    ensures forall fact ::
      FitsAtom(head, fact, b) && head.s != Var(WILDCARD) && head.o != Var(WILDCARD)
      ==> Derive(head, b) == Some(fact)
  {
  }

  lemma {:induction false} NoWildcardVar(atoms: seq<RuleAtom>)
    ensures WILDCARD !in AllVars(atoms)
  {
    if atoms != [] { NoWildcardVar(atoms[1..]); }
  }

  /**
   A rule the constructors accept still fails to derive in exactly two cases: the
   head holds a wildcard (which range restriction does not forbid), or the head's
   subject variable is bound to a literal.
   */
  lemma ValidRuleFailsExactly(rule: Rule, facts: set<Assertion>, b: Bindings)
    requires ValidRule(rule) && IsSolution(rule, facts, b)
    ensures Derive(rule.head, b).None? <==>
      || rule.head.s == Var(WILDCARD)
      || rule.head.o == Var(WILDCARD)
      || (rule.head.s.Var? && rule.head.s.name in b && b[rule.head.s.name].Literal?)
  {
    NoWildcardVar(Signed(rule.body, false));
    if rule.head.s.Var? && rule.head.s.name != WILDCARD {
      assert rule.head.s.name in AtomVars(rule.head);
    }
    if rule.head.o.Var? && rule.head.o.name != WILDCARD {
      assert rule.head.o.name in AtomVars(rule.head);
    }
  }

  /** A solution carries over when positive facts survive and negated ones do not appear. */
  lemma SolutionTransfers(rule: Rule, facts: set<Assertion>, other: set<Assertion>, b: Bindings)
    requires IsSolution(rule, facts, b)
    requires forall a, atom :: a in facts && atom in rule.body && !atom.negated && a.p == atom.p ==> a in other
    requires forall a, atom :: a in other && atom in rule.body && atom.negated && a.p == atom.p ==> a in facts
    ensures IsSolution(rule, other, b)
  {
    forall atom | atom in rule.body && !atom.negated
      ensures SomeFactFits(atom, other, b)
    {
      var fact :| fact in facts && FitsAtom(atom, fact, b);
      assert fact in other;
    }
  }

  // ----- the program's own form: a mutable dictionary of bindings -----

  /** The bindings dictionary that unification writes into. */
  class Env {
    var b: Bindings

    constructor (b: Bindings)
      ensures this.b == b
    {
      this.b := b;
    }

    method UnifyInto(pattern: Pattern, value: Obj) returns (ok: bool)
      modifies this
      ensures ok == Unify(pattern, value, old(b)).Some?
      ensures ok ==> b == Unify(pattern, value, old(b)).value
      ensures !ok ==> b == old(b)
    {
      if pattern.Var? {
        if pattern.name == WILDCARD {
          return true;
        }
        if pattern.name !in b {
          b := b[pattern.name := value];
          return true;
        }
        return b[pattern.name] == value;
      }
      if pattern.Constant? {
        return value.Term? && value.name == pattern.name;
      }
      return value.Literal? && value.kind == pattern.kind && value.value == pattern.value;
    }

    /** On failure the dictionary may be left holding the subject's binding. */
    method AtomMatches(atom: RuleAtom, fact: Assertion) returns (ok: bool)
      modifies this
      ensures ok == MatchAtom(atom, fact, old(b)).Some?
      ensures ok ==> b == MatchAtom(atom, fact, old(b)).value
      ensures !ok ==> Extends(old(b), b)
    {
      if atom.p != fact.p {
        return false;
      }
      ok := UnifyInto(atom.s, Term(fact.s));
      if !ok {
        return false;
      }
      ok := UnifyInto(atom.o, fact.o);
    }
  }

  method AnyMatch(atom: RuleAtom, facts: seq<Assertion>, bindings: Env) returns (holds: bool)
    ensures holds <==> NegatedHolds(atom, Elements(facts), bindings.b)
  {
    for i := 0 to |facts|
      invariant forall j :: 0 <= j < i ==> MatchAtom(atom, facts[j], bindings.b).None?
    {
      var copy := new Env(bindings.b);
      var ok := copy.AtomMatches(atom, facts[i]);
      if ok {
        return true;
      }
    }
    return false;
  }

  method Recurse(
      positives: seq<RuleAtom>, negatives: seq<RuleAtom>, facts: seq<Assertion>,
      index: nat, bindings: Env, results: seq<Bindings>)
    returns (results': seq<Bindings>)
    requires index <= |positives|
    ensures Elements(results') == Elements(results) +
      set b | b in Join(positives[index..], Elements(facts), bindings.b) && Passes(negatives, Elements(facts), b)
    decreases |positives| - index
  {
    var all := Elements(facts);
    if index == |positives| {
      for i := 0 to |negatives|
        invariant forall j :: 0 <= j < i ==> !NegatedHolds(negatives[j], all, bindings.b)
      {
        var holds := AnyMatch(negatives[i], facts, bindings);
        if holds {
          assert negatives[i] in negatives;
          assert !Passes(negatives, all, bindings.b);
          return results;
        }
      }
      assert Passes(negatives, all, bindings.b);
      return results + [bindings.b];
    }
    var atom := positives[index];
    results' := results;
    for i := 0 to |facts|
      invariant Elements(results') == Elements(results) +
        set fact, b |
          fact in facts[..i] && MatchAtom(atom, fact, bindings.b).Some?
          && b in Join(positives[index + 1..], all, MatchAtom(atom, fact, bindings.b).value)
          && Passes(negatives, all, b) :: b
    {
      var extended := new Env(bindings.b);
      var ok := extended.AtomMatches(atom, facts[i]);
      assert facts[..i + 1] == facts[..i] + [facts[i]];
      if ok {
        results' := Recurse(positives, negatives, facts, index + 1, extended, results');
      }
    }
    assert facts[..|facts|] == facts;
    assert positives[index..][0] == atom && positives[index..][1..] == positives[index + 1..];
  }

  /** The bindings of one rule over a snapshot: sound, complete, and leak-free. */
  method RuleBindings(rule: Rule, facts: seq<Assertion>) returns (results: seq<Bindings>)
    ensures Elements(results) == Solutions(rule, Elements(facts))
    ensures forall b :: b in results <==> IsSolution(rule, Elements(facts), b)
  {
    var positives := Signed(rule.body, false);
    var negatives := Signed(rule.body, true);
    var empty := new Env(map[]);
    results := Recurse(positives, negatives, facts, 0, empty, []);
    assert positives[0..] == positives;
    forall b
      ensures b in results <==> IsSolution(rule, Elements(facts), b)
    {
      SolutionsAreExact(rule, Elements(facts), b);
      assert b in results <==> b in Elements(results);
    }
  }
}
