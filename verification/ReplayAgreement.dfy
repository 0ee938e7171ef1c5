/** One operation issued on a tree and again on its replay: exactly when both do the same. */
module ReplayAgreement {
  import opened Wrappers
  import P = Ports
  import opened AgentMachine
  import opened AgentTraces
  import opened Driver

  // ----- agents that behave alike -----

  /** Alike but for what they remember under correlation ids, and what is registered. */
  ghost predicate Alike(o: State, f: State) {
    && o.identity == f.identity && o.alive && f.alive && o.verifier == f.verifier && o.guard == f.guard
    && o.children == f.children && o.childKinds == f.childKinds
  }

  /** What a step left alone. */
  ghost predicate KeptAlike(o: State, f: State, o': State, f': State) {
    Alike(o', f') && o'.registry == o.registry && f'.registry == f.registry
  }

  predicate SameName(o: State, f: State, name: string) {
    ResolveCallable(o.registry, name) == ResolveCallable(f.registry, name)
  }

  /** Nothing is remembered under an id numbered above n. */
  ghost predicate Unused(s: State, n: nat) {
    CacheOk(s) && forall cid :: cid in s.usedKeys ==> SeqOf(cid) <= n
  }

  predicate NewTo(s: State, d: Directive) {
    d.cid !in s.usedKeys && d !in s.results
  }

  function Last(step: Step): Effect
    requires step.effects != []
  {
    step.effects[|step.effects| - 1]
  }

  function VerifierNames(verifier: Option<string>): set<string> {
    if verifier.Some? then {verifier.value} else {}
  }

  /** The names a run looks up on the agent that handles it. */
  function UsedNames(s: State, run: RunPayload): set<string> {
    (if run.task.Some? then {run.task.value} else {}) + VerifierNames(VerifierFor(s, run))
  }

  ghost predicate SameAnswer(r: Response, q: Response, d: Directive, e: Directive) {
    && r.cid == d.cid && q.cid == e.cid && r.(cid := "") == q.(cid := "")
    && (r.kind.ResultResponse? || r.kind.ErrorResponse?) && (r.kind.ResultResponse? <==> r.verified)
  }

  /** Both steps end in the same answer, or neither sends one. */
  ghost predicate SameEnd(a: Step, b: Step, d: Directive, e: Directive) {
    && a.effects != [] && b.effects != [] && Last(a).Sent? == Last(b).Sent?
    && (if Last(a).Sent? then SameAnswer(Last(a).response, Last(b).response, d, e)
        else Last(a).Invoked? && Last(b).Invoked?)
  }

  lemma VerdictsAgree(world: World, o: State, f: State, verifier: Option<string>, value: Value)
    requires verifier.Some? ==> SameName(o, f, verifier.value)
    ensures Verify(world, o.registry, verifier, value) == Verify(world, f.registry, verifier, value)
  {
  }

  lemma AnswersAgree(world: World, o: State, f: State, d: Directive, e: Directive, name: string, value: Value)
    requires d.body.Run? && d.body == e.body && Alike(o, f)
    requires VerifierFor(o, d.body.run).Some? ==> SameName(o, f, VerifierFor(o, d.body.run).value)
    ensures var a, b := Answer(world, o, d, name, value), Answer(world, f, e, name, value);
      KeptAlike(o, f, a.state, b.state) && SameEnd(a, b, d, e)
  {
    VerdictsAgree(world, o, f, VerifierFor(o, d.body.run), value);
  }

  lemma RefusalsAgree(o: State, f: State, d: Directive, e: Directive)
    requires d.body.Run? && d.body == e.body && Alike(o, f) && NewTo(o, d) && NewTo(f, e)
    ensures RunRefusal(o, d) == RunRefusal(f, e) && RunRefusal(o, d) != Some(ReusedId)
  {
  }

  /** The same run, new to both agents, ends the same and leaves them alike when they agree on its names. */
  lemma RunsAgree(world: World, o: State, f: State, d: Directive, e: Directive)
    requires d.body.Run? && d.body == e.body && Alike(o, f) && NewTo(o, d) && NewTo(f, e)
    requires forall name :: name in UsedNames(o, d.body.run) ==> SameName(o, f, name)
    ensures var a, b := RunStep(world, o, d), RunStep(world, f, e);
      KeptAlike(o, f, a.state, b.state) && SameEnd(a, b, d, e)
  {
    RefusalsAgree(o, f, d, e);
    var run := d.body.run;
    if RunRefusal(o, d).None? {
      assert run.task.value in UsedNames(o, run);
      var callable := ResolveCallable(o.registry, run.task.value);
      assert SameName(o, f, run.task.value);
      if callable.Some? && world.run(callable.value, run.args).Returned? {
        var value := world.run(callable.value, run.args).value;
        AnswersAgree(world, Charged(o, false), Charged(f, false), d, e, run.task.value, value);
      }
    }
  }

  // ----- trees that behave alike -----

  ghost predicate SameKid(o: State, f: State) {
    Alike(o, f) && o.registry == f.registry
  }

  ghost predicate SameKids(o: map<string, State>, f: map<string, State>) {
    o.Keys == f.Keys && forall k :: k in o ==> SameKid(o[k], f[k])
  }

  /** The same tree, but for what its agents remember under correlation ids. */
  ghost predicate Mirrors(o: Tree, f: Tree) {
    o.catalog == f.catalog && SameKid(o.root, f.root) && SameKids(o.kids, f.kids)
  }

  lemma MirrorsJoin(o: Tree, m: Tree, f: Tree)
    requires Mirrors(o, m) && Mirrors(m, f)
    ensures Mirrors(o, f)
  {
    forall k | k in o.kids
      ensures SameKid(o.kids[k], f.kids[k])
    {
      assert SameKid(o.kids[k], m.kids[k]) && SameKid(m.kids[k], f.kids[k]);
    }
  }

  ghost predicate UnusedTree(t: Tree, n: nat) {
    Unused(t.root, n) && forall k :: k in t.kids ==> Unused(t.kids[k], n)
  }

  /** An id new to the root and to every child. */
  ghost predicate NewId(t: Tree, cid: string) {
    cid != "" && NewToAgent(t.root, cid) && forall k :: k in t.kids ==> NewToAgent(t.kids[k], cid)
  }

  ghost predicate NewToAgent(s: State, cid: string) {
    cid !in s.usedKeys && forall d :: d in s.results ==> d.cid != cid
  }

  lemma ChangedKidsAreSame(o: map<string, State>, f: map<string, State>, child: string, a: State, b: State)
    requires SameKids(o, f) && SameKid(a, b)
    ensures SameKids(o[child := a], f[child := b])
  {
  }

  // ----- a run on two trees that mirror each other -----

  /** A delegated run: the child runs the stripped directive and the root drains its answer. */
  lemma DelegatedShape(world: World, t: Tree, d: Directive, child: string)
    requires d.body.Run? && NamedChild(d) == Some(child) && child in t.root.children && child in t.kids
    ensures var below := RunStep(world, t.kids[child], Stripped(d));
      var root, kids := Delegating(t.root, d.cid, child), t.kids[child := below.state];
      RunTree(world, t, d.cid, d.body.run) ==
        if below.effects == [] || !Last(below).Sent? then (t.(root := root, kids := kids), None)
        else
          var up := DrainStep(world, root, child, Message(Last(below).response));
          (t.(root := up.state, kids := kids), Answered(up))
  {
    assert d == Directive(d.cid, Run(d.body.run));
  }

  lemma RefusedShape(world: World, t: Tree, d: Directive, child: string)
    requires d.body.Run? && NamedChild(d) == Some(child) && !(child in t.root.children && child in t.kids)
    ensures RunTree(world, t, d.cid, d.body.run) ==
      if child in t.root.children then (t.(root := Delegating(t.root, d.cid, child)), None)
      else (t, Some(Outcome(ErrorResponse, P.Null, Some(UnknownChild(child)))))
  {
    assert d == Directive(d.cid, Run(d.body.run));
  }

  lemma LocalShape(world: World, t: Tree, d: Directive)
    requires d.body.Run? && NamedChild(d).None?
    ensures var step := RunStep(world, t.root, d);
      RunTree(world, t, d.cid, d.body.run) == (t.(root := step.state), Answered(step))
  {
    assert d == Directive(d.cid, Run(d.body.run));
  }

  /** The same child's answer, drained by two roots that resolve the root's verifier alike. */
  lemma RelaysAgree(
      world: World, o: State, f: State, child: string, r: Response, q: Response, d: Directive, e: Directive)
    requires SameKid(o, f) && SameAnswer(r, q, d, e) && d.cid != "" && e.cid != ""
    requires d.cid in o.delegated && e.cid in f.delegated
    ensures Answered(DrainStep(world, o, child, Message(r))) == Answered(DrainStep(world, f, child, Message(q)))
  {
  }

  lemma KidsRunAlike(world: World, o: Tree, f: Tree, d: Directive, e: Directive, child: string)
    requires d.body.Run? && d.body == e.body && child in o.kids && SameKids(o.kids, f.kids)
    requires NewId(o, d.cid) && NewId(f, e.cid)
    ensures var a, b := RunStep(world, o.kids[child], Stripped(d)), RunStep(world, f.kids[child], Stripped(e));
      SameKid(a.state, b.state) && SameEnd(a, b, d, e)
  {
    assert SameKid(o.kids[child], f.kids[child]);
    RunsAgree(world, o.kids[child], f.kids[child], Stripped(d), Stripped(e));
  }

  lemma LocalRunsMirror(world: World, o: Tree, f: Tree, d: Directive, e: Directive)
    requires Mirrors(o, f) && NewId(o, d.cid) && NewId(f, e.cid)
    requires d.body.Run? && d.body == e.body && NamedChild(d).None?
    ensures var (o', outcome), (f', outcome') :=
      RunTree(world, o, d.cid, d.body.run), RunTree(world, f, e.cid, e.body.run);
      Mirrors(o', f') && outcome' == outcome
  {
    RunsAgree(world, o.root, f.root, d, e);
    LocalShape(world, o, d);
    LocalShape(world, f, e);
  }

  /** From what the child did on each side to what the tree did. */
  lemma RelayedRunsMirror(
      world: World, o: Tree, f: Tree, d: Directive, e: Directive, child: string, a: Step, b: Step)
    requires Mirrors(o, f) && d.cid != "" && e.cid != "" && SameKid(a.state, b.state) && SameEnd(a, b, d, e)
    requires Last(a).Sent?
    ensures var up := DrainStep(world, Delegating(o.root, d.cid, child), child, Message(Last(a).response));
      var up' := DrainStep(world, Delegating(f.root, e.cid, child), child, Message(Last(b).response));
      && Answered(up') == Answered(up)
      && Mirrors(o.(root := up.state, kids := o.kids[child := a.state]),
           f.(root := up'.state, kids := f.kids[child := b.state]))
  {
    ChangedKidsAreSame(o.kids, f.kids, child, a.state, b.state);
    DrainLeaves(world, Delegating(o.root, d.cid, child), child, Message(Last(a).response));
    DrainLeaves(world, Delegating(f.root, e.cid, child), child, Message(Last(b).response));
    RelaysAgree(world, Delegating(o.root, d.cid, child), Delegating(f.root, e.cid, child), child,
      Last(a).response, Last(b).response, d, e);
  }

  lemma DelegatedRunsMirror(world: World, o: Tree, f: Tree, d: Directive, e: Directive, child: string)
    requires Mirrors(o, f) && NewId(o, d.cid) && NewId(f, e.cid)
    requires d.body.Run? && d.body == e.body && NamedChild(d) == Some(child)
    requires child in o.root.children && child in o.kids
    ensures var (o', outcome), (f', outcome') :=
      RunTree(world, o, d.cid, d.body.run), RunTree(world, f, e.cid, e.body.run);
      Mirrors(o', f') && outcome' == outcome
  {
    KidsRunAlike(world, o, f, d, e, child);
    DelegatedShape(world, o, d, child);
    DelegatedShape(world, f, e, child);
    var a, b := RunStep(world, o.kids[child], Stripped(d)), RunStep(world, f.kids[child], Stripped(e));
    if Last(a).Sent? {
      RelayedRunsMirror(world, o, f, d, e, child, a, b);
    } else {
      ChangedKidsAreSame(o.kids, f.kids, child, a.state, b.state);
    }
  }

  /** The same run under new ids, on two trees that mirror each other: one outcome, and they still do. */
  lemma RunTreesMirror(world: World, o: Tree, f: Tree, d: Directive, e: Directive)
    requires Mirrors(o, f) && NewId(o, d.cid) && NewId(f, e.cid) && d.body.Run? && d.body == e.body
    ensures var (o', outcome), (f', outcome') :=
      RunTree(world, o, d.cid, d.body.run), RunTree(world, f, e.cid, e.body.run);
      Mirrors(o', f') && outcome' == outcome
  {
    match NamedChild(d)
    case None => LocalRunsMirror(world, o, f, d, e);
    case Some(child) =>
      if child in o.root.children && child in o.kids {
        DelegatedRunsMirror(world, o, f, d, e, child);
      } else {
        RefusedShape(world, o, d, child);
        RefusedShape(world, f, e, child);
      }
  }

  // ----- what a run's answer rests on -----

  /**
   The names that the answer to a run handled here rests on. A refusal rests on none, a raise
   on the task, and a rejection on the task but not the verifier.
   */
  function LocalNeeds(world: World, s: State, d: Directive): (names: set<string>)
    requires d.body.Run?
    ensures names != {} ==> d.body.run.task.Some?
  {
    if RunRefusal(s, d).Some? then {}
    else
      var name := d.body.run.task.value;
      match ResolveCallable(s.registry, name)
      case None => {}
      case Some(callable) =>
        match world.run(callable, d.body.run.args)
        case TaskRaised(_) => {name}
        case Returned(value) =>
          var verifier := VerifierFor(s, d.body.run);
          {name} + if Verify(world, s.registry, verifier, value) == Rejects then {} else VerifierNames(verifier)
  }

  /** And of the root's names, the answer to a run that a child handles: the verifier, for a verified value. */
  function RelayNeeds(world: World, root: State, below: Step): set<string> {
    if && below.effects != [] && Last(below).Sent? && Last(below).response.verified
       && Verify(world, root.registry, root.verifier, Last(below).response.value) != Rejects
    then VerifierNames(root.verifier) else {}
  }

  function Needs(world: World, t: Tree, d: Directive): (names: set<string>)
    requires d.body.Run?
    ensures names != {} && NamedChild(d).None? ==> d.body.run.task.Some?
  {
    match NamedChild(d)
    case None => LocalNeeds(world, t.root, d)
    case Some(child) =>
      if child in t.root.children && child in t.kids then
        RelayNeeds(world, t.root, RunStep(world, t.kids[child], Stripped(d)))
      else {}
  }

  /** The root's names that a run may look up. */
  function LookedUp(root: State, d: Directive): set<string>
    requires d.body.Run?
  {
    if NamedChild(d).Some? then VerifierNames(root.verifier) else UsedNames(root, d.body.run)
  }

  function ErrorOf(reason: Reason): Option<Outcome> {
    Some(Outcome(ErrorResponse, P.Null, Some(reason)))
  }

  /**
   What a local run answers once only the granted names are known: the same, if the answer
   rests on those; otherwise the task is unknown, or the missing verifier rejects.
   */
  function ExpectedHere(world: World, s: State, d: Directive, granted: set<string>): Option<Outcome>
    requires d.body.Run?
  {
    if LocalNeeds(world, s, d) <= granted then Answered(RunStep(world, s, d))
    else
      var name := d.body.run.task.value;
      ErrorOf(if name in granted then VerificationFailed(name) else UnknownTask(name))
  }

  /** The same of any run: a value relayed without its verifier is demoted. */
  function Expected(world: World, t: Tree, d: Directive, granted: set<string>): Option<Outcome>
    requires d.body.Run?
  {
    match NamedChild(d)
    case None => ExpectedHere(world, t.root, d, granted)
    case Some(child) =>
      if Needs(world, t, d) <= granted then RunTree(world, t, d.cid, d.body.run).1 else ErrorOf(Demoted(child))
  }

  // ----- the tree cut down to what was granted -----

  function Entries(catalog: map<string, Entry>, granted: set<string>): map<string, Entry> {
    map name | name in catalog && name in granted :: catalog[name]
  }

  function CutRoot(s: State, catalog: map<string, Entry>, granted: set<string>): State {
    s.(registry := Entries(catalog, granted))
  }

  /** The tree over a catalog, its root knowing the granted names only. */
  function Cut(t: Tree, catalog: map<string, Entry>, granted: set<string>): Tree {
    Tree(catalog, CutRoot(t.root, catalog, granted), t.kids)
  }

  /** A replay that has come this far mirrors the recorded tree so cut. */
  ghost predicate Equivalent(o: Tree, f: Tree, catalog: map<string, Entry>, granted: set<string>) {
    Mirrors(Cut(o, catalog, granted), f)
  }

  /** Granted names mean in the catalog what they mean here. */
  ghost predicate Settled(
      registry: map<string, Entry>, catalog: map<string, Entry>, granted: set<string>, names: set<string>)
  {
    forall name :: name in names && name in granted ==>
      ResolveCallable(catalog, name) == ResolveCallable(registry, name)
  }

  lemma CutResolves(
      registry: map<string, Entry>, catalog: map<string, Entry>, granted: set<string>, names: set<string>, name: string)
    requires Settled(registry, catalog, granted, names) && name in names
    ensures ResolveCallable(Entries(catalog, granted), name) ==
      if name in granted then ResolveCallable(registry, name) else None
  {
  }

  /** A verifier that is missing rejects. */
  lemma CutVerdict(world: World, registry: map<string, Entry>, catalog: map<string, Entry>, granted: set<string>,
      verifier: Option<string>, value: Value)
    requires Settled(registry, catalog, granted, VerifierNames(verifier))
    ensures Verify(world, Entries(catalog, granted), verifier, value) ==
      if VerifierNames(verifier) <= granted then Verify(world, registry, verifier, value) else Rejects
  {
    if verifier.Some? { CutResolves(registry, catalog, granted, VerifierNames(verifier), verifier.value); }
  }

  lemma SettledPart(registry: map<string, Entry>, catalog: map<string, Entry>, granted: set<string>,
      names: set<string>, part: set<string>)
    requires Settled(registry, catalog, granted, names) && part <= names
    ensures Settled(registry, catalog, granted, part)
  {
  }

  lemma CutJudges(world: World, s: State, catalog: map<string, Entry>, granted: set<string>,
      d: Directive, name: string, value: Value)
    requires d.body.Run? && Settled(s.registry, catalog, granted, VerifierNames(VerifierFor(s, d.body.run)))
    ensures var verifier := VerifierFor(s, d.body.run);
      var known := VerifierNames(verifier) <= granted || Verify(world, s.registry, verifier, value) == Rejects;
      Answered(Answer(world, CutRoot(s, catalog, granted), d, name, value)) ==
        if known then Answered(Answer(world, s, d, name, value)) else ErrorOf(VerificationFailed(name))
  {
    CutVerdict(world, s.registry, catalog, granted, VerifierFor(s, d.body.run), value);
  }

  /** The task was granted and returned: the verifier decides. */
  lemma CutReturns(world: World, s: State, catalog: map<string, Entry>, granted: set<string>,
      d: Directive, callable: Callable, value: Value)
    requires d.body.Run? && NewTo(s, d) && RunRefusal(s, d).None? && d.body.run.task.value in granted
    requires Settled(s.registry, catalog, granted, UsedNames(s, d.body.run))
    requires ResolveCallable(s.registry, d.body.run.task.value) == Some(callable)
    requires world.run(callable, d.body.run.args) == Returned(value)
    ensures Answered(RunStep(world, CutRoot(s, catalog, granted), d)) == ExpectedHere(world, s, d, granted)
  {
    var name := d.body.run.task.value;
    CutResolves(s.registry, catalog, granted, UsedNames(s, d.body.run), name);
    SettledPart(s.registry, catalog, granted, UsedNames(s, d.body.run), VerifierNames(VerifierFor(s, d.body.run)));
    CutJudges(world, Charged(s, false), catalog, granted, d, name, value);
    assert RunStep(world, s, d) == Answer(world, Charged(s, false), d, name, value);
    assert RunStep(world, CutRoot(s, catalog, granted), d) ==
      Answer(world, CutRoot(Charged(s, false), catalog, granted), d, name, value);
  }

  lemma CutRefuses(world: World, s: State, catalog: map<string, Entry>, granted: set<string>, d: Directive)
    requires d.body.Run? && NewTo(s, d) && RunRefusal(s, d).Some?
    ensures Answered(RunStep(world, CutRoot(s, catalog, granted), d)) == ExpectedHere(world, s, d, granted)
  {
  }

  lemma CutMissesTask(world: World, s: State, catalog: map<string, Entry>, granted: set<string>, d: Directive)
    requires d.body.Run? && NewTo(s, d) && RunRefusal(s, d).None?
    requires ResolveCallable(Entries(catalog, granted), d.body.run.task.value).None?
    requires ResolveCallable(s.registry, d.body.run.task.value).Some? ==> d.body.run.task.value !in granted
    ensures Answered(RunStep(world, CutRoot(s, catalog, granted), d)) == ExpectedHere(world, s, d, granted)
  {
  }

  lemma CutRaises(world: World, s: State, catalog: map<string, Entry>, granted: set<string>,
      d: Directive, callable: Callable)
    requires d.body.Run? && NewTo(s, d) && RunRefusal(s, d).None? && d.body.run.task.value in granted
    requires ResolveCallable(s.registry, d.body.run.task.value) == Some(callable)
      == ResolveCallable(Entries(catalog, granted), d.body.run.task.value)
    requires world.run(callable, d.body.run.args).TaskRaised?
    ensures Answered(RunStep(world, CutRoot(s, catalog, granted), d)) == ExpectedHere(world, s, d, granted)
  {
  }

  /** The answer to a local run on the cut root is the expected one. */
  lemma CutAnswersHere(world: World, s: State, catalog: map<string, Entry>, granted: set<string>, d: Directive)
    requires d.body.Run? && NewTo(s, d) && Settled(s.registry, catalog, granted, UsedNames(s, d.body.run))
    ensures Answered(RunStep(world, CutRoot(s, catalog, granted), d)) == ExpectedHere(world, s, d, granted)
  {
    if RunRefusal(s, d).Some? {
      CutRefuses(world, s, catalog, granted, d);
    } else {
      var name := d.body.run.task.value;
      var callable := ResolveCallable(s.registry, name);
      CutResolves(s.registry, catalog, granted, UsedNames(s, d.body.run), name);
      if callable.None? || name !in granted {
        CutMissesTask(world, s, catalog, granted, d);
      } else {
        match world.run(callable.value, d.body.run.args)
        case TaskRaised(_) => CutRaises(world, s, catalog, granted, d, callable.value);
        case Returned(value) => CutReturns(world, s, catalog, granted, d, callable.value, value);
      }
    }
  }

  /** The answer a child sends, as a response the root can read. */
  lemma ChildAnswers(world: World, s: State, d: Directive)
    requires d.body.Run? && NewTo(s, d) && d.cid != ""
    ensures var step := RunStep(world, s, d);
      step.effects != [] && (Last(step).Sent? ==>
        ValidResponse(Last(step).response) && Last(step).response.cid == d.cid)
  {
  }

  /** The answer to a child's response on the cut root: demoted when its verifier is missing. */
  lemma CutRelays(world: World, s: State, catalog: map<string, Entry>, granted: set<string>, child: string, below: Step)
    requires below.effects != [] && Last(below).Sent? && ValidResponse(Last(below).response)
    requires Last(below).response.cid in s.delegated && Settled(s.registry, catalog, granted, VerifierNames(s.verifier))
    ensures Answered(DrainStep(world, CutRoot(s, catalog, granted), child, Message(Last(below).response))) ==
      if RelayNeeds(world, s, below) <= granted then
        Answered(DrainStep(world, s, child, Message(Last(below).response)))
      else ErrorOf(Demoted(child))
  {
    CutVerdict(world, s.registry, catalog, granted, s.verifier, Last(below).response.value);
  }

  lemma CutDelegates(
      world: World, t: Tree, catalog: map<string, Entry>, granted: set<string>, d: Directive, child: string)
    requires d.body.Run? && NewId(t, d.cid) && NamedChild(d) == Some(child)
    requires child in t.root.children && child in t.kids
    requires Settled(t.root.registry, catalog, granted, VerifierNames(t.root.verifier))
    ensures RunTree(world, Cut(t, catalog, granted), d.cid, d.body.run).1 == Expected(world, t, d, granted)
  {
    var below := RunStep(world, t.kids[child], Stripped(d));
    DelegatedShape(world, t, d, child);
    DelegatedShape(world, Cut(t, catalog, granted), d, child);
    ChildAnswers(world, t.kids[child], Stripped(d));
    if Last(below).Sent? { CutRelays(world, Delegating(t.root, d.cid, child), catalog, granted, child, below); }
  }

  /** What a new run answers on the cut tree is what is expected of it. */
  lemma CutAnswersAsExpected(world: World, t: Tree, catalog: map<string, Entry>, granted: set<string>, d: Directive)
    requires d.body.Run? && NewId(t, d.cid) && Settled(t.root.registry, catalog, granted, LookedUp(t.root, d))
    ensures RunTree(world, Cut(t, catalog, granted), d.cid, d.body.run).1 == Expected(world, t, d, granted)
  {
    match NamedChild(d)
    case None =>
      LocalShape(world, t, d);
      LocalShape(world, Cut(t, catalog, granted), d);
      CutAnswersHere(world, t.root, catalog, granted, d);
    case Some(child) =>
      if child in t.root.children && child in t.kids {
        CutDelegates(world, t, catalog, granted, d, child);
      } else {
        RefusedShape(world, t, d, child);
        RefusedShape(world, Cut(t, catalog, granted), d, child);
      }
  }

  /** An answered run is expected to answer the same exactly when what its answer rests on was granted. */
  lemma ExpectedSameExactly(world: World, t: Tree, d: Directive, granted: set<string>)
    requires d.body.Run? && NewId(t, d.cid) && RunTree(world, t, d.cid, d.body.run).1.Some?
    ensures Expected(world, t, d, granted) == RunTree(world, t, d.cid, d.body.run).1
      <==> Needs(world, t, d) <= granted
  {
    match NamedChild(d)
    case None =>
      LocalShape(world, t, d);
      if !(LocalNeeds(world, t.root, d) <= granted) { MissedIsNoticed(world, t.root, d, granted); }
    case Some(child) =>
      if child in t.root.children && child in t.kids {
        DelegatedShape(world, t, d, child);
        ChildAnswers(world, t.kids[child], Stripped(d));
      } else {
        RefusedShape(world, t, d, child);
      }
  }

  lemma MissedIsNoticed(world: World, s: State, d: Directive, granted: set<string>)
    requires d.body.Run? && NewTo(s, d) && !(LocalNeeds(world, s, d) <= granted)
    ensures var name := d.body.run.task.value;
      Answered(RunStep(world, s, d)) != ErrorOf(if name in granted then VerificationFailed(name) else UnknownTask(name))
  {
  }

  // ----- the tree after a run, whatever its arguments -----

  /** A run that is not refused resolves its task. */
  predicate Attempts(s: State, run: RunPayload) {
    run.task.Some? && Refusal(s, false).None? && ResolveCallable(s.registry, run.task.value).Some?
  }

  function GuardAfterRun(s: State, run: RunPayload): Option<Guard> {
    if Attempts(s, run) then Charged(s, false).guard else s.guard
  }

  /** A new run changes the guard and what is remembered, the guard by its task alone. */
  lemma RunLeaves(world: World, s: State, d: Directive)
    requires d.body.Run? && NewTo(s, d)
    ensures var t := RunStep(world, s, d).state;
      t == s.(guard := GuardAfterRun(s, d.body.run), results := t.results, usedKeys := t.usedKeys)
  {
    if RunRefusal(s, d).None? && Attempts(s, d.body.run) {
      AttemptLeaves(world, s, d, ResolveCallable(s.registry, d.body.run.task.value).value);
    }
  }

  lemma AttemptLeaves(world: World, s: State, d: Directive, callable: Callable)
    requires d.body.Run? && NewTo(s, d) && RunRefusal(s, d).None?
    requires ResolveCallable(s.registry, d.body.run.task.value) == Some(callable)
    ensures var t := RunStep(world, s, d).state;
      t == Charged(s, false).(results := t.results, usedKeys := t.usedKeys)
  {
  }

  /** The root attempts the run with its granted names exactly when it does with all of them. */
  predicate AttemptKept(root: State, catalog: map<string, Entry>, granted: set<string>, d: Directive)
    requires d.body.Run?
  {
    NamedChild(d).None? ==> (Attempts(root, d.body.run) <==> Attempts(CutRoot(root, catalog, granted), d.body.run))
  }

  predicate SameButArgs(d: Directive, e: Directive) {
    d.body.Run? && e.body.Run? && e == d.(body := Run(d.body.run.(args := e.body.run.args)))
  }

  ghost predicate AllAlive(t: Tree) {
    t.root.alive && forall k :: k in t.kids ==> t.kids[k].alive
  }

  lemma LocalRunKeepsCut(
      world: World, t: Tree, catalog: map<string, Entry>, granted: set<string>, d: Directive, e: Directive)
    requires SameButArgs(d, e) && NewId(t, d.cid) && AllAlive(t) && NamedChild(d).None?
    requires AttemptKept(t.root, catalog, granted, d)
    ensures Mirrors(Cut(RunTree(world, t, d.cid, d.body.run).0, catalog, granted),
      RunTree(world, Cut(t, catalog, granted), e.cid, e.body.run).0)
  {
    LocalShape(world, t, d);
    LocalShape(world, Cut(t, catalog, granted), e);
    RunLeaves(world, t.root, d);
    RunLeaves(world, CutRoot(t.root, catalog, granted), e);
  }

  lemma DelegatedLeaves(world: World, t: Tree, d: Directive, child: string)
    requires d.body.Run? && NamedChild(d) == Some(child) && child in t.root.children && child in t.kids
    ensures var t' := RunTree(world, t, d.cid, d.body.run).0;
      && t'.catalog == t.catalog && t'.kids == t.kids[child := RunStep(world, t.kids[child], Stripped(d)).state]
      && t'.root == t.root.(delegated := t'.root.delegated)
  {
    DelegatedShape(world, t, d, child);
    var below := RunStep(world, t.kids[child], Stripped(d));
    if below.effects != [] && Last(below).Sent? {
      DrainLeaves(world, Delegating(t.root, d.cid, child), child, Message(Last(below).response));
    }
  }

  lemma DelegatedRunKeepsCut(
      world: World, t: Tree, catalog: map<string, Entry>, granted: set<string>, d: Directive, e: Directive,
      child: string)
    requires SameButArgs(d, e) && NewId(t, d.cid) && NamedChild(d) == Some(child)
    requires child in t.root.children && child in t.kids && AllAlive(t)
    ensures Mirrors(Cut(RunTree(world, t, d.cid, d.body.run).0, catalog, granted),
      RunTree(world, Cut(t, catalog, granted), e.cid, e.body.run).0)
  {
    DelegatedLeaves(world, t, d, child);
    DelegatedLeaves(world, Cut(t, catalog, granted), e, child);
    RunLeaves(world, t.kids[child], Stripped(d));
    RunLeaves(world, t.kids[child], Stripped(e));
    ChangedKidsAreSame(t.kids, t.kids, child,
      RunStep(world, t.kids[child], Stripped(d)).state, RunStep(world, t.kids[child], Stripped(e)).state);
  }

  /** A run, and the same run with other arguments on the cut tree: what is left is cut the same. */
  lemma RunKeepsCut(
      world: World, t: Tree, catalog: map<string, Entry>, granted: set<string>, d: Directive, e: Directive)
    requires SameButArgs(d, e) && NewId(t, d.cid) && AttemptKept(t.root, catalog, granted, d) && AllAlive(t)
    ensures Mirrors(Cut(RunTree(world, t, d.cid, d.body.run).0, catalog, granted),
      RunTree(world, Cut(t, catalog, granted), e.cid, e.body.run).0)
  {
    match NamedChild(d)
    case None => LocalRunKeepsCut(world, t, catalog, granted, d, e);
    case Some(child) =>
      if child in t.root.children && child in t.kids {
        DelegatedRunKeepsCut(world, t, catalog, granted, d, e, child);
      } else {
        RefusedShape(world, t, d, child);
        RefusedShape(world, Cut(t, catalog, granted), e, child);
      }
  }

  /** An answered run that is expected to answer the same was attempted alike. */
  lemma SameAnswerKeepsAttempt(
      world: World, t: Tree, catalog: map<string, Entry>, granted: set<string>, d: Directive, e: Directive)
    requires SameButArgs(d, e) && NewId(t, d.cid) && Settled(t.root.registry, catalog, granted, LookedUp(t.root, d))
    requires RunTree(world, t, d.cid, d.body.run).1.Some?
    requires Expected(world, t, e, granted) == RunTree(world, t, d.cid, d.body.run).1
    ensures AttemptKept(t.root, catalog, granted, d)
  {
    if NamedChild(d).None? {
      LocalShape(world, t, d);
      if Attempts(t.root, d.body.run) { AttemptedIsKnown(world, t.root, d, e, granted); }
    }
  }

  lemma AttemptedIsKnown(world: World, s: State, d: Directive, e: Directive, granted: set<string>)
    requires SameButArgs(d, e) && NewTo(s, d) && NewTo(s, e) && NamedChild(d).None? && Attempts(s, d.body.run)
    requires ExpectedHere(world, s, e, granted) == Answered(RunStep(world, s, d))
    ensures d.body.run.task.value in granted
  {
  }

  // ----- configure -----

  predicate AllIn(names: seq<string>, catalog: map<string, Entry>) {
    forall i :: 0 <= i < |names| ==> names[i] in catalog
  }

  /** The names before the first unknown one: a failing configure registers those. */
  function Copied(names: seq<string>, catalog: map<string, Entry>): set<string> {
    if names == [] || names[0] !in catalog then {} else {names[0]} + Copied(names[1..], catalog)
  }

  /** Every entry is the catalog's. */
  ghost predicate Drawn(registry: map<string, Entry>, catalog: map<string, Entry>) {
    forall name :: name in registry ==> name in catalog && registry[name] == catalog[name]
  }

  lemma {:induction false} RegisterAllCopies(
      registry: map<string, Entry>, names: seq<string>, catalog: map<string, Entry>)
    requires Drawn(registry, catalog)
    ensures var after := RegisterAll(registry, names, catalog).0;
      Drawn(after, catalog) && after.Keys == registry.Keys + Copied(names, catalog)
    decreases |names|
  {
    if names != [] && names[0] in catalog {
      RegisterAllCopies(registry[names[0] := catalog[names[0]]], names[1..], catalog);
    }
  }

  lemma {:induction false} RegisterAllFails(
      registry: map<string, Entry>, names: seq<string>, catalog: map<string, Entry>)
    ensures RegisterAll(registry, names, catalog).1.None? <==> AllIn(names, catalog)
    decreases |names|
  {
    if names != [] && names[0] in catalog {
      RegisterAllFails(registry[names[0] := catalog[names[0]]], names[1..], catalog);
      assert names == [names[0]] + names[1..];
      assert AllIn(names[1..], catalog) == AllIn(names, catalog);
    }
  }

  /** What a caller can check of a configure: valid bounds, and only names that are registered. */
  predicate Succeeds(c: ConfigurePayload, catalog: map<string, Entry>) {
    GoodEnvelope(c) && AllIn(c.tasks, catalog) && AllIn(c.verifiers, catalog)
  }

  /** The names that a configure registers, whether or not it goes through. */
  function Provisioned(catalog: map<string, Entry>, c: ConfigurePayload): set<string> {
    if !GoodEnvelope(c) then {}
    else Copied(c.tasks, catalog) + if AllIn(c.tasks, catalog) then Copied(c.verifiers, catalog) else {}
  }

  lemma ConfigureFails(s: State, c: ConfigurePayload, catalog: map<string, Entry>)
    ensures ConfigureStep(s, c, catalog).1.None? <==> Succeeds(c, catalog)
  {
    RegisterAllFails(s.registry, c.tasks, catalog);
    RegisterAllFails(RegisterAll(s.registry, c.tasks, catalog).0, c.verifiers, catalog);
  }

  lemma ConfiguredRegistry(s: State, c: ConfigurePayload, catalog: map<string, Entry>)
    requires Drawn(s.registry, catalog)
    ensures var (step, failure) := ConfigureStep(s, c, catalog);
      && (failure.None? <==> Succeeds(c, catalog))
      && Drawn(step.state.registry, catalog)
      && step.state.registry.Keys == s.registry.Keys + Provisioned(catalog, c)
  {
    ConfigureFails(s, c, catalog);
    RegisterAllFails(s.registry, c.tasks, catalog);
    RegisterAllCopies(s.registry, c.tasks, catalog);
    if AllIn(c.tasks, catalog) {
      RegisterAllCopies(RegisterAll(s.registry, c.tasks, catalog).0, c.verifiers, catalog);
    }
  }

  lemma {:induction false} CopiedAreCataloged(names: seq<string>, catalog: map<string, Entry>)
    ensures Copied(names, catalog) <= catalog.Keys
    decreases |names|
  {
    if names != [] { CopiedAreCataloged(names[1..], catalog); }
  }

  function GuardAfter(guard: Option<Guard>, c: ConfigurePayload): Option<Guard> {
    match c.envelope
    case None => guard
    case Some(None) => Some(Guard(None, 0, 0))
    case Some(Some(e)) => if ValidEnvelope(e) then Some(Guard(Some(e), 0, 0)) else guard
  }

  function VerifierAfter(verifier: Option<string>, c: ConfigurePayload): Option<string> {
    if !GoodEnvelope(c) then verifier
    else if c.clearVerifier then None else if c.verifier.Some? then c.verifier else verifier
  }

  lemma GrantShape(s: State, c: ConfigurePayload)
    ensures Grant(s, c).Some? <==> GoodEnvelope(c)
    ensures Grant(s, c).Some? ==> Grant(s, c).value.state == s.(guard := GuardAfter(s.guard, c))
  {
  }

  lemma ConfiguredState(s: State, c: ConfigurePayload, catalog: map<string, Entry>)
    ensures var t := ConfigureStep(s, c, catalog).0.state;
      t == s.(guard := GuardAfter(s.guard, c), verifier := VerifierAfter(s.verifier, c), registry := t.registry)
  {
    GrantShape(s, c);
  }

  lemma SameRegistryAfter(o: State, f: State, c: ConfigurePayload, catalog: map<string, Entry>)
    requires o.registry == f.registry
    ensures ConfigureStep(o, c, catalog).0.state.registry == ConfigureStep(f, c, catalog).0.state.registry
    ensures ConfigureStep(o, c, catalog).1 == ConfigureStep(f, c, catalog).1
  {
    GrantShape(o, c);
    GrantShape(f, c);
  }

  lemma ConfiguresMirror(o: State, f: State, c: ConfigurePayload, catalog: map<string, Entry>)
    requires SameKid(o, f)
    ensures SameKid(ConfigureStep(o, c, catalog).0.state, ConfigureStep(f, c, catalog).0.state)
    ensures ConfigureStep(o, c, catalog).1 == ConfigureStep(f, c, catalog).1
  {
    ConfiguredState(o, c, catalog);
    ConfiguredState(f, c, catalog);
    SameRegistryAfter(o, f, c, catalog);
  }

  /** Granting more names to a cut root. */
  lemma EntriesGrow(
      registry: map<string, Entry>, catalog: map<string, Entry>, granted: set<string>, more: set<string>)
    requires Drawn(registry, catalog) && registry.Keys == Entries(catalog, granted).Keys + more && more <= catalog.Keys
    ensures registry == Entries(catalog, granted + more)
  {
    assert registry.Keys == Entries(catalog, granted + more).Keys;
  }

  /** A configure of the cut root, by the catalog it is cut to, grants it what the configure registers. */
  lemma ConfigureKeepsCut(
      world: World, t: Tree, catalog: map<string, Entry>, granted: set<string>, cid: string, c: ConfigurePayload)
    requires AllAlive(t)
    ensures Mirrors(Cut(Issue(world, t, cid, ConfigureRoot(c)).0, catalog, granted + Provisioned(catalog, c)),
      Issue(world, Cut(t, catalog, granted), cid, ConfigureRoot(c)).0)
  {
    var root := CutRoot(t.root, catalog, granted);
    ConfiguredState(t.root, c, t.catalog);
    ConfiguredState(root, c, catalog);
    ConfiguredRegistry(root, c, catalog);
    CopiedAreCataloged(c.tasks, catalog);
    CopiedAreCataloged(c.verifiers, catalog);
    EntriesGrow(ConfigureStep(root, c, catalog).0.state.registry, catalog, granted, Provisioned(catalog, c));
  }

  /** Every name is known, and to both catalogs as the same. */
  predicate AllSame(names: seq<string>, ours: map<string, Entry>, theirs: map<string, Entry>) {
    forall i :: 0 <= i < |names| ==>
      names[i] in ours && names[i] in theirs && ours[names[i]] == theirs[names[i]]
  }

  lemma {:induction false} RegisterAllSame(
      registry: map<string, Entry>, names: seq<string>, ours: map<string, Entry>, theirs: map<string, Entry>)
    requires AllSame(names, ours, theirs)
    ensures RegisterAll(registry, names, ours) == RegisterAll(registry, names, theirs)
    decreases |names|
  {
    if names != [] {
      assert AllSame(names[1..], ours, theirs);
      RegisterAllSame(registry[names[0] := ours[names[0]]], names[1..], ours, theirs);
    }
  }

  predicate ConfiguresSame(c: ConfigurePayload, ours: map<string, Entry>, theirs: map<string, Entry>) {
    AllSame(c.tasks, ours, theirs) && AllSame(c.verifiers, ours, theirs)
  }

  lemma ConfigureStepSame(s: State, c: ConfigurePayload, ours: map<string, Entry>, theirs: map<string, Entry>)
    requires ConfiguresSame(c, ours, theirs)
    ensures ConfigureStep(s, c, ours) == ConfigureStep(s, c, theirs)
  {
    RegisterAllSame(s.registry, c.tasks, ours, theirs);
    RegisterAllSame(RegisterAll(s.registry, c.tasks, ours).0, c.verifiers, ours, theirs);
  }

  lemma ChildConfigureKeepsCut(
      world: World, t: Tree, catalog: map<string, Entry>, granted: set<string>, cid: string, op: Op)
    requires op.ConfigureChild? && AllAlive(t)
    requires op.identity in t.kids ==> ConfiguresSame(op.configure, t.catalog, catalog)
    ensures Mirrors(Cut(Issue(world, t, cid, op).0, catalog, granted),
      Issue(world, Cut(t, catalog, granted), cid, op).0)
  {
    if op.identity in t.kids {
      ConfigureStepSame(t.kids[op.identity], op.configure, t.catalog, catalog);
      ConfiguredState(t.kids[op.identity], op.configure, t.catalog);
    }
  }

  // ----- spawn -----

  /** What a spawn changes depends on the guard, the children and the kinds alone. */
  lemma SpawnShape(world: World, s: State, d: Directive)
    requires d.body.Spawn?
    ensures var t := SpawnStep(world, s, d).state; t == s.(guard := t.guard, children := t.children)
  {
  }

  lemma SpawnsAgree(world: World, o: State, f: State, d: Directive, e: Directive)
    requires d.body.Spawn? && d.body == e.body && Alike(o, f)
    ensures KeptAlike(o, f, SpawnStep(world, o, d).state, SpawnStep(world, f, e).state)
  {
    SpawnShape(world, o, d);
    SpawnShape(world, f, e);
    assert Refusal(o, true) == Refusal(f, true) && Charged(o, true).guard == Charged(f, true).guard;
    assert SpawnRefusal(world, o, d) == SpawnRefusal(world, f, e);
  }

  lemma SpawnsMirror(world: World, o: Tree, f: Tree, cid: string, cid': string, op: Op)
    requires Mirrors(o, f) && op.SpawnChild?
    ensures Mirrors(Issue(world, o, cid, op).0, Issue(world, f, cid', op).0)
  {
    var body := Spawn(op.identity, op.endpoint, op.kind);
    SpawnsAgree(world, o.root, f.root, Directive(cid, body), Directive(cid', body));
  }

  lemma SpawnKeepsCut(world: World, t: Tree, catalog: map<string, Entry>, granted: set<string>, cid: string, op: Op)
    requires op.SpawnChild? && AllAlive(t)
    ensures Mirrors(Cut(Issue(world, t, cid, op).0, catalog, granted),
      Issue(world, Cut(t, catalog, granted), cid, op).0)
  {
    var d := Directive(cid, Spawn(op.identity, op.endpoint, op.kind));
    SpawnsAgree(world, t.root, CutRoot(t.root, catalog, granted), d, d);
  }

  // ----- any operation -----

  lemma ChildConfiguresMirror(world: World, o: Tree, f: Tree, cid: string, cid': string, op: Op)
    requires Mirrors(o, f) && op.ConfigureChild?
    ensures Mirrors(Issue(world, o, cid, op).0, Issue(world, f, cid', op).0)
  {
    if op.identity in o.kids {
      assert SameKid(o.kids[op.identity], f.kids[op.identity]);
      ConfiguresMirror(o.kids[op.identity], f.kids[op.identity], op.configure, o.catalog);
    }
  }

  /** Any operation, under new ids on two trees that mirror each other: they still do, and a run answers the same. */
  lemma IssuesMirror(world: World, o: Tree, f: Tree, cid: string, cid': string, op: Op)
    requires Mirrors(o, f) && NewId(o, cid) && NewId(f, cid') && !op.Register?
    ensures Mirrors(Issue(world, o, cid, op).0, Issue(world, f, cid', op).0)
    ensures op.RunTask? ==> Issue(world, f, cid', op).1 == Issue(world, o, cid, op).1
  {
    match op
    case ConfigureRoot(c) => ConfiguresMirror(o.root, f.root, c, o.catalog);
    case ConfigureChild(_, _) => ChildConfiguresMirror(world, o, f, cid, cid', op);
    case SpawnChild(_, _, _) => SpawnsMirror(world, o, f, cid, cid', op);
    case RunTask(run) => RunTreesMirror(world, o, f, Directive(cid, Run(run)), Directive(cid', Run(run)));
    case AskRoot(_) =>
  }

  function Grants(catalog: map<string, Entry>, op: Op): set<string> {
    if op.ConfigureRoot? then Provisioned(catalog, op.configure) else {}
  }

  /** What an operation needs for the tree to stay cut to the catalog. */
  predicate Keeps(t: Tree, catalog: map<string, Entry>, granted: set<string>, op: Op) {
    match op
    case ConfigureChild(child, c) => child in t.kids ==> ConfiguresSame(c, t.catalog, catalog)
    case RunTask(run) => AttemptKept(t.root, catalog, granted, Directive("", Run(run)))
    case _ => true
  }

  /** An operation, and the same with a run's arguments changed on the cut tree, leave trees that mirror so cut. */
  lemma IssueKeepsCut(
      world: World, t: Tree, catalog: map<string, Entry>, granted: set<string>, cid: string, op: Op, again: Op)
    requires NewId(t, cid) && AllAlive(t) && Keeps(t, catalog, granted, op) && !op.Register?
    requires again == op || (op.RunTask? && again.RunTask? && again.run == op.run.(args := again.run.args))
    ensures Mirrors(Cut(Issue(world, t, cid, op).0, catalog, granted + Grants(catalog, op)),
      Issue(world, Cut(t, catalog, granted), cid, again).0)
  {
    assert op.ConfigureRoot? || granted + Grants(catalog, op) == granted;
    match op
    case ConfigureRoot(c) => ConfigureKeepsCut(world, t, catalog, granted, cid, c);
    case ConfigureChild(_, _) => ChildConfigureKeepsCut(world, t, catalog, granted, cid, op);
    case SpawnChild(_, _, _) => SpawnKeepsCut(world, t, catalog, granted, cid, op);
    case RunTask(run) =>
      RunKeepsCut(world, t, catalog, granted, Directive(cid, Run(run)), Directive(cid, Run(again.run)));
    case AskRoot(_) =>
  }
}
