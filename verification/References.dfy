/**
 Resolving a composite component: a depth-first walk over reference children that
 lists the components leaves first and fails closed on a reference cycle or on
 anything that does not resolve.
 */
module References {
  import opened Names
  import opened Digraph

  datatype ChildRef = Embed(target: string) | Ref(target: string)

  /** What a verified bundle says: its declared children, and the embedded ones it really holds. */
  datatype Bundle = Bundle(children: seq<ChildRef>, embedded: set<string>)

  datatype ResolvedNode = ResolvedNode(name: string, children: seq<ChildRef>)

  /** The finite lock and the bundles that resolve, are cached and parse. */
  datatype Registry = Registry(lock: set<string>, bundles: map<string, Bundle>)

  ghost predicate ChildResolves(registry: Registry, bundle: Bundle, child: ChildRef) {
    match child
    case Ref(target) => target in registry.lock
    case Embed(target) => target in bundle.embedded
  }

  ghost predicate Resolves(registry: Registry, name: string) {
    && name in registry.lock && name in registry.bundles
    && forall child :: child in registry.bundles[name].children ==>
      ChildResolves(registry, registry.bundles[name], child)
  }

  /** (parent, child): a resolving parent refers to the child. */
  ghost function References(registry: Registry): Edges {
    set name, child |
      name in registry.lock && name in registry.bundles && child in registry.bundles[name].children && child.Ref?
      :: (name, child.target)
  }

  /** Why a component itself is refused: it, or something it declares, is not there. */
  ghost predicate Faulty(registry: Registry, name: string) {
    || name !in registry.lock || name !in registry.bundles
    || (exists target :: Ref(target) in registry.bundles[name].children && target !in registry.lock)
    || exists target :: Embed(target) in registry.bundles[name].children && target !in registry.bundles[name].embedded
  }

  lemma FaultyExactly(registry: Registry, name: string, target: string)
    ensures Resolves(registry, name) <==> !Faulty(registry, name)
    ensures (name, target) in References(registry) <==>
      name in registry.lock && name in registry.bundles && Ref(target) in registry.bundles[name].children
  {
    if name in registry.bundles {
      forall child | child in registry.bundles[name].children
        ensures ChildResolves(registry, registry.bundles[name], child) <==>
          (child.Ref? ==> child.target in registry.lock)
          && (child.Embed? ==> child.target in registry.bundles[name].embedded)
      {
      }
      forall child | child in registry.bundles[name].children && !Faulty(registry, name)
        ensures ChildResolves(registry, registry.bundles[name], child)
      {
        assert child == Ref(child.target) || child == Embed(child.target);
      }
    }
  }

  ghost predicate Reachable(registry: Registry, root: string, name: string) {
    ReachesOrIs(References(registry), root, name)
  }

  /** Something at or below a name does not resolve or lies on a cycle. */
  ghost predicate Broken(registry: Registry, root: string) {
    exists name :: Reachable(registry, root, name)
      && (!Resolves(registry, name) || Reaches(References(registry), name, name))
  }

  /** Every listed component resolves, and its references are listed before it. */
  ghost predicate LeavesFirst(registry: Registry, order: seq<string>) {
    && Distinct(order)
    && (forall name :: name in order ==> Resolves(registry, name))
    && forall p, c :: (p, c) in References(registry) && p in order ==> Before(order, c, p)
  }

  lemma BeforeExtends(order: seq<string>, more: seq<string>, u: string, v: string)
    requires Before(order, u, v) && order <= more
    ensures Before(more, u, v)
  {
    var i, j :| 0 <= i < j < |order| && order[i] == u && order[j] == v;
    assert more[i] == u && more[j] == v;
  }

  lemma LeavesFirstAppend(registry: Registry, order: seq<string>, name: string)
    requires LeavesFirst(registry, order) && name !in order && Resolves(registry, name)
    requires forall c :: (name, c) in References(registry) ==> c in order
    ensures LeavesFirst(registry, order + [name])
  {
    forall p, c | (p, c) in References(registry) && p in order + [name]
      ensures Before(order + [name], c, p)
    {
      if p in order {
        BeforeExtends(order, order + [name], c, p);
      } else {
        var i :| 0 <= i < |order| && order[i] == c;
        assert (order + [name])[i] == c && (order + [name])[|order|] == p;
      }
    }
  }

  lemma {:induction false} WalkGoesBack(registry: Registry, order: seq<string>, walk: seq<string>, i: nat, j: nat)
    requires LeavesFirst(registry, order) && IsWalk(References(registry), walk)
    requires i < |order| && j < |order| && order[i] == walk[0] && order[j] == walk[|walk| - 1]
    ensures j < i
    decreases |walk|
  {
    assert (walk[0], walk[1]) in References(registry);
    assert Before(order, walk[1], walk[0]);
    var b, a :| 0 <= b < a < |order| && order[b] == walk[1] && order[a] == walk[0];
    DistinctIndex(order, i, a);
    if |walk| > 2 {
      WalkGoesBack(registry, order, walk[1..], b, j);
    } else {
      DistinctIndex(order, b, j);
    }
  }

  /** A listing that is closed under references reaches nothing outside itself. */
  lemma {:induction false} WalkStaysListed(registry: Registry, order: seq<string>, walk: seq<string>)
    requires LeavesFirst(registry, order) && IsWalk(References(registry), walk) && walk[0] in order
    ensures walk[|walk| - 1] in order
    decreases |walk|
  {
    assert (walk[0], walk[1]) in References(registry);
    assert Before(order, walk[1], walk[0]);
    if |walk| > 2 { WalkStaysListed(registry, order, walk[1..]); }
  }

  lemma ListedIsSound(registry: Registry, order: seq<string>, root: string)
    requires LeavesFirst(registry, order) && root in order
    ensures !Broken(registry, root)
    ensures forall name :: Reachable(registry, root, name) ==> name in order
  {
    forall name | Reachable(registry, root, name)
      ensures name in order && Resolves(registry, name) && !Reaches(References(registry), name, name)
    {
      if name != root {
        var walk :| WalkBetween(References(registry), walk, root, name);
        WalkStaysListed(registry, order, walk);
      }
      NoCycleThroughListed(registry, order, name);
    }
  }

  lemma NoCycleThroughListed(registry: Registry, order: seq<string>, name: string)
    requires LeavesFirst(registry, order) && name in order
    ensures !Reaches(References(registry), name, name)
  {
    if Reaches(References(registry), name, name) {
      var walk :| WalkBetween(References(registry), walk, name, name);
      var i :| 0 <= i < |order| && order[i] == name;
      WalkGoesBack(registry, order, walk, i, i);
    }
  }

  lemma BrokenBelow(registry: Registry, parent: string, child: string)
    requires (parent, child) in References(registry) && Broken(registry, child)
    ensures Broken(registry, parent)
  {
    var name :| Reachable(registry, child, name)
      && (!Resolves(registry, name) || Reaches(References(registry), name, name));
    EdgeReaches(References(registry), parent, child);
    if name != child { ReachesTransitive(References(registry), parent, child, name); }
    assert Reachable(registry, parent, name);
  }

  /** sorted(children, key=(mode, target)): embedded children first, each group by target. */
  predicate ChildAtMost(a: ChildRef, b: ChildRef) {
    if a.Embed? != b.Embed? then a.Embed? else !Less(b.target, a.target)
  }

  function InsertChild(child: ChildRef, children: seq<ChildRef>): (r: seq<ChildRef>)
    ensures multiset(r) == multiset(children) + multiset{child}
  {
    if children == [] || ChildAtMost(child, children[0]) then [child] + children
    else
      assert children == [children[0]] + children[1..];
      [children[0]] + InsertChild(child, children[1..])
  }

  function SortChildren(children: seq<ChildRef>): (r: seq<ChildRef>)
    ensures multiset(r) == multiset(children)
  {
    if children == [] then []
    else
      assert children == [children[0]] + children[1..];
      InsertChild(children[0], SortChildren(children[1..]))
  }

  lemma SortedChildren(children: seq<ChildRef>)
    ensures forall child :: child in SortChildren(children) <==> child in children
  {
    assert forall child :: child in SortChildren(children) <==> child in multiset(SortChildren(children));
    assert forall child :: child in children <==> child in multiset(children);
  }

  /** Embedded children come before referenced ones, and each kind by target. */
  predicate MayPrecede(a: ChildRef, b: ChildRef) {
    (b.Embed? ==> a.Embed?) && (a.Embed? == b.Embed? ==> !Less(b.target, a.target))
  }

  predicate InSiblingOrder(children: seq<ChildRef>) {
    forall i, j :: 0 <= i < j < |children| ==> MayPrecede(children[i], children[j])
  }

  lemma MayPrecedeTransitive(a: ChildRef, b: ChildRef, c: ChildRef)
    requires MayPrecede(a, b) && MayPrecede(b, c)
    ensures MayPrecede(a, c)
  {
    LessTotal(a.target, b.target);
    if Less(c.target, a.target) && Less(a.target, b.target) { LessTransitive(c.target, a.target, b.target); }
  }

  lemma FrontedInOrder(child: ChildRef, children: seq<ChildRef>)
    requires InSiblingOrder(children) && forall x :: x in children ==> MayPrecede(child, x)
    ensures InSiblingOrder([child] + children)
  {
  }

  lemma {:induction false} InsertedInOrder(child: ChildRef, children: seq<ChildRef>)
    requires InSiblingOrder(children)
    ensures InSiblingOrder(InsertChild(child, children))
  {
    if children == [] {
    } else if ChildAtMost(child, children[0]) {
      forall x | x in children
        ensures MayPrecede(child, x)
      {
        if x != children[0] { MayPrecedeTransitive(child, children[0], x); }
      }
      FrontedInOrder(child, children);
    } else {
      InsertedInOrder(child, children[1..]);
      if Less(child.target, children[0].target) { LessAsymmetric(child.target, children[0].target); }
      var rest := InsertChild(child, children[1..]);
      forall x | x in rest
        ensures MayPrecede(children[0], x)
      {
        assert x in multiset(rest);
        assert x == child || x in children[1..];
      }
      FrontedInOrder(children[0], rest);
    }
  }

  lemma {:induction false} SiblingsAreSorted(children: seq<ChildRef>)
    ensures InSiblingOrder(SortChildren(children))
  {
    if children != [] {
      SiblingsAreSorted(children[1..]);
      InsertedInOrder(children[0], SortChildren(children[1..]));
    }
  }

  /** The children have one listing in sibling order. */
  lemma {:induction false} SiblingOrderIsUnique(a: seq<ChildRef>, b: seq<ChildRef>)
    requires InSiblingOrder(a) && InSiblingOrder(b) && multiset(a) == multiset(b)
    ensures a == b
    decreases |a|
  {
    assert |multiset(a)| == |a| && |multiset(b)| == |b|;
    if a != [] {
      FirstSiblingsAgree(a, b);
      assert a == [a[0]] + a[1..] && b == [b[0]] + b[1..];
      assert multiset(a[1..]) == multiset(a) - multiset{a[0]};
      assert multiset(b[1..]) == multiset(b) - multiset{b[0]};
      SiblingOrderIsUnique(a[1..], b[1..]);
    }
  }

  lemma FirstSiblingsAgree(a: seq<ChildRef>, b: seq<ChildRef>)
    requires InSiblingOrder(a) && InSiblingOrder(b) && multiset(a) == multiset(b)
    requires a != [] && b != []
    ensures a[0] == b[0]
  {
    assert a[0] in multiset(b) && b[0] in multiset(a);
    var i :| 0 <= i < |b| && b[i] == a[0];
    var j :| 0 <= j < |a| && a[j] == b[0];
    LessTotal(a[0].target, b[0].target);
    assert i > 0 ==> MayPrecede(b[0], b[i]);
    assert j > 0 ==> MayPrecede(a[0], a[j]);
  }

  // ----- the one order -----

  /** The components that the children refer to, in their order. */
  function RefTargets(children: seq<ChildRef>): seq<string>
    decreases |children|
  {
    if children == [] then []
    else
      var last := children[|children| - 1];
      RefTargets(children[..|children| - 1]) + if last.Ref? then [last.target] else []
  }

  lemma {:induction false} RefTargetsMembers(children: seq<ChildRef>, c: string)
    ensures c in RefTargets(children) <==> Ref(c) in children
    decreases |children|
  {
    if children != [] {
      RefTargetsMembers(children[..|children| - 1], c);
      assert children == children[..|children| - 1] + [children[|children| - 1]];
    }
  }

  ghost function Below(registry: Registry, name: string): set<string> {
    set n | n in registry.lock && Reachable(registry, name, n)
  }

  ghost function BelowAny(registry: Registry, names: seq<string>): set<string> {
    set n | n in registry.lock && exists c :: c in names && Reachable(registry, c, n)
  }

  ghost predicate Sound(registry: Registry, names: seq<string>) {
    forall c :: c in names ==> !Broken(registry, c)
  }

  /** What a component that is not broken refers to is not broken, and lies strictly below it. */
  lemma RefsLieBelow(registry: Registry, name: string)
    requires !Broken(registry, name)
    ensures Resolves(registry, name)
    ensures var refs := RefTargets(SortChildren(registry.bundles[name].children));
      && Sound(registry, refs) && (forall c :: c in refs <==> (name, c) in References(registry))
      && name !in BelowAny(registry, refs) && |BelowAny(registry, refs)| < |Below(registry, name)|
  {
    assert Reachable(registry, name, name);
    var children := SortChildren(registry.bundles[name].children);
    ChildrenAreReferences(registry, name);
    forall c
      ensures c in RefTargets(children) <==> (name, c) in References(registry)
      ensures (name, c) in References(registry) ==> !Broken(registry, c)
    {
      RefTargetsMembers(children, c);
      if (name, c) in References(registry) && Broken(registry, c) { BrokenBelow(registry, name, c); }
    }
    var refs := RefTargets(children);
    forall n | n in BelowAny(registry, refs)
      ensures n in Below(registry, name) && n != name
    {
      var c :| c in refs && Reachable(registry, c, n);
      ReachableBelow(registry, name, c, n);
      EdgeReaches(References(registry), name, c);
      if n == name && c != n { ReachesTransitive(References(registry), name, c, name); }
    }
    assert name in Below(registry, name);
    SubsetCardinality(BelowAny(registry, refs), Below(registry, name) - {name});
  }

  lemma ListedLieBelow(registry: Registry, names: seq<string>)
    requires names != []
    ensures |BelowAny(registry, names[..|names| - 1])| <= |BelowAny(registry, names)|
    ensures |Below(registry, names[|names| - 1])| <= |BelowAny(registry, names)|
  {
    var front, last := names[..|names| - 1], names[|names| - 1];
    assert names == front + [last];
    SubsetCardinality(BelowAny(registry, front), BelowAny(registry, names));
    SubsetCardinality(Below(registry, last), BelowAny(registry, names));
  }

  /** A component after everything that it refers to, in sibling order. */
  ghost function Leafward(registry: Registry, name: string): seq<string>
    requires !Broken(registry, name)
    decreases |Below(registry, name)|, 0
  {
    RefsLieBelow(registry, name);
    Listing(registry, RefTargets(SortChildren(registry.bundles[name].children))) + [name]
  }

  /** Each of the names with what lies below it, none of them twice. */
  ghost function Listing(registry: Registry, names: seq<string>): seq<string>
    requires Sound(registry, names)
    decreases |BelowAny(registry, names)|, |names|
  {
    if names == [] then []
    else
      ListedLieBelow(registry, names);
      Joined(Listing(registry, names[..|names| - 1]), Leafward(registry, names[|names| - 1]))
  }

  lemma FirstStep(edges: Edges, u: string, v: string)
    requires Reaches(edges, u, v)
    ensures exists c :: (u, c) in edges && ReachesOrIs(edges, c, v)
  {
    var walk :| WalkBetween(edges, walk, u, v);
    assert (u, walk[1]) in edges;
    if |walk| > 2 { assert WalkBetween(edges, walk[1..], walk[1], v); }
    assert ReachesOrIs(edges, walk[1], v);
  }

  /** The order lists exactly what is reachable, each component once. */
  lemma {:induction false} LeafwardIsReachable(registry: Registry, name: string)
    requires !Broken(registry, name)
    ensures Distinct(Leafward(registry, name))
    ensures forall x :: x in Leafward(registry, name) <==> Reachable(registry, name, x)
    decreases |Below(registry, name)|, 0
  {
    RefsLieBelow(registry, name);
    var refs := RefTargets(SortChildren(registry.bundles[name].children));
    ListingIsReachable(registry, refs);
    forall x
      ensures BelowSome(registry, refs, x) <==> Reachable(registry, name, x) && x != name
    {
      StrictlyBelow(registry, name, refs, x);
    }
    assert !BelowSome(registry, refs, name);
    assert name !in Listing(registry, refs);
  }

  ghost predicate BelowSome(registry: Registry, names: seq<string>, x: string) {
    exists c :: c in names && Reachable(registry, c, x)
  }

  lemma StrictlyBelow(registry: Registry, name: string, refs: seq<string>, x: string)
    requires !Broken(registry, name) && forall c :: c in refs <==> (name, c) in References(registry)
    ensures BelowSome(registry, refs, x) <==> Reachable(registry, name, x) && x != name
  {
    assert Reachable(registry, name, name);
    if BelowSome(registry, refs, x) {
      var c :| c in refs && Reachable(registry, c, x);
      ReachableBelow(registry, name, c, x);
      EdgeReaches(References(registry), name, c);
      if x == name && c != name { ReachesTransitive(References(registry), name, c, name); }
    }
    if Reachable(registry, name, x) && x != name {
      FirstStep(References(registry), name, x);
      var c :| (name, c) in References(registry) && ReachesOrIs(References(registry), c, x);
      assert c in refs && Reachable(registry, c, x);
    }
  }

  lemma {:induction false} ListingIsReachable(registry: Registry, names: seq<string>)
    requires Sound(registry, names)
    ensures Distinct(Listing(registry, names))
    ensures forall x :: x in Listing(registry, names) <==> BelowSome(registry, names, x)
    decreases |BelowAny(registry, names)|, |names|
  {
    if names != [] {
      var front, last := names[..|names| - 1], names[|names| - 1];
      ListedLieBelow(registry, names);
      ListingIsReachable(registry, front);
      LeafwardIsReachable(registry, last);
      JoinedIsDistinct(Listing(registry, front), Leafward(registry, last));
      assert names == front + [last];
      forall x
        ensures x in Listing(registry, names) <==> BelowSome(registry, names, x)
      {
        JoinedMembers(Listing(registry, front), Leafward(registry, last), x);
      }
    }
  }

  lemma {:induction false} RefTargetsAreSorted(children: seq<ChildRef>)
    requires InSiblingOrder(children)
    ensures forall i, j :: 0 <= i < j < |RefTargets(children)| ==>
      !Less(RefTargets(children)[j], RefTargets(children)[i])
    decreases |children|
  {
    if children != [] {
      var front, last := children[..|children| - 1], children[|children| - 1];
      RefTargetsAreSorted(front);
      assert children == front + [last];
      forall c | c in RefTargets(front) && last.Ref?
        ensures !Less(last.target, c)
      {
        RefTargetsMembers(front, c);
        var i :| 0 <= i < |front| && front[i] == Ref(c);
        assert MayPrecede(children[i], children[|front|]);
      }
      assert forall i :: 0 <= i < |RefTargets(front)| ==> RefTargets(front)[i] in RefTargets(front);
    }
  }

  lemma ListingGrows(registry: Registry, names: seq<string>)
    requires Sound(registry, names) && names != []
    ensures Listing(registry, names[..|names| - 1]) <= Listing(registry, names)
  {
    JoinedExtends(Listing(registry, names[..|names| - 1]), Leafward(registry, names[|names| - 1]));
  }

  lemma {:induction false} ListingExtends(registry: Registry, names: seq<string>, first: seq<string>)
    requires Sound(registry, names) && first <= names
    ensures Listing(registry, first) <= Listing(registry, names)
    decreases |names|
  {
    if |first| < |names| {
      var front := names[..|names| - 1];
      ListingExtends(registry, front, first);
      ListingGrows(registry, names);
    } else {
      assert first == names;
    }
  }

  /**
   Siblings go in the order of their names: what lies below one reference of a component comes
   before what lies below no reference up to that one.
   */
  lemma SiblingsInOrder(registry: Registry, name: string, c: string, x: string, y: string)
    requires !Broken(registry, name) && (name, c) in References(registry) && Reachable(registry, c, x)
    requires Reachable(registry, name, y)
    requires forall e :: (name, e) in References(registry) && (e == c || Less(e, c)) ==> !Reachable(registry, e, y)
    ensures Before(Leafward(registry, name), x, y)
  {
    RefsLieBelow(registry, name);
    LeafwardIsReachable(registry, name);
    var refs := RefTargets(SortChildren(registry.bundles[name].children));
    SiblingsAreSorted(registry.bundles[name].children);
    RefTargetsAreSorted(SortChildren(registry.bundles[name].children));
    var first := SortedUpTo(refs, c);
    assert BelowSome(registry, first, x) && !BelowSome(registry, first, y);
    ListingIsReachable(registry, first);
    ListingExtends(registry, refs, first);
    PrefixComesBefore(Leafward(registry, name), Listing(registry, first), x, y);
  }

  lemma SortedUpTo(names: seq<string>, c: string) returns (first: seq<string>)
    requires c in names && forall i, j :: 0 <= i < j < |names| ==> !Less(names[j], names[i])
    ensures first <= names && c in first
    ensures forall e :: e in first ==> e in names && (e == c || Less(e, c))
  {
    var i :| 0 <= i < |names| && names[i] == c;
    first := names[..i + 1];
    assert first[i] == c;
    forall e | e in first
      ensures e == c || Less(e, c)
    {
      LessTotal(e, c);
    }
  }

  lemma PrefixComesBefore(order: seq<string>, prefix: seq<string>, x: string, y: string)
    requires prefix <= order && x in prefix && y in order && y !in prefix
    ensures Before(order, x, y)
  {
    var a :| 0 <= a < |prefix| && prefix[a] == x;
    var b :| 0 <= b < |order| && order[b] == y;
    assert order[a] == x;
    assert forall k :: 0 <= k < |prefix| ==> order[k] in prefix;
  }

  class ComponentGraphResolver {
    const registry: Registry
    var nodes: map<string, ResolvedNode>
    // The walk's visiting set and order list, which resolve_graph passes down by reference.
    var visiting: set<string>
    var order: seq<string>

    constructor (registry: Registry)
      ensures this.registry == registry
    {
      this.registry := registry;
      nodes, visiting, order := map[], {}, [];
    }

    ghost predicate Valid()
      reads this
    {
      && LeavesFirst(registry, order) && nodes.Keys == Elements(order)
      && visiting <= registry.lock && visiting !! nodes.Keys
      && forall name :: name in nodes ==>
        && name in registry.bundles
        && nodes[name] == ResolvedNode(name, SortChildren(registry.bundles[name].children))
    }

    /** _resolve_node: the lock entry, the verified bundle, and every declared child. */
    method ResolveNode(name: string) returns (ok: bool, node: ResolvedNode)
      ensures ok <==> Resolves(registry, name)
      ensures ok ==> node == ResolvedNode(name, SortChildren(registry.bundles[name].children))
    {
      node := ResolvedNode(name, []);
      if name !in registry.lock || name !in registry.bundles {
        return false, node;
      }
      var bundle := registry.bundles[name];
      var children := SortChildren(bundle.children);
      SortedChildren(bundle.children);
      for i := 0 to |children|
        invariant forall j :: 0 <= j < i ==> ChildResolves(registry, bundle, children[j])
      {
        var child := children[i];
        assert child in bundle.children;
        if (child.Ref? && child.target !in registry.lock) || (child.Embed? && child.target !in bundle.embedded) {
          return false, node;
        }
      }
      return true, ResolvedNode(name, children);
    }

    /**
     _visit. Success adds to the order what is new of the name's own order, failure means that
     something at or below the name is broken. The names being visited all reach it.
     */
    method Visit(name: string) returns (ok: bool)
      requires Valid() && forall v :: v in visiting ==> Reaches(References(registry), v, name)
      modifies this
      ensures ok ==> Valid() && visiting == old(visiting)
      ensures ok ==> !Broken(registry, name) && order == Joined(old(order), Leafward(registry, name))
      ensures !ok ==> Broken(registry, name)
      decreases |registry.lock - visiting|, 0
    {
      assert Reachable(registry, name, name);
      if name in visiting {
        return false;
      }
      if name in nodes {
        assert name in Elements(order);
        ListedAlready(registry, order, name);
        return true;
      }
      var node;
      ok, node := ResolveNode(name);
      if !ok {
        return;
      }
      ghost var before, start := visiting, order;
      visiting := visiting + {name};
      assert registry.lock - visiting == (registry.lock - before) - {name};
      ok := VisitChildren(name, node, before);
      if !ok {
        return;
      }
      visiting := visiting - {name};
      assert visiting == before;
      WalkedAll(registry, name, start, order);
      Record(name, node);
      WalkedAndRecorded(registry, name, start, order);
    }

    /** One child of a component that is being visited; embedded children are skipped. */
    method VisitChild(
        name: string, children: seq<ChildRef>, i: nat, ghost before: set<string>, ghost start: seq<string>)
      returns (ok: bool)
      requires Valid() && visiting == before + {name} && i < |children|
      requires children[i].Ref? ==> (name, children[i].target) in References(registry)
      requires forall v :: v in before ==> Reaches(References(registry), v, name)
      requires Walked(registry, children, i, start, order)
      modifies this
      ensures ok ==> Valid() && visiting == old(visiting) && Walked(registry, children, i + 1, start, order)
      ensures !ok ==> Broken(registry, name)
      decreases |registry.lock - visiting|, 1
    {
      ok := true;
      ghost var soFar := order;
      if children[i].Ref? {
        VisitingReachesChild(registry, before, name, children[i].target);
        ok := Visit(children[i].target);
        if !ok { BrokenBelow(registry, name, children[i].target); }
      }
      if ok { WalkedOneMore(registry, children, i, start, soFar, order); }
    }

    /** The loop over the references of a component that is being visited. */
    method VisitChildren(name: string, node: ResolvedNode, ghost before: set<string>) returns (ok: bool)
      requires Valid() && Resolves(registry, name) && visiting == before + {name}
      requires node == ResolvedNode(name, SortChildren(registry.bundles[name].children))
      requires forall v :: v in before ==> Reaches(References(registry), v, name)
      modifies this
      ensures ok ==> Valid() && visiting == old(visiting)
      ensures ok ==> Walked(registry, node.children, |node.children|, old(order), order)
      ensures !ok ==> Broken(registry, name)
      decreases |registry.lock - visiting|, 2
    {
      ChildrenAreReferences(registry, name);
      for i := 0 to |node.children|
        invariant Valid() && visiting == old(visiting)
        invariant Walked(registry, node.children, i, old(order), order)
      {
        assert node.children[i] in node.children;
        ok := VisitChild(name, node.children, i, before, old(order));
        if !ok {
          return;
        }
      }
      ok := true;
    }

    /** self._nodes[name] = node; order.append(name) */
    method Record(name: string, node: ResolvedNode)
      requires Valid() && Resolves(registry, name) && name !in visiting && name !in order
      requires node == ResolvedNode(name, SortChildren(registry.bundles[name].children))
      requires forall c :: (name, c) in References(registry) ==> c in order
      modifies this`nodes, this`order
      ensures Valid() && order == old(order) + [name]
    {
      LeavesFirstAppend(registry, order, name);
      nodes := nodes[name := node];
      order := order + [name];
      assert Elements(order) == Elements(old(order)) + {name};
    }

    method Collect() returns (resolved: seq<ResolvedNode>)
      requires Valid()
      ensures |resolved| == |order|
      ensures forall i :: 0 <= i < |order| ==> order[i] in nodes && resolved[i] == nodes[order[i]]
    {
      resolved := [];
      for i := 0 to |order|
        invariant |resolved| == i
        invariant forall j :: 0 <= j < i ==> order[j] in nodes && resolved[j] == nodes[order[j]]
      {
        assert order[i] in Elements(order);
        resolved := resolved + [nodes[order[i]]];
      }
    }

    /** Start afresh and visit from the root. */
    method Walk(root: string) returns (ok: bool)
      modifies this
      ensures ok <==> !Broken(registry, root)
      ensures ok ==> Valid() && order == Leafward(registry, root)
    {
      nodes, visiting, order := map[], {}, [];
      ok := Visit(root);
      if ok {
        LeafwardIsReachable(registry, root);
        JoinedIsDistinct([], Leafward(registry, root));
      }
    }

    /**
     resolve_graph. It succeeds exactly when everything reachable resolves and nothing
     reachable lies on a cycle, and then lists precisely the reachable components, each
     once, every reference before its parent, siblings by name and the root last. Each is
     listed with its declared children in sibling order.
     */
    method ResolveGraph(root: string) returns (ok: bool, resolved: seq<ResolvedNode>)
      modifies this
      ensures ok <==> !Broken(registry, root)
      ensures ok ==> Valid() && order == Leafward(registry, root) && order != [] && order[|order| - 1] == root
      ensures ok ==> forall name :: name in order <==> Reachable(registry, root, name)
      ensures ok ==> |resolved| == |order|
      ensures ok ==> forall i :: 0 <= i < |order| ==>
        resolved[i].name == order[i] && IsNodeOf(registry, resolved[i])
    {
      ok := Walk(root);
      resolved := [];
      if ok {
        LeafwardIsReachable(registry, root);
        resolved := Collect();
        forall i | 0 <= i < |order|
          ensures resolved[i].name == order[i] && IsNodeOf(registry, resolved[i])
        {
          SiblingsAreSorted(registry.bundles[order[i]].children);
        }
      }
    }
  }

  /** The node lists the declared children of its component, in sibling order. */
  ghost predicate IsNodeOf(registry: Registry, node: ResolvedNode) {
    node.name in registry.bundles && InSiblingOrder(node.children)
    && multiset(node.children) == multiset(registry.bundles[node.name].children)
  }

  // ----- the walk and the one order -----

  /** The order holds what was there and what the references among the first children list. */
  ghost predicate Walked(registry: Registry, children: seq<ChildRef>, i: nat, start: seq<string>, order: seq<string>) {
    && i <= |children| && Sound(registry, RefTargets(children[..i]))
    && order == Joined(start, Listing(registry, RefTargets(children[..i])))
  }

  lemma WalkedOneMore(
      registry: Registry, children: seq<ChildRef>, i: nat, start: seq<string>, soFar: seq<string>, order: seq<string>)
    requires i < |children| && Walked(registry, children, i, start, soFar)
    requires children[i].Embed? ==> order == soFar
    requires children[i].Ref? ==>
      !Broken(registry, children[i].target) && order == Joined(soFar, Leafward(registry, children[i].target))
    ensures Walked(registry, children, i + 1, start, order)
  {
    assert children[..i + 1][..i] == children[..i];
    var refs := RefTargets(children[..i]);
    if children[i].Ref? {
      var more := refs + [children[i].target];
      assert more[..|refs|] == refs;
      JoinedTwice(start, Listing(registry, refs), Leafward(registry, children[i].target));
    } else {
      assert refs + [] == refs;
    }
  }

  lemma WalkedAll(registry: Registry, name: string, start: seq<string>, order: seq<string>)
    requires Resolves(registry, name)
    requires var children := SortChildren(registry.bundles[name].children);
      Walked(registry, children, |children|, start, order)
    ensures forall c :: (name, c) in References(registry) ==> c in order
  {
    var children := SortChildren(registry.bundles[name].children);
    assert children[..|children|] == children;
    ChildrenAreReferences(registry, name);
    var refs := RefTargets(children);
    ListingIsReachable(registry, refs);
    forall c | (name, c) in References(registry)
      ensures c in order
    {
      RefTargetsMembers(children, c);
      assert BelowSome(registry, refs, c);
      JoinedMembers(start, Listing(registry, refs), c);
    }
  }

  lemma WalkedAndRecorded(registry: Registry, name: string, start: seq<string>, order: seq<string>)
    requires Resolves(registry, name) && LeavesFirst(registry, order)
    requires order != [] && order[|order| - 1] == name && name !in order[..|order| - 1]
    requires var children := SortChildren(registry.bundles[name].children);
      Walked(registry, children, |children|, start, order[..|order| - 1])
    ensures !Broken(registry, name) && order == Joined(start, Leafward(registry, name))
  {
    var children := SortChildren(registry.bundles[name].children);
    assert children[..|children|] == children;
    ListedIsSound(registry, order, name);
    RefsLieBelow(registry, name);
    NameComesLast(start, Listing(registry, RefTargets(children)), name, order);
  }

  lemma NameComesLast(start: seq<string>, listing: seq<string>, name: string, order: seq<string>)
    requires order != [] && order[|order| - 1] == name && name !in order[..|order| - 1]
    requires order[..|order| - 1] == Joined(start, listing)
    ensures order == Joined(start, listing + [name])
  {
    JoinedMembers(start, listing, name);
    JoinedOneMore(start, listing, name);
    assert order == order[..|order| - 1] + [name];
  }

  lemma ListedAlready(registry: Registry, order: seq<string>, name: string)
    requires LeavesFirst(registry, order) && name in order
    ensures !Broken(registry, name) && order == Joined(order, Leafward(registry, name))
  {
    ListedIsSound(registry, order, name);
    LeafwardIsReachable(registry, name);
    JoinedNothingNew(order, Leafward(registry, name));
  }

  lemma ChildrenAreReferences(registry: Registry, name: string)
    requires Resolves(registry, name)
    ensures var children := SortChildren(registry.bundles[name].children);
      && (forall child :: child in children && child.Ref? ==> (name, child.target) in References(registry))
      && forall c :: (name, c) in References(registry) ==> Ref(c) in children
  {
    SortedChildren(registry.bundles[name].children);
  }

  lemma VisitingReachesChild(registry: Registry, visiting: set<string>, name: string, child: string)
    requires (name, child) in References(registry)
    requires forall v :: v in visiting ==> Reaches(References(registry), v, name)
    ensures forall v :: v in visiting + {name} ==> Reaches(References(registry), v, child)
  {
    EdgeReaches(References(registry), name, child);
    forall v | v in visiting
      ensures Reaches(References(registry), v, child)
    {
      ReachesTransitive(References(registry), v, name, child);
    }
  }

  lemma ReachableBelow(registry: Registry, name: string, child: string, x: string)
    requires (name, child) in References(registry) && Reachable(registry, child, x)
    ensures Reachable(registry, name, x)
  {
    EdgeReaches(References(registry), name, child);
    if x != child { ReachesTransitive(References(registry), name, child, x); }
  }
}
