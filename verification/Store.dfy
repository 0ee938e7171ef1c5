/**
 The authored-fact store: an append-only log of canonical lines, a derived index that is
 deleted and refilled, and a cache of closure hashes. The log alone is the truth.
 */
module Store {
  import opened Wrappers
  import opened Names
  import opened Rules
  import opened Closure
  import opened ClosureLaws

  type Hash = string

  datatype ClosureDoc = ClosureDoc(profile: string, graphHash: Hash, ontologyHash: Hash, assertions: seq<Assertion>)

  /** Canonical JSON, its reader, and the content addresses taken over it. */
  datatype Codec = Codec(
    key: Assertion -> string, read: string -> Option<Assertion>,
    graphHash: seq<Assertion> -> Hash, ontologyHash: Ontology -> Hash, closureHash: ClosureDoc -> Hash)

  /** The rule profile that a closure names: the ontology's id and version. */
  function Profile(ontology: Ontology): string {
    ontology.id + "@" + ontology.version
  }

  /** Reading undoes writing, and different documents have different addresses. */
  ghost predicate Faithful(codec: Codec) {
    && (forall a :: codec.read(codec.key(a)) == Some(a) && codec.key(a) != "")
    && (forall a, b :: codec.graphHash(a) == codec.graphHash(b) ==> a == b)
    && forall a, b :: codec.ontologyHash(a) == codec.ontologyHash(b) ==> a == b
  }

  lemma KeyIsInjective(codec: Codec)
    requires Faithful(codec)
    ensures Injective(codec.key)
  {
    forall a, b | codec.key(a) == codec.key(b)
      ensures a == b
    {
      assert codec.read(codec.key(a)) == Some(a) && codec.read(codec.key(b)) == Some(b);
    }
  }

  // ----- the log -----

  predicate CanonicalLine(codec: Codec, line: string) {
    line != "" ==> codec.read(line).Some? && codec.key(codec.read(line).value) == line
  }

  predicate CanonicalLog(codec: Codec, log: seq<string>) {
    forall i :: 0 <= i < |log| ==> CanonicalLine(codec, log[i])
  }

  /** A log is canonical exactly when every line is blank or the canonical line of some fact. */
  lemma CanonicalExactly(codec: Codec, log: seq<string>)
    requires Faithful(codec)
    ensures CanonicalLog(codec, log) <==> forall line :: line in log && line != "" ==> exists a :: line == codec.key(a)
  {
    if CanonicalLog(codec, log) {
      forall line | line in log && line != ""
        ensures exists a :: line == codec.key(a)
      {
        var i :| 0 <= i < |log| && log[i] == line;
        assert CanonicalLine(codec, log[i]);
        assert line == codec.key(codec.read(line).value);
      }
    }
    if forall line :: line in log && line != "" ==> exists a :: line == codec.key(a) {
      forall i | 0 <= i < |log|
        ensures CanonicalLine(codec, log[i])
      {
        assert log[i] in log;
        if log[i] != "" {
          var a :| log[i] == codec.key(a);
          assert codec.read(codec.key(a)) == Some(a);
        }
      }
    }
  }

  /** The facts a log records. */
  ghost function Facts(codec: Codec, log: seq<string>): set<Assertion> {
    set i | 0 <= i < |log| && log[i] != "" && codec.read(log[i]).Some? :: codec.read(log[i]).value
  }

  ghost predicate Readable(codec: Codec, log: seq<string>) {
    CanonicalLog(codec, log) && |Facts(codec, log)| <= MAX_CLOSURE_ASSERTIONS
  }

  /** Why a log is refused: a line that is not canonical comes before too many facts. */
  ghost function Unreadable(codec: Codec, log: seq<string>): ErrorKind {
    if CanonicalLog(codec, log) then ClosureOverflow else MalformedDocument
  }

  lemma FactsGrow(codec: Codec, log: seq<string>, i: nat)
    requires i < |log|
    ensures Facts(codec, log[..i + 1]) ==
      Facts(codec, log[..i]) + if log[i] != "" && codec.read(log[i]).Some? then {codec.read(log[i]).value} else {}
  {
    assert log[..i + 1] == log[..i] + [log[i]];
    assert forall k :: 0 <= k < i ==> log[..i][k] == log[..i + 1][k];
    assert log[..i + 1][i] == log[i];
  }

  lemma AppendedFact(codec: Codec, log: seq<string>, a: Assertion)
    requires Faithful(codec)
    ensures Facts(codec, log + [codec.key(a)]) == Facts(codec, log) + {a}
  {
    FactsGrow(codec, log + [codec.key(a)], |log|);
    assert (log + [codec.key(a)])[..|log|] == log && (log + [codec.key(a)])[..|log| + 1] == log + [codec.key(a)];
  }

  /** On a canonical log a fact is recorded exactly when its line is there. */
  lemma RecordedExactly(codec: Codec, log: seq<string>, a: Assertion)
    requires Faithful(codec) && CanonicalLog(codec, log)
    ensures a in Facts(codec, log) <==> codec.key(a) in log
  {
    if a in Facts(codec, log) {
      var i :| 0 <= i < |log| && log[i] != "" && codec.read(log[i]) == Some(a);
      assert codec.key(a) == log[i];
    }
    if codec.key(a) in log {
      var i :| 0 <= i < |log| && log[i] == codec.key(a);
      assert codec.read(log[i]).value in Facts(codec, log);
    }
  }

  /**
   The log has only grown, by these facts: no line went or moved, a canonical log stays
   canonical with one new line for each new fact, and stays free of duplicates.
   */
  ghost predicate Grown(codec: Codec, before: seq<string>, after: seq<string>, added: set<Assertion>) {
    && before <= after
    && Facts(codec, after) == Facts(codec, before) + added
    && (CanonicalLog(codec, before) ==> CanonicalLog(codec, after))
    && (CanonicalLog(codec, before) ==>
      |Facts(codec, after)| - |Facts(codec, before)| == |after| - |before|)
    && (Distinct(before) ==> Distinct(after))
  }

  function Lines(codec: Codec, facts: seq<Assertion>): seq<string> {
    seq(|facts|, i requires 0 <= i < |facts| => codec.key(facts[i]))
  }

  lemma LinesGrow(codec: Codec, log: seq<string>, facts: seq<Assertion>, i: nat)
    requires i < |facts|
    ensures var lines := Joined(log, Lines(codec, facts[..i]));
      Joined(log, Lines(codec, facts[..i + 1])) ==
        if codec.key(facts[i]) in lines then lines else lines + [codec.key(facts[i])]
  {
    assert Lines(codec, facts[..i + 1]) == Lines(codec, facts[..i]) + [codec.key(facts[i])];
    JoinedMembers(log, Lines(codec, facts[..i]), codec.key(facts[i]));
    JoinedOneMore(log, Lines(codec, facts[..i]), codec.key(facts[i]));
  }

  lemma GrownByNothing(codec: Codec, log: seq<string>, facts: set<Assertion>)
    requires facts <= Facts(codec, log)
    ensures Grown(codec, log, log, facts)
  {
  }

  lemma GrownByOne(codec: Codec, log: seq<string>, a: Assertion)
    requires Faithful(codec) && codec.key(a) !in log
    ensures Grown(codec, log, log + [codec.key(a)], {a})
    ensures CanonicalLog(codec, log) ==> a !in Facts(codec, log)
  {
    AppendedFact(codec, log, a);
    if CanonicalLog(codec, log) { RecordedExactly(codec, log, a); }
  }

  lemma AlreadyRecorded(codec: Codec, log: seq<string>, a: Assertion)
    requires Faithful(codec) && codec.key(a) in log
    ensures a in Facts(codec, log) && Grown(codec, log, log, {a})
  {
    var i :| 0 <= i < |log| && log[i] == codec.key(a);
    assert codec.read(log[i]).value in Facts(codec, log);
  }

  lemma GrownTwice(
      codec: Codec, first: seq<string>, second: seq<string>, third: seq<string>, added: set<Assertion>,
      more: set<Assertion>)
    requires Grown(codec, first, second, added) && Grown(codec, second, third, more)
    ensures Grown(codec, first, third, added + more)
  {
  }

  // ----- the one listing of a set of facts -----

  lemma FrontedListing(facts: set<Assertion>, key: Assertion -> string, m: Assertion, rest: seq<Assertion>)
    requires m in facts && CanonicalListing(rest, facts - {m}, key)
    requires forall a :: a in facts && a != m ==> Less(key(m), key(a))
    ensures CanonicalListing([m] + rest, facts, key)
  {
    var listing := [m] + rest;
    assert forall a :: a in rest <==> a in Elements(rest);
    assert forall a :: a in listing <==> a == m || a in rest;
    forall i, j | 0 <= i < j < |listing|
      ensures Less(key(listing[i]), key(listing[j]))
    {
      assert rest[j - 1] in Elements(rest);
    }
  }

  lemma LeastFact(facts: set<Assertion>, key: Assertion -> string) returns (m: Assertion)
    requires Injective(key) && facts != {}
    ensures m in facts && forall a :: a in facts && a != m ==> Less(key(m), key(a))
  {
    var keys := set a | a in facts :: key(a);
    var x :| x in facts;
    assert key(x) in keys;
    LeastExists(keys);
    var k :| IsLeast(k, keys);
    m :| m in facts && key(m) == k;
    forall a | a in facts && a != m
      ensures Less(key(m), key(a))
    {
      assert key(a) in keys;
    }
  }

  lemma {:induction false} ListingExists(facts: set<Assertion>, key: Assertion -> string)
    requires Injective(key)
    ensures exists listing :: CanonicalListing(listing, facts, key)
    decreases |facts|
  {
    if facts == {} {
      assert CanonicalListing([], facts, key);
    } else {
      var m := LeastFact(facts, key);
      ListingExists(facts - {m}, key);
      var rest :| CanonicalListing(rest, facts - {m}, key);
      FrontedListing(facts, key, m, rest);
    }
  }

  ghost function Listed(codec: Codec, facts: set<Assertion>): (listing: seq<Assertion>)
    requires Faithful(codec)
    ensures CanonicalListing(listing, facts, codec.key)
  {
    KeyIsInjective(codec);
    ListingExists(facts, codec.key);
    var listing :| CanonicalListing(listing, facts, codec.key);
    listing
  }

  ghost function GraphHash(codec: Codec, facts: set<Assertion>): Hash
    requires Faithful(codec)
  {
    codec.graphHash(Listed(codec, facts))
  }

  /** The graph's address is a function of the set of facts, and determines it. */
  lemma GraphHashIsOfFacts(codec: Codec, listing: seq<Assertion>, facts: set<Assertion>, other: set<Assertion>)
    requires Faithful(codec) && CanonicalListing(listing, facts, codec.key)
    ensures codec.graphHash(listing) == GraphHash(codec, facts)
    ensures GraphHash(codec, facts) == GraphHash(codec, other) <==> facts == other
  {
    KeyIsInjective(codec);
    CanonicalListingIsUnique(listing, Listed(codec, facts), facts, codec.key);
    if GraphHash(codec, facts) == GraphHash(codec, other) {
      assert Listed(codec, facts) == Listed(codec, other);
      assert Elements(Listed(codec, facts)) == facts && Elements(Listed(codec, other)) == other;
    }
  }

  // ----- the index -----

  datatype Row = Row(s: string, p: string, o: Obj, graph: Hash)

  function RowOf(a: Assertion, graph: Hash): Row {
    Row(a.s, a.p, a.o, graph)
  }

  ghost function RowsOf(codec: Codec, facts: set<Assertion>): set<Row>
    requires Faithful(codec)
  {
    set a | a in facts :: RowOf(a, GraphHash(codec, facts))
  }

  lemma RowsDetermineFacts(codec: Codec, facts: set<Assertion>, other: set<Assertion>)
    requires Faithful(codec)
    ensures RowsOf(codec, facts) == RowsOf(codec, other) <==> facts == other
  {
    if RowsOf(codec, facts) == RowsOf(codec, other) {
      forall a
        ensures a in facts <==> a in other
      {
        if a in facts {
          assert RowOf(a, GraphHash(codec, facts)) in RowsOf(codec, other);
        }
        if a in other {
          assert RowOf(a, GraphHash(codec, other)) in RowsOf(codec, facts);
        }
      }
    }
  }

  // ----- closures -----

  /** What closure() returns for these facts and this ontology. */
  ghost predicate IsClosureOf(codec: Codec, doc: ClosureDoc, facts: set<Assertion>, ontology: Ontology)
    requires Faithful(codec)
  {
    && doc.profile == Profile(ontology)
    && doc.graphHash == GraphHash(codec, facts)
    && doc.ontologyHash == codec.ontologyHash(ontology)
    && IsOutcome(Ok(doc.assertions), Listed(codec, facts), ontology, codec.key)
  }

  lemma ClosureIsUnique(codec: Codec, doc: ClosureDoc, other: ClosureDoc, facts: set<Assertion>, ontology: Ontology)
    requires Faithful(codec) && IsClosureOf(codec, doc, facts, ontology) && IsClosureOf(codec, other, facts, ontology)
    ensures doc == other
  {
    KeyIsInjective(codec);
    OrderDoesNotMatter(Listed(codec, facts), ontology, Listed(codec, facts), ontology, codec.key, Ok(doc.assertions),
      Ok(other.assertions));
  }

  datatype CacheKey = CacheKey(graphHash: Hash, ontologyHash: Hash, profile: string)

  function KeyOf(doc: ClosureDoc): CacheKey {
    CacheKey(doc.graphHash, doc.ontologyHash, doc.profile)
  }

  /** The entry was made from a document that closure() returned, for some facts and ontology. */
  ghost predicate HonestEntry(codec: Codec, key: CacheKey, hash: Hash)
    requires Faithful(codec)
  {
    exists doc, facts, ontology :: IsClosureOf(codec, doc, facts, ontology) && key == KeyOf(doc)
      && hash == codec.closureHash(doc)
  }

  ghost predicate HonestCache(codec: Codec, cache: map<CacheKey, Hash>)
    requires Faithful(codec)
  {
    forall key {:trigger HonestEntry(codec, key, cache[key])} :: key in cache ==> HonestEntry(codec, key, cache[key])
  }

  /** The document is what closure() returns for some facts and ontology. */
  ghost predicate IsClosure(codec: Codec, doc: ClosureDoc)
    requires Faithful(codec)
  {
    exists facts, ontology :: IsClosureOf(codec, doc, facts, ontology)
  }

  ghost predicate Keeps(cache: map<CacheKey, Hash>, before: map<CacheKey, Hash>) {
    forall key :: key in before ==> key in cache && cache[key] == before[key]
  }

  /** Recording a closure keeps the cache honest, and changes no entry that is there. */
  lemma HonestCacheGrows(codec: Codec, cache: map<CacheKey, Hash>, doc: ClosureDoc)
    requires Faithful(codec) && HonestCache(codec, cache) && IsClosure(codec, doc)
    ensures HonestCache(codec, cache[KeyOf(doc) := codec.closureHash(doc)])
    ensures Keeps(cache[KeyOf(doc) := codec.closureHash(doc)], cache)
  {
    var after := cache[KeyOf(doc) := codec.closureHash(doc)];
    var facts, ontology :| IsClosureOf(codec, doc, facts, ontology);
    forall key | key in after
      ensures HonestEntry(codec, key, after[key])
    {
      if key != KeyOf(doc) { assert HonestEntry(codec, key, cache[key]); }
    }
    if KeyOf(doc) in cache {
      assert HonestEntry(codec, KeyOf(doc), cache[KeyOf(doc)]);
      HonestEntryIsCurrent(codec, KeyOf(doc), cache[KeyOf(doc)], Listed(codec, facts), facts, ontology, doc);
    }
  }

  /** An honest entry under the current facts' address is the current facts' closure. */
  lemma HonestEntryIsCurrent(
      codec: Codec, key: CacheKey, hash: Hash, listing: seq<Assertion>, facts: set<Assertion>, ontology: Ontology,
      current: ClosureDoc)
    requires Faithful(codec) && HonestEntry(codec, key, hash) && CanonicalListing(listing, facts, codec.key)
    requires key == CacheKey(codec.graphHash(listing), codec.ontologyHash(ontology), Profile(ontology))
    requires IsClosureOf(codec, current, facts, ontology)
    ensures hash == codec.closureHash(current)
  {
    var doc, facts', ontology' :| IsClosureOf(codec, doc, facts', ontology') && key == KeyOf(doc)
      && hash == codec.closureHash(doc);
    GraphHashIsOfFacts(codec, listing, facts, facts');
    assert ontology' == ontology;
    ClosureIsUnique(codec, doc, current, facts, ontology);
  }

  // ----- the store -----

  datatype StoreError = NoIndex | OntologyError(kind: ErrorKind)

  class OntologyStore {
    const codec: Codec
    var log: seq<string>
    // None until the index is first built.
    var rows: Option<set<Row>>
    var cache: map<CacheKey, Hash>
    // The facts that the last index() saw.
    ghost var indexed: set<Assertion>
    // How many facts the log has gained since then.
    ghost var gained: nat

    ghost predicate Valid()
      reads this
    {
      && Faithful(codec)
      && (rows.Some? ==> rows.value == RowsOf(codec, indexed))
      && indexed <= Known() && (gained == 0 <==> indexed == Known())
    }

    ghost function Known(): set<Assertion>
      reads this
    {
      Facts(codec, log)
    }

    ghost predicate Distinctly()
      reads this
    {
      CanonicalLog(codec, log) && Distinct(log)
    }

    /** Every cache entry came from a closure() result. */
    ghost predicate Honest()
      requires Faithful(codec)
      reads this
    {
      HonestCache(codec, cache)
    }

    constructor (codec: Codec)
      requires Faithful(codec)
      ensures Valid() && Distinctly() && Honest() && Known() == {} && rows.None? && this.codec == codec
    {
      this.codec := codec;
      log, rows, cache, indexed, gained := [], None, map[], {}, 0;
    }

    /** Append a fact's line unless the log has it. */
    method Append(a: Assertion) returns (isNew: bool)
      requires Valid()
      modifies `log, `gained
      ensures Valid() && Grown(codec, old(log), log, {a})
      ensures gained == old(gained) + if a in old(Known()) then 0 else 1
      ensures log == if isNew then old(log) + [codec.key(a)] else old(log)
      ensures isNew <==> codec.key(a) !in old(log)
      ensures old(CanonicalLog(codec, log)) ==> (isNew <==> a !in old(Known()))
    {
      var line := codec.key(a);
      var found := HasLine(line);
      if found {
        AlreadyRecorded(codec, log, a);
        return false;
      }
      GrownByOne(codec, log, a);
      ghost var known := Known();
      log := log + [line];
      gained := gained + if a in known then 0 else 1;
      assert Known() == known + {a};
      return true;
    }

    method HasLine(line: string) returns (found: bool)
      ensures found <==> line in log
    {
      for i := 0 to |log|
        invariant line !in log[..i]
      {
        if log[i] == line { return true; }
        MembersAppend(log, i);
      }
      assert log[..|log|] == log;
      return false;
    }

    method AppendAll(facts: seq<Assertion>) returns (count: nat)
      requires Valid()
      modifies `log, `gained
      ensures Valid() && Grown(codec, old(log), log, Elements(facts))
      ensures log == Joined(old(log), Lines(codec, facts)) && count == |log| - |old(log)|
    {
      count := 0;
      GrownByNothing(codec, log, {});
      for i := 0 to |facts|
        invariant Valid() && Grown(codec, old(log), log, Elements(facts[..i]))
        invariant log == Joined(old(log), Lines(codec, facts[..i])) && count == |log| - |old(log)|
      {
        ghost var before := log;
        var isNew := Append(facts[i]);
        if isNew { count := count + 1; }
        ElementsAppend(facts, i);
        GrownTwice(codec, old(log), before, log, Elements(facts[..i]), {facts[i]});
        LinesGrow(codec, old(log), facts, i);
      }
      assert facts[..|facts|] == facts;
    }

    /** Read the log back: refused if a line is not canonical or there are too many facts. */
    method Assertions() returns (listing: Result<seq<Assertion>, ErrorKind>)
      requires Valid()
      ensures !CanonicalLog(codec, log) ==> listing == Err(MalformedDocument)
      ensures CanonicalLog(codec, log) && |Known()| > MAX_CLOSURE_ASSERTIONS ==> listing == Err(ClosureOverflow)
      ensures Readable(codec, log) ==> listing.Ok? && CanonicalListing(listing.value, Known(), codec.key)
      ensures listing.Ok? <==> CanonicalLog(codec, log) && |Known()| <= 100_000
    {
      var unique: seq<Assertion> := [];
      for i := 0 to |log|
        invariant CanonicalLog(codec, log[..i])
        invariant Distinct(unique) && Elements(unique) == Facts(codec, log[..i])
      {
        FactsGrow(codec, log, i);
        if !CanonicalLine(codec, log[i]) { return Err(MalformedDocument); }
        if log[i] != "" {
          var a := codec.read(log[i]).value;
          if a !in unique {
            ghost var before := unique;
            unique := unique + [a];
            assert Elements(unique) == Elements(before) + {a};
          }
        }
      }
      assert log[..|log|] == log;
      DistinctCardinality(unique);
      if |unique| > MAX_CLOSURE_ASSERTIONS { return Err(ClosureOverflow); }
      KeyIsInjective(codec);
      var ordered := SortedByKey(unique, codec.key);
      return Ok(ordered);
    }

    method Closure(ontology: Ontology) returns (doc: Result<ClosureDoc, ErrorKind>)
      requires Valid()
      ensures doc.Ok? ==> Readable(codec, log) && IsClosureOf(codec, doc.value, Known(), ontology)
      ensures doc.Ok? ==> doc.value.profile == ontology.id + "@" + ontology.version
      ensures Readable(codec, log) ==> (doc.Ok? <==> Expected(Listed(codec, Known()), ontology).Ok?)
      ensures Readable(codec, log) && doc.Err? ==> Expected(Listed(codec, Known()), ontology) == Err(doc.error)
      ensures !Readable(codec, log) ==> doc == Err(Unreadable(codec, log))
    {
      var listing := Assertions();
      if listing.Err? { return Err(listing.error); }
      KeyIsInjective(codec);
      CanonicalListingIsUnique(listing.value, Listed(codec, Known()), Known(), codec.key);
      var closed := ComputeClosure(listing.value, ontology, codec.key);
      if closed.Err? { return Err(closed.error); }
      return Ok(ClosureDoc(Profile(ontology), codec.graphHash(listing.value), codec.ontologyHash(ontology),
        closed.value));
    }

    // ----- the derived index -----

    /** Delete the rows and refill them from the log. */
    method Index() returns (result: Result<(), ErrorKind>)
      requires Valid()
      modifies `rows, `indexed, `gained
      ensures Valid()
      ensures result.Ok? <==> Readable(codec, log)
      ensures if result.Ok? then rows.Some? && gained == 0 else rows == old(rows) && gained == old(gained)
      ensures result.Ok? ==> forall s, p, o, graph ::
        Row(s, p, o, graph) in rows.value <==>
          Assertion(s, p, o) in Known() && graph == GraphHash(codec, Known())
      ensures result.Err? ==> result.error == Unreadable(codec, log)
    {
      var listing := Assertions();
      if listing.Err? { return Err(listing.error); }
      var graph := codec.graphHash(listing.value);
      GraphHashIsOfFacts(codec, listing.value, Known(), Known());
      var filled: set<Row> := {};
      for i := 0 to |listing.value|
        invariant filled == set j | 0 <= j < i :: RowOf(listing.value[j], graph)
      {
        filled := filled + {RowOf(listing.value[i], graph)};
      }
      ListedRows(codec, listing.value, Known(), graph);
      rows, indexed, gained := Some(filled), Known(), 0;
      return Ok(());
    }

    /** Accepts exactly when the log has gained no fact since the last index(). */
    method VerifyIndex() returns (result: Result<(), StoreError>)
      requires Valid()
      ensures result.Ok? <==> rows.Some? && Readable(codec, log) && gained == 0
      ensures rows.None? ==> result == Err(NoIndex)
      ensures rows.Some? && !Readable(codec, log) ==> result == Err(OntologyError(Unreadable(codec, log)))
      ensures rows.Some? && Readable(codec, log) && gained > 0 ==> result == Err(OntologyError(MalformedDocument))
    {
      if rows.None? { return Err(NoIndex); }
      var listing := Assertions();
      if listing.Err? { return Err(OntologyError(listing.error)); }
      var graph := codec.graphHash(listing.value);
      GraphHashIsOfFacts(codec, listing.value, Known(), Known());
      ListedRows(codec, listing.value, Known(), graph);
      RowsDetermineFacts(codec, indexed, Known());
      var expected := set j | 0 <= j < |listing.value| :: RowOf(listing.value[j], graph);
      if rows.value != expected { return Err(OntologyError(MalformedDocument)); }
      return Ok(());
    }

    // ----- the closure cache -----

    /** Cache a document for the current graph's address only. */
    method CacheClosure(doc: ClosureDoc) returns (result: Result<(), StoreError>)
      requires Valid()
      modifies `cache
      ensures Valid()
      ensures result.Ok? <==> Readable(codec, log) && doc.graphHash == GraphHash(codec, Known()) && rows.Some?
      ensures !Readable(codec, log) ==> result == Err(OntologyError(Unreadable(codec, log)))
      ensures Readable(codec, log) && doc.graphHash != GraphHash(codec, Known()) ==>
        result == Err(OntologyError(MalformedDocument))
      ensures Readable(codec, log) && doc.graphHash == GraphHash(codec, Known()) && rows.None? ==>
        result == Err(NoIndex)
      ensures result.Ok? ==>
        cache == old(cache)[CacheKey(doc.graphHash, doc.ontologyHash, doc.profile) := codec.closureHash(doc)]
      ensures result.Err? ==> cache == old(cache)
      ensures OnlyCached(codec, [Record(doc)], cache, old(cache))
    {
      NothingCached(codec, [Record(doc)], cache);
      ClosureCached(codec, Record(doc), doc, cache);
      var listing := Assertions();
      if listing.Err? { return Err(OntologyError(listing.error)); }
      GraphHashIsOfFacts(codec, listing.value, Known(), Known());
      if doc.graphHash != codec.graphHash(listing.value) { return Err(OntologyError(MalformedDocument)); }
      if rows.None? { return Err(NoIndex); }
      cache := cache[KeyOf(doc) := codec.closureHash(doc)];
      return Ok(());
    }

    /**
     Look up by the current graph's address: a hit exactly when there is an entry for the
     current facts, this ontology hash and this profile. When only closure() results were cached, a hit
     is the hash of what closure() would return now for the ontology with that hash and
     profile, whatever was appended in between.
     */
    method CachedClosureHash(ontologyHash: Hash, profile: string) returns (result: Result<Option<Hash>, StoreError>)
      requires Valid()
      ensures result.Ok? <==> Readable(codec, log) && rows.Some?
      ensures !Readable(codec, log) ==> result == Err(OntologyError(Unreadable(codec, log)))
      ensures Readable(codec, log) && rows.None? ==> result == Err(NoIndex)
      ensures result.Ok? ==>
        var key := CacheKey(GraphHash(codec, Known()), ontologyHash, profile);
        result.value == if key in cache then Some(cache[key]) else None
      ensures Honest() && result.Ok? && result.value.Some? ==>
        forall doc, ontology ::
          IsClosureOf(codec, doc, Known(), ontology) && codec.ontologyHash(ontology) == ontologyHash
            && Profile(ontology) == profile
          ==> result.value == Some(codec.closureHash(doc))
    {
      var listing := Assertions();
      if listing.Err? { return Err(OntologyError(listing.error)); }
      if rows.None? { return Err(NoIndex); }
      GraphHashIsOfFacts(codec, listing.value, Known(), Known());
      var key := CacheKey(codec.graphHash(listing.value), ontologyHash, profile);
      if key !in cache { return Ok(None); }
      if Honest() {
        forall doc, ontology |
          IsClosureOf(codec, doc, Known(), ontology) && codec.ontologyHash(ontology) == ontologyHash
            && Profile(ontology) == profile
          ensures cache[key] == codec.closureHash(doc)
        {
          assert HonestEntry(codec, key, cache[key]);
          HonestEntryIsCurrent(codec, key, cache[key], listing.value, Known(), ontology, doc);
        }
      }
      return Ok(Some(cache[key]));
    }

    // ----- any sequence of calls -----

    method Perform(op: Operation)
      requires Valid()
      modifies this
      ensures Valid() && Grown(codec, old(log), log, Added(op))
      ensures old(rows.Some?) ==> rows.Some?
      ensures op == Rebuild && Readable(codec, log) ==> rows.Some? && gained == 0
      ensures OnlyCached(codec, [op], cache, old(cache))
    {
      GrownByNothing(codec, log, {});
      NothingCached(codec, [op], cache);
      match op
      case Publish(facts) =>
        var _ := AppendAll(facts);
      case Rebuild =>
        var _ := Index();
      case Materialize(ontology) =>
        var _ := MaterializeClosure(ontology);
      case Record(doc) =>
        var _ := CacheClosure(doc);
    }

    /** Compute the closure and cache it. */
    method MaterializeClosure(ontology: Ontology) returns (doc: Result<ClosureDoc, ErrorKind>)
      requires Valid()
      modifies `cache
      ensures Valid()
      ensures doc.Ok? ==> IsClosureOf(codec, doc.value, Known(), ontology) && IsClosure(codec, doc.value)
      ensures doc.Ok? <==> Readable(codec, log) && Expected(Listed(codec, Known()), ontology).Ok?
      ensures cache ==
        if doc.Ok? && rows.Some? then old(cache)[KeyOf(doc.value) := codec.closureHash(doc.value)] else old(cache)
      ensures OnlyCached(codec, [Materialize(ontology)], cache, old(cache))
    {
      NothingCached(codec, [Materialize(ontology)], cache);
      doc := Closure(ontology);
      if doc.Ok? {
        assert IsClosure(codec, doc.value);
        ClosureCached(codec, Materialize(ontology), doc.value, cache);
        var _ := CacheClosure(doc.value);
      }
    }

    /**
     After any calls the log has only grown, by the published facts and without duplicates. A
     cache entry changes only when something is cached under its key, and when only closures
     are recorded it never changes at all.
     */
    method PerformAll(ops: seq<Operation>)
      requires Valid()
      modifies this
      ensures Valid() && Grown(codec, old(log), log, Published(ops))
      ensures old(rows.Some?) ==> rows.Some?
      ensures OnlyCached(codec, ops, cache, old(cache))
    {
      GrownByNothing(codec, log, {});
      NothingCached(codec, ops[..0], cache);
      for i := 0 to |ops|
        invariant Valid() && Grown(codec, old(log), log, Published(ops[..i]))
        invariant old(rows.Some?) ==> rows.Some?
        invariant OnlyCached(codec, ops[..i], cache, old(cache))
      {
        ghost var lines, before := log, cache;
        Perform(ops[i]);
        GrownTwice(codec, old(log), lines, log, Published(ops[..i]), Added(ops[i]));
        OnlyCachedStep(codec, ops[..i], ops[i], cache, before, old(cache));
        PublishedStep(ops, i);
      }
      assert ops[..|ops|] == ops;
    }

    /**
     A recorded closure is found again after any calls, as long as the facts are the same and
     nothing else was cached under its key; when only closures were ever recorded, as long as
     the facts are the same.
     */
    method RecordThenLookUp(doc: ClosureDoc, ops: seq<Operation>)
      returns (recorded: Result<(), StoreError>, found: Result<Option<Hash>, StoreError>)
      requires Valid()
      modifies this
      ensures recorded.Ok? <==> old(Readable(codec, log) && doc.graphHash == GraphHash(codec, Known()) && rows.Some?)
      ensures recorded.Ok? && Known() == old(Known()) && !AnyCaches(codec, ops, KeyOf(doc)) ==>
        found == Ok(Some(codec.closureHash(doc)))
      ensures recorded.Ok? && Known() == old(Known()) && old(Honest()) && Sincere(codec, ops + [Record(doc)]) ==>
        found == Ok(Some(codec.closureHash(doc)))
    {
      recorded := CacheClosure(doc);
      PerformAll(ops);
      found := CachedClosureHash(doc.ontologyHash, doc.profile);
      if Sincere(codec, ops + [Record(doc)]) { SincereParts(codec, ops, Record(doc)); }
    }
  }

  datatype Operation =
    | Publish(facts: seq<Assertion>)
    | Rebuild
    | Materialize(ontology: Ontology)
    | Record(doc: ClosureDoc)

  /** The call may cache something under the key. */
  ghost predicate Caches(codec: Codec, op: Operation, key: CacheKey) {
    match op
    case Publish(_) => false
    case Rebuild => false
    case Materialize(ontology) => key.ontologyHash == codec.ontologyHash(ontology) && key.profile == Profile(ontology)
    case Record(doc) => key == KeyOf(doc)
  }

  ghost predicate AnyCaches(codec: Codec, ops: seq<Operation>, key: CacheKey) {
    exists i :: 0 <= i < |ops| && Caches(codec, ops[i], key)
  }

  /** Entries under keys that no call caches under are as they were. */
  ghost predicate Undisturbed(
      codec: Codec, ops: seq<Operation>, cache: map<CacheKey, Hash>, before: map<CacheKey, Hash>)
  {
    forall key :: !AnyCaches(codec, ops, key) ==>
      (key in cache <==> key in before) && (key in cache ==> cache[key] == before[key])
  }

  /** Only documents that closure() returns are recorded. */
  ghost predicate Sincere(codec: Codec, ops: seq<Operation>)
    requires Faithful(codec)
  {
    forall i :: 0 <= i < |ops| && ops[i].Record? ==> IsClosure(codec, ops[i].doc)
  }

  /**
   What the calls may have done to the cache: entries under other keys are as they were, and
   when only closures were recorded an honest cache is honest still and no entry changed.
   */
  ghost predicate OnlyCached(
      codec: Codec, ops: seq<Operation>, cache: map<CacheKey, Hash>, before: map<CacheKey, Hash>)
    requires Faithful(codec)
  {
    && Undisturbed(codec, ops, cache, before)
    && (HonestCache(codec, before) && Sincere(codec, ops) ==> HonestCache(codec, cache) && Keeps(cache, before))
  }

  lemma NothingCached(codec: Codec, ops: seq<Operation>, cache: map<CacheKey, Hash>)
    requires Faithful(codec)
    ensures OnlyCached(codec, ops, cache, cache)
  {
  }

  lemma ClosureCached(codec: Codec, op: Operation, doc: ClosureDoc, before: map<CacheKey, Hash>)
    requires Faithful(codec) && Caches(codec, op, KeyOf(doc)) && (!op.Record? ==> IsClosure(codec, doc))
    requires op.Record? ==> op.doc == doc
    ensures OnlyCached(codec, [op], before[KeyOf(doc) := codec.closureHash(doc)], before)
  {
    assert [op][0] == op;
    assert AnyCaches(codec, [op], KeyOf(doc));
    if HonestCache(codec, before) && IsClosure(codec, doc) { HonestCacheGrows(codec, before, doc); }
  }

  lemma OnlyCachedStep(
      codec: Codec, ops: seq<Operation>, op: Operation, cache: map<CacheKey, Hash>, before: map<CacheKey, Hash>,
      first: map<CacheKey, Hash>)
    requires Faithful(codec)
    requires OnlyCached(codec, ops, before, first) && OnlyCached(codec, [op], cache, before)
    ensures OnlyCached(codec, ops + [op], cache, first)
  {
    forall key | !AnyCaches(codec, ops + [op], key)
      ensures !AnyCaches(codec, ops, key) && !AnyCaches(codec, [op], key)
    {
      assert (ops + [op])[|ops|] == op;
      forall i | 0 <= i < |ops|
        ensures !Caches(codec, ops[i], key)
      {
        assert (ops + [op])[i] == ops[i];
      }
    }
    if Sincere(codec, ops + [op]) { SincereParts(codec, ops, op); }
  }

  lemma SincereParts(codec: Codec, ops: seq<Operation>, op: Operation)
    requires Faithful(codec) && Sincere(codec, ops + [op])
    ensures Sincere(codec, ops) && Sincere(codec, [op])
  {
    assert (ops + [op])[|ops|] == op;
    forall i | 0 <= i < |ops| && ops[i].Record?
      ensures IsClosure(codec, ops[i].doc)
    {
      assert (ops + [op])[i] == ops[i];
    }
  }

  ghost function Published(ops: seq<Operation>): set<Assertion> {
    if ops == [] then {}
    else
      var n := |ops| - 1;
      Published(ops[..n]) + Added(ops[n])
  }

  lemma PublishedStep(ops: seq<Operation>, i: nat)
    requires i < |ops|
    ensures ops[..i + 1] == ops[..i] + [ops[i]]
    ensures Published(ops[..i + 1]) == Published(ops[..i]) + Added(ops[i])
  {
    assert ops[..i + 1][..i] == ops[..i];
  }

  ghost function Added(op: Operation): set<Assertion> {
    if op.Publish? then Elements(op.facts) else {}
  }

  lemma ListedRows(codec: Codec, listing: seq<Assertion>, facts: set<Assertion>, graph: Hash)
    requires Faithful(codec) && CanonicalListing(listing, facts, codec.key) && graph == GraphHash(codec, facts)
    ensures (set j | 0 <= j < |listing| :: RowOf(listing[j], graph)) == RowsOf(codec, facts)
  {
    forall a | a in facts
      ensures exists j :: 0 <= j < |listing| && listing[j] == a
    {
      assert a in Elements(listing);
    }
    forall j | 0 <= j < |listing|
      ensures listing[j] in facts
    {
      assert listing[j] in Elements(listing);
    }
  }
}
