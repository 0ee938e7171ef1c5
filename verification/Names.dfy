/**
 Names are Python strings, ordered by code point. The sorters of the repository
 (heapq, list.sort, sorted) all use this order to break ties.
 */
module Names {

  predicate Less(a: string, b: string) {
    b != "" && (a == "" || a[0] < b[0] || (a[0] == b[0] && Less(a[1..], b[1..])))
  }

  /** The strings agree up to position k, and there a has the smaller character. */
  ghost predicate SmallerAt(a: string, b: string, k: nat) {
    k < |a| && k < |b| && a[..k] == b[..k] && a[k] < b[k]
  }

  /** One string is less than another when it is a proper prefix, or smaller at the first difference. */
  lemma {:induction false} LessExactly(a: string, b: string)
    ensures Less(a, b) <==> a < b || exists k :: SmallerAt(a, b, k)
  {
    if a != "" && b != "" && a[0] == b[0] {
      LessExactly(a[1..], b[1..]);
      forall k: nat
        ensures SmallerAt(a, b, k + 1) <==> SmallerAt(a[1..], b[1..], k)
      {
        if k < |a[1..]| && k < |b[1..]| {
          assert a[..k + 1] == [a[0]] + a[1..][..k] && b[..k + 1] == [b[0]] + b[1..][..k];
        }
      }
      assert a == [a[0]] + a[1..] && b == [b[0]] + b[1..];
      if k: nat :| SmallerAt(a[1..], b[1..], k) { assert SmallerAt(a, b, k + 1); }
      if k: nat :| SmallerAt(a, b, k) { assert SmallerAt(a[1..], b[1..], k - 1); }
    } else if a != "" && b != "" {
      if a[0] < b[0] { assert SmallerAt(a, b, 0); }
      forall k: nat | 0 < k < |a| && k < |b|
        ensures a[..k] != b[..k]
      {
        assert a[..k][0] != b[..k][0];
      }
    }
  }

  lemma {:induction false} LessIrreflexive(a: string)
    ensures !Less(a, a)
  {
    if a != "" { LessIrreflexive(a[1..]); }
  }

  lemma {:induction false} LessTotal(a: string, b: string)
    ensures a == b || Less(a, b) || Less(b, a)
  {
    if a != "" && b != "" && a[0] == b[0] {
      LessTotal(a[1..], b[1..]);
      assert a == [a[0]] + a[1..] && b == [b[0]] + b[1..];
    }
  }

  lemma {:induction false} LessTransitive(a: string, b: string, c: string)
    requires Less(a, b) && Less(b, c)
    ensures Less(a, c)
  {
    if a != "" && a[0] == b[0] && b[0] == c[0] {
      LessTransitive(a[1..], b[1..], c[1..]);
    }
  }

  lemma LessAsymmetric(a: string, b: string)
    requires Less(a, b)
    ensures !Less(b, a)
  {
    if Less(b, a) {
      LessTransitive(a, b, a);
      LessIrreflexive(a);
    }
  }

  ghost predicate IsLeast(m: string, names: set<string>) {
    m in names && forall x :: x in names && x != m ==> Less(m, x)
  }

  lemma LeastIsUnique(m: string, n: string, names: set<string>)
    requires IsLeast(m, names) && IsLeast(n, names)
    ensures m == n
  {
    if m != n { LessAsymmetric(m, n); }
  }

  lemma {:induction false} LeastExists(names: set<string>)
    requires names != {}
    ensures exists m :: IsLeast(m, names)
  {
    var x :| x in names;
    if names == {x} {
      assert IsLeast(x, names);
    } else {
      var rest := names - {x};
      LeastExists(rest);
      var m :| IsLeast(m, rest);
      LessTotal(m, x);
      if Less(m, x) {
        assert IsLeast(m, names);
      } else {
        forall y | y in names && y != x
          ensures Less(x, y)
        {
          if y != m { LessTransitive(x, m, y); }
        }
        assert IsLeast(x, names);
      }
    }
  }

  ghost function Least(names: set<string>): (m: string)
    requires names != {}
    ensures IsLeast(m, names)
  {
    LeastExists(names);
    var m :| IsLeast(m, names);
    m
  }

  predicate IsSorted(s: seq<string>) {
    forall i, j :: 0 <= i < j < |s| ==> s[i] == s[j] || Less(s[i], s[j])
  }

  function Insert(x: string, s: seq<string>): (r: seq<string>)
    requires IsSorted(s)
    ensures multiset(r) == multiset(s) + multiset{x}
    ensures IsSorted(r)
  {
    if s == [] then [x]
    else
      LessTotal(x, s[0]);
      assert s == [s[0]] + s[1..];
      if x == s[0] || Less(x, s[0]) then
        InsertFront(x, s);
        [x] + s
      else
        var r := Insert(x, s[1..]);
        InsertBehind(s[0], x, s[1..], r);
        [s[0]] + r
  }

  lemma InsertFront(x: string, s: seq<string>)
    requires IsSorted(s) && s != [] && (x == s[0] || Less(x, s[0]))
    ensures IsSorted([x] + s)
  {
    var r := [x] + s;
    forall i, j | 0 <= i < j < |r|
      ensures r[i] == r[j] || Less(r[i], r[j])
    {
      if i == 0 && j > 1 && x != s[0] && s[0] != s[j - 1] {
        assert Less(s[0], s[j - 1]);
        LessTransitive(x, s[0], s[j - 1]);
      }
    }
  }

  lemma InsertBehind(y: string, x: string, s: seq<string>, r: seq<string>)
    requires IsSorted([y] + s) && IsSorted(r) && Less(y, x)
    requires multiset(r) == multiset(s) + multiset{x}
    ensures IsSorted([y] + r)
  {
    var t := [y] + r;
    forall i, j | 0 <= i < j < |t|
      ensures t[i] == t[j] || Less(t[i], t[j])
    {
      if i == 0 {
        assert t[j] == r[j - 1] && r[j - 1] in multiset(r);
        if r[j - 1] != x {
          assert r[j - 1] in multiset(s);
          var k :| 0 <= k < |s| && s[k] == r[j - 1];
          assert ([y] + s)[0] == y && ([y] + s)[k + 1] == s[k];
        }
      }
    }
  }

  /** Python's sorted() on a list of strings: the sorted permutation. */
  function Sort(s: seq<string>): (r: seq<string>)
    ensures multiset(r) == multiset(s)
    ensures IsSorted(r)
  {
    if s == [] then []
    else
      assert s == [s[0]] + s[1..];
      Insert(s[0], Sort(s[1..]))
  }

  ghost predicate Distinct<T>(s: seq<T>) {
    forall i, j :: 0 <= i < j < |s| ==> s[i] != s[j]
  }

  ghost function Elements<T>(s: seq<T>): set<T> {
    set x | x in s
  }

  lemma ElementsAppend<T>(s: seq<T>, i: nat)
    requires i < |s|
    ensures Elements(s[..i + 1]) == Elements(s[..i]) + {s[i]}
  {
    assert s[..i + 1] == s[..i] + [s[i]];
  }

  lemma SameMembers<T>(a: seq<T>, b: seq<T>)
    requires multiset(a) == multiset(b)
    ensures forall x :: x in a <==> x in b
  {
    assert forall x :: x in a <==> x in multiset(a);
    assert forall x :: x in b <==> x in multiset(b);
  }

  lemma MembersAppend<T>(s: seq<T>, i: nat)
    requires i < |s|
    ensures forall x :: x in s[..i + 1] <==> x in s[..i] || x == s[i]
  {
    assert s[..i + 1] == s[..i] + [s[i]];
  }

  lemma {:induction false} DistinctCardinality<T>(s: seq<T>)
    requires Distinct(s)
    ensures |Elements(s)| == |s|
  {
    if s != [] {
      var n := |s| - 1;
      DistinctCardinality(s[..n]);
      assert s == s[..n] + [s[n]];
      assert Elements(s) == Elements(s[..n]) + {s[n]};
      assert s[n] !in s[..n];
    }
  }

  lemma DistinctAppend<T>(a: seq<T>, b: seq<T>)
    requires Distinct(a) && Distinct(b) && forall x :: x in a ==> x !in b
    ensures Distinct(a + b)
  {
    forall i, j | 0 <= i < j < |a + b|
      ensures (a + b)[i] != (a + b)[j]
    {
      if i < |a| <= j { assert a[i] in a; }
    }
  }

  lemma {:induction false} DistinctSubset<T>(s: seq<T>, all: set<T>)
    requires Distinct(s) && Elements(s) <= all
    ensures |s| <= |all|
    ensures |s| == |all| ==> Elements(s) == all
  {
    DistinctCardinality(s);
    SubsetCardinality(Elements(s), all);
  }

  lemma {:induction false} SubsetCardinality<T>(a: set<T>, b: set<T>)
    requires a <= b
    ensures |a| <= |b|
    ensures |a| == |b| ==> a == b
  {
    var rest := b - a;
    assert a + rest == b && a !! rest;
    assert |b| == |a| + |rest|;
  }

  /** The second list after the first, without the names that are there already. */
  function Joined(a: seq<string>, b: seq<string>): seq<string>
    decreases |b|
  {
    if b == [] then a
    else
      var merged, last := Joined(a, b[..|b| - 1]), b[|b| - 1];
      if last in merged then merged else merged + [last]
  }

  lemma {:induction false} JoinedMembers(a: seq<string>, b: seq<string>, x: string)
    ensures x in Joined(a, b) <==> x in a || x in b
    decreases |b|
  {
    if b != [] {
      JoinedMembers(a, b[..|b| - 1], x);
      assert b == b[..|b| - 1] + [b[|b| - 1]];
    }
  }

  lemma JoinedOneMore(a: seq<string>, b: seq<string>, x: string)
    ensures Joined(a, b + [x]) == if x in a || x in b then Joined(a, b) else Joined(a, b) + [x]
  {
    assert (b + [x])[..|b|] == b;
    JoinedMembers(a, b, x);
  }

  lemma {:induction false} JoinedTwice(a: seq<string>, b: seq<string>, c: seq<string>)
    ensures Joined(Joined(a, b), c) == Joined(a, Joined(b, c))
    decreases |c|
  {
    if c != [] {
      var rest, x := c[..|c| - 1], c[|c| - 1];
      assert c == rest + [x];
      JoinedTwice(a, b, rest);
      JoinedOneMore(Joined(a, b), rest, x);
      JoinedMembers(a, b, x);
      JoinedOneMore(b, rest, x);
      JoinedMembers(b, rest, x);
      JoinedOneMore(a, Joined(b, rest), x);
      JoinedMembers(a, Joined(b, rest), x);
    }
  }

  lemma {:induction false} JoinedNothingNew(a: seq<string>, b: seq<string>)
    requires forall x :: x in b ==> x in a
    ensures Joined(a, b) == a
    decreases |b|
  {
    if b != [] {
      assert b == b[..|b| - 1] + [b[|b| - 1]];
      JoinedNothingNew(a, b[..|b| - 1]);
    }
  }

  lemma {:induction false} JoinedIsDistinct(a: seq<string>, b: seq<string>)
    requires Distinct(a)
    ensures Distinct(Joined(a, b))
    ensures a == [] && Distinct(b) ==> Joined(a, b) == b
    decreases |b|
  {
    if b != [] {
      var rest, x := b[..|b| - 1], b[|b| - 1];
      JoinedIsDistinct(a, rest);
      assert b == rest + [x];
      if a == [] && Distinct(b) { assert x !in rest; }
    }
  }

  lemma {:induction false} JoinedExtends(a: seq<string>, b: seq<string>)
    ensures a <= Joined(a, b)
    decreases |b|
  {
    if b != [] { JoinedExtends(a, b[..|b| - 1]); }
  }
}
