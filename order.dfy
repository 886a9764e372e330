/**
 * Go's string order (`<` on strings compares bytes lexicographically) and the
 * guarantees the package relies on from package sort: `sort.Slice` and
 * `sort.Strings` return a permutation of their input in non-decreasing order.
 * Characters stand for bytes throughout the model.
 */
module Order {

  /** a < b for Go strings. */
  predicate Less(a: string, b: string)
    decreases |a|
  {
    if a == [] then b != []
    else if b == [] then false
    else if a[0] != b[0] then a[0] < b[0]
    else Less(a[1..], b[1..])
  }

  lemma {:induction false} LessIrreflexive(a: string)
    ensures !Less(a, a)
    decreases |a|
  {
    if a != [] {
      LessIrreflexive(a[1..]);
    }
  }

  lemma {:induction false} LessAsymmetric(a: string, b: string)
    ensures Less(a, b) ==> !Less(b, a)
    decreases |a|
  {
    if a != [] && b != [] && a[0] == b[0] {
      LessAsymmetric(a[1..], b[1..]);
    }
  }

  lemma {:induction false} LessTransitive(a: string, b: string, c: string)
    requires Less(a, b) && Less(b, c)
    ensures Less(a, c)
    decreases |a|
  {
    if a != [] && a[0] == b[0] && b[0] == c[0] {
      LessTransitive(a[1..], b[1..], c[1..]);
    }
  }

  lemma {:induction false} LessTotal(a: string, b: string)
    ensures a == b || Less(a, b) || Less(b, a)
    decreases |a|
  {
    if a != [] && b != [] && a[0] == b[0] {
      LessTotal(a[1..], b[1..]);
      assert a == [a[0]] + a[1..] && b == [b[0]] + b[1..];
    }
  }

  /** "Not greater" is transitive: the chaining step of every sortedness proof. */
  lemma NotLessTransitive(a: string, b: string, c: string)
    requires !Less(b, a) && !Less(c, b)
    ensures !Less(c, a)
  {
    LessTotal(a, b);
    if Less(a, b) && Less(c, a) {
      LessTransitive(c, a, b);
    }
  }

  /** The identity on strings, the sort key of `sort.Strings`. */
  function Ident(s: string): string { s }

  /** s is in non-decreasing order of key: what `sort.Slice` with a `<` comparison guarantees. */
  ghost predicate SortedBy<T>(s: seq<T>, key: T -> string) {
    forall i, j :: 0 <= i < j < |s| ==> !Less(key(s[j]), key(s[i]))
  }

  /** s is in strictly increasing order of key. */
  ghost predicate StrictlySortedBy<T>(s: seq<T>, key: T -> string) {
    forall i, j :: 0 <= i < j < |s| ==> Less(key(s[i]), key(s[j]))
  }

  /** No two elements of s share a key. */
  ghost predicate DistinctKeys<T>(s: seq<T>, key: T -> string) {
    forall i, j :: 0 <= i < j < |s| ==> key(s[i]) != key(s[j])
  }

  lemma StrictImpliesDistinct<T>(s: seq<T>, key: T -> string)
    requires StrictlySortedBy(s, key)
    ensures DistinctKeys(s, key)
  {
    forall i, j | 0 <= i < j < |s|
      ensures key(s[i]) != key(s[j])
    {
      LessIrreflexive(key(s[i]));
    }
  }

  /** Every element of a sequence sorted by key is not smaller than its first element. */
  lemma SortedHead<T>(s: seq<T>, key: T -> string, x: T)
    requires SortedBy(s, key) && s != [] && !Less(key(s[0]), key(x))
    ensures forall i :: 0 <= i < |s| ==> !Less(key(s[i]), key(x))
  {
    forall i | 0 < i < |s| ensures !Less(key(s[i]), key(x)) {
      NotLessTransitive(key(x), key(s[0]), key(s[i]));
    }
  }

  /** Prepending an element not greater than every element keeps a sequence sorted. */
  lemma SortedCons<T>(y: T, s: seq<T>, key: T -> string)
    requires SortedBy(s, key)
    requires forall i :: 0 <= i < |s| ==> !Less(key(s[i]), key(y))
    ensures SortedBy([y] + s, key)
  {
    var r := [y] + s;
    forall i, j | 0 <= i < j < |r| ensures !Less(key(r[j]), key(r[i])) {
      if i > 0 { assert r[i] == s[i - 1] && r[j] == s[j - 1]; }
      else { assert r[j] == s[j - 1]; }
    }
  }

  /** Inserts x into the sorted sequence s before the first element whose key is not smaller. */
  function Insert<T>(x: T, s: seq<T>, key: T -> string): (r: seq<T>)
    requires SortedBy(s, key)
    ensures SortedBy(r, key)
    ensures multiset(r) == multiset(s) + multiset{x}
    ensures forall y :: y in r ==> y == x || y in s
  {
    if s == [] then [x]
    else if !Less(key(s[0]), key(x)) then
      SortedHead(s, key, x);
      SortedCons(x, s, key);
      [x] + s
    else
      var rest := Insert(x, s[1..], key);
      assert s == [s[0]] + s[1..];
      InsertHead(x, s, rest, key);
      SortedCons(s[0], rest, key);
      [s[0]] + rest
  }

  lemma InsertHead<T>(x: T, s: seq<T>, rest: seq<T>, key: T -> string)
    requires SortedBy(s, key) && s != [] && Less(key(s[0]), key(x))
    requires forall y :: y in rest ==> y == x || y in s[1..]
    ensures forall i :: 0 <= i < |rest| ==> !Less(key(rest[i]), key(s[0]))
  {
    forall i | 0 <= i < |rest| ensures !Less(key(rest[i]), key(s[0])) {
      var y := rest[i];
      assert y in rest;
      if y == x {
        LessAsymmetric(key(s[0]), key(x));
      } else {
        var k :| 0 <= k < |s[1..]| && s[1..][k] == y;
        assert s[k + 1] == y;
      }
    }
  }

  /**
   * sort.Slice(s, func(i, j int) bool { return key(s[i]) < key(s[j]) }): the result
   * is a permutation of s in non-decreasing key order. The package depends only on
   * this guarantee, not on Go's algorithm, so it is realised here by insertion.
   */
  method SortBy<T>(s: seq<T>, key: T -> string) returns (r: seq<T>)
    ensures SortedBy(r, key)
    ensures multiset(r) == multiset(s)
  {
    r := [];
    for i := 0 to |s|
      invariant SortedBy(r, key)
      invariant multiset(r) == multiset(s[..i])
    {
      r := Insert(s[i], r, key);
      assert s[..i + 1] == s[..i] + [s[i]];
    }
    assert s[..|s|] == s;
  }

  /** Distinct elements of a sequence with distinct keys occur once each. */
  lemma {:induction false} DistinctOccursOnce<T>(s: seq<T>, key: T -> string, x: T)
    requires DistinctKeys(s, key)
    ensures multiset(s)[x] <= 1
  {
    if s != [] {
      var init := s[..|s| - 1];
      assert s == init + [s[|s| - 1]];
      DistinctOccursOnce(init, key, x);
      if x == s[|s| - 1] {
        forall k | 0 <= k < |init| ensures init[k] != x {
          assert key(s[k]) != key(s[|s| - 1]);
        }
        assert x !in init;
      }
    }
  }

  /** A permutation of a sequence with distinct keys has distinct keys. */
  lemma DistinctKeysPermutation<T>(r: seq<T>, s: seq<T>, key: T -> string)
    requires DistinctKeys(s, key) && multiset(r) == multiset(s)
    ensures DistinctKeys(r, key)
  {
    forall i, j | 0 <= i < j < |r|
      ensures key(r[i]) != key(r[j])
    {
      if r[i] == r[j] {
        assert r == r[..j] + r[j..];
        assert r[i] in multiset(r[..j]) && r[j] in multiset(r[j..]);
        assert multiset(r)[r[i]] >= 2;
        DistinctOccursOnce(s, key, r[i]);
      } else {
        assert r[i] in multiset(s) && r[j] in multiset(s);
        var p :| 0 <= p < |s| && s[p] == r[i];
        var q :| 0 <= q < |s| && s[q] == r[j];
        assert p != q;
      }
    }
  }

  /** Sorting a sequence whose keys are distinct yields a strictly increasing sequence. */
  lemma SortedDistinctIsStrict<T>(r: seq<T>, s: seq<T>, key: T -> string)
    requires SortedBy(r, key) && DistinctKeys(s, key) && multiset(r) == multiset(s)
    ensures StrictlySortedBy(r, key)
  {
    DistinctKeysPermutation(r, s, key);
    forall i, j | 0 <= i < j < |r|
      ensures Less(key(r[i]), key(r[j]))
    {
      LessTotal(key(r[i]), key(r[j]));
    }
  }

  /** A strictly sorted sequence is determined by its elements. */
  lemma {:induction false} StrictlySortedUnique<T>(a: seq<T>, b: seq<T>, key: T -> string)
    requires StrictlySortedBy(a, key) && StrictlySortedBy(b, key)
    requires forall x :: x in a <==> x in b
    ensures a == b
    decreases |a|
  {
    if a != [] {
      assert a[0] in b;
    }
    if b != [] {
      assert b[0] in a;
    }
    if a != [] && b != [] {
      var k :| 0 <= k < |b| && b[k] == a[0];
      var m :| 0 <= m < |a| && a[m] == b[0];
      LessAsymmetric(key(a[0]), key(b[0]));
      assert a[0] == b[0];
      LessIrreflexive(key(a[0]));
      forall x
        ensures x in a[1..] <==> x in b[1..]
      {
        if x in a[1..] {
          var i :| 0 <= i < |a[1..]| && a[1..][i] == x;
          assert a[i + 1] == x && x in b;
          assert x != b[0];
        }
        if x in b[1..] {
          var i :| 0 <= i < |b[1..]| && b[1..][i] == x;
          assert b[i + 1] == x && x in a;
          assert x != a[0];
        }
      }
      StrictlySortedUnique(a[1..], b[1..], key);
      assert a == [a[0]] + a[1..] && b == [b[0]] + b[1..];
    }
  }

  /** m is the least element of keys. */
  ghost predicate IsLeast(m: string, keys: set<string>) {
    m in keys && forall k :: k in keys && k != m ==> Less(m, k)
  }

  /** Every non-empty finite set of strings has a least element. */
  lemma {:induction false} LeastExists(keys: set<string>) returns (m: string)
    requires keys != {}
    ensures IsLeast(m, keys)
    decreases keys
  {
    var x :| x in keys;
    if keys == {x} {
      m := x;
    } else {
      var m' := LeastExists(keys - {x});
      LessTotal(x, m');
      if Less(x, m') {
        forall k | k in keys && k != x
          ensures Less(x, k)
        {
          if k != m' { LessTransitive(x, m', k); }
        }
        m := x;
      } else {
        m := m';
      }
    }
  }

  /** The keys of a set in increasing order: what `sort.Strings` makes of them. */
  ghost function SortedKeys(keys: set<string>): (r: seq<string>)
    ensures StrictlySortedBy(r, Ident)
    ensures forall k :: k in r <==> k in keys
    decreases keys
  {
    if keys == {} then []
    else
      assert exists m :: IsLeast(m, keys) by {
        var least := LeastExists(keys);
      }
      var m :| IsLeast(m, keys);
      var rest := SortedKeys(keys - {m});
      assert forall i :: 0 <= i < |rest| ==> Less(m, rest[i]) by {
        forall i | 0 <= i < |rest| ensures Less(m, rest[i]) {
          assert rest[i] in keys - {m};
        }
      }
      [m] + rest
  }
}
