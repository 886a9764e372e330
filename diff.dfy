/**
 * DiffConfig and ConfigDiff.sort (config.go): the differences between two
 * configurations as three sequences sorted by option name, and the laws the
 * tests check of them: a configuration has no differences with itself, and
 * the diff in the other direction is the mirror image.
 */
module Diffs {
  import opened Order
  import opened KernelConfig

  /** The sort key of a ConfigValue. */
  function ValueOpt(cv: ConfigValue): string { cv.opt }

  /** The sort key of a ConfigChange. */
  function ChangeOpt(cc: ConfigChange): string { cc.opt }

  /** The records DiffConfig files under InOld: the options only a has, with a's values. */
  ghost predicate OnlyIn(a: Config, b: Config, cv: ConfigValue) {
    cv.opt in a && cv.opt !in b && cv.val == a[cv.opt]
  }

  /** The records DiffConfig files under Changes: the options both have, with different values. */
  ghost predicate ChangedIn(a: Config, b: Config, cc: ConfigChange) {
    && cc.opt in a && cc.opt in b
    && a[cc.opt] != b[cc.opt]
    && cc.oldVal == a[cc.opt] && cc.newVal == b[cc.opt]
  }

  /**
   * d is the diff from a to b: each sequence is strictly increasing by option
   * name and holds exactly the records of its kind.
   */
  ghost predicate IsDiff(a: Config, b: Config, d: ConfigDiff) {
    && StrictlySortedBy(d.inOld, ValueOpt)
    && StrictlySortedBy(d.changes, ChangeOpt)
    && StrictlySortedBy(d.inNew, ValueOpt)
    && (forall cv :: cv in d.inOld <==> OnlyIn(a, b, cv))
    && (forall cc :: cc in d.changes <==> ChangedIn(a, b, cc))
    && (forall cv :: cv in d.inNew <==> OnlyIn(b, a, cv))
  }

  /**
   * ConfigDiff.sort: each of the three sequences is put in non-decreasing order of
   * option name, as a permutation of itself.
   */
  method SortDiff(d: ConfigDiff) returns (r: ConfigDiff)
    ensures SortedBy(r.inOld, ValueOpt) && multiset(r.inOld) == multiset(d.inOld)
    ensures SortedBy(r.changes, ChangeOpt) && multiset(r.changes) == multiset(d.changes)
    ensures SortedBy(r.inNew, ValueOpt) && multiset(r.inNew) == multiset(d.inNew)
  {
    var inOld := SortBy(d.inOld, ValueOpt);
    var changes := SortBy(d.changes, ChangeOpt);
    var inNew := SortBy(d.inNew, ValueOpt);
    r := ConfigDiff(inOld, changes, inNew);
  }

  /** A sorted permutation of a sequence with distinct keys is strictly sorted and has the same members. */
  lemma SortedPermutation<T>(r: seq<T>, s: seq<T>, key: T -> string)
    requires SortedBy(r, key) && DistinctKeys(s, key) && multiset(r) == multiset(s)
    ensures StrictlySortedBy(r, key)
    ensures forall x :: x in r <==> x in s
  {
    SortedDistinctIsStrict(r, s, key);
    forall x
      ensures x in r <==> x in s
    {
      assert x in r <==> x in multiset(r);
      assert x in s <==> x in multiset(s);
    }
  }

  /** Appending an element whose key is new keeps the keys distinct. */
  lemma AppendDistinct<T>(s: seq<T>, x: T, key: T -> string)
    requires DistinctKeys(s, key)
    requires forall i :: 0 <= i < |s| ==> key(s[i]) != key(x)
    ensures DistinctKeys(s + [x], key)
  {
  }

  /**
   * DiffConfig: one pass over the options of a files InOld and Changes, one pass
   * over the options of b files InNew, and the three sequences are then sorted.
   * The passes visit the options in an arbitrary order, as Go's map iteration does.
   */
  method DiffConfig(a: Config, b: Config) returns (d: ConfigDiff)
    ensures IsDiff(a, b, d)
  {
    var inOld: seq<ConfigValue> := [];
    var changes: seq<ConfigChange> := [];
    var todo := a.Keys;
    while todo != {}
      invariant todo <= a.Keys
      invariant forall cv :: cv in inOld <==> cv.opt !in todo && OnlyIn(a, b, cv)
      invariant forall cc :: cc in changes <==> cc.opt !in todo && ChangedIn(a, b, cc)
      invariant DistinctKeys(inOld, ValueOpt) && DistinctKeys(changes, ChangeOpt)
      decreases todo
    {
      var opt :| opt in todo;
      assert forall i :: 0 <= i < |inOld| ==> inOld[i] in inOld;
      assert forall i :: 0 <= i < |changes| ==> changes[i] in changes;
      if opt !in b {
        AppendDistinct(inOld, ConfigValue(opt, a[opt]), ValueOpt);
        inOld := inOld + [ConfigValue(opt, a[opt])];
      } else if a[opt] != b[opt] {
        AppendDistinct(changes, ConfigChange(opt, a[opt], b[opt]), ChangeOpt);
        changes := changes + [ConfigChange(opt, a[opt], b[opt])];
      }
      todo := todo - {opt};
    }
    var inNew: seq<ConfigValue> := [];
    todo := b.Keys;
    while todo != {}
      invariant todo <= b.Keys
      invariant forall cv :: cv in inNew <==> cv.opt !in todo && OnlyIn(b, a, cv)
      invariant DistinctKeys(inNew, ValueOpt)
      decreases todo
    {
      var opt :| opt in todo;
      assert forall i :: 0 <= i < |inNew| ==> inNew[i] in inNew;
      if opt !in a {
        AppendDistinct(inNew, ConfigValue(opt, b[opt]), ValueOpt);
        inNew := inNew + [ConfigValue(opt, b[opt])];
      }
      todo := todo - {opt};
    }
    d := SortDiff(ConfigDiff(inOld, changes, inNew));
    SortedPermutation(d.inOld, inOld, ValueOpt);
    SortedPermutation(d.changes, changes, ChangeOpt);
    SortedPermutation(d.inNew, inNew, ValueOpt);
  }

  /** The diff from a to b is unique: DiffConfig's result does not depend on the order it visits options in. */
  lemma DiffDeterministic(a: Config, b: Config, d: ConfigDiff, e: ConfigDiff)
    requires IsDiff(a, b, d) && IsDiff(a, b, e)
    ensures d == e
  {
    StrictlySortedUnique(d.inOld, e.inOld, ValueOpt);
    StrictlySortedUnique(d.changes, e.changes, ChangeOpt);
    StrictlySortedUnique(d.inNew, e.inNew, ValueOpt);
  }

  /** No change records an option whose value stays the same. */
  lemma ChangesChange(a: Config, b: Config, d: ConfigDiff)
    requires IsDiff(a, b, d)
    ensures forall i :: 0 <= i < |d.changes| ==> d.changes[i].oldVal != d.changes[i].newVal
  {
    forall i | 0 <= i < |d.changes|
      ensures d.changes[i].oldVal != d.changes[i].newVal
    {
      assert d.changes[i] in d.changes;
    }
  }

  /** config_test.go: a configuration has no differences with itself. */
  lemma DiffOfSelfIsEmpty(a: Config, d: ConfigDiff)
    requires IsDiff(a, a, d)
    ensures d == ConfigDiff([], [], [])
  {
    assert IsDiff(a, a, ConfigDiff([], [], []));
    DiffDeterministic(a, a, d, ConfigDiff([], [], []));
  }

  /** A change seen from the other side. */
  function Reverse(cc: ConfigChange): (r: ConfigChange)
    ensures r.opt == cc.opt && r.oldVal == cc.newVal && r.newVal == cc.oldVal
  {
    ConfigChange(cc.opt, cc.newVal, cc.oldVal)
  }

  function ReverseAll(cs: seq<ConfigChange>): (r: seq<ConfigChange>)
    ensures |r| == |cs| && forall i :: 0 <= i < |cs| ==> r[i] == Reverse(cs[i])
  {
    seq(|cs|, i requires 0 <= i < |cs| => Reverse(cs[i]))
  }

  /** The diff read backwards: what was only in the old configuration is only in the new one, and every change is reversed. */
  function Mirror(d: ConfigDiff): ConfigDiff {
    ConfigDiff(d.inNew, ReverseAll(d.changes), d.inOld)
  }

  /**
   * config_test.go's symmetry test: the diff from b to a is the mirror of the diff
   * from a to b, so DiffConfig(b, a).InNew == DiffConfig(a, b).InOld, the reverse,
   * and the changes agree index by index with old and new values exchanged.
   */
  lemma DiffSymmetric(a: Config, b: Config, d: ConfigDiff)
    requires IsDiff(a, b, d)
    ensures IsDiff(b, a, Mirror(d))
  {
    var m := Mirror(d);
    forall cc
      ensures cc in m.changes <==> ChangedIn(b, a, cc)
    {
      if cc in m.changes {
        var i :| 0 <= i < |m.changes| && m.changes[i] == cc;
        assert d.changes[i] in d.changes;
      }
      if ChangedIn(b, a, cc) {
        assert Reverse(cc) in d.changes;
        var i :| 0 <= i < |d.changes| && d.changes[i] == Reverse(cc);
        assert m.changes[i] == cc;
      }
    }
  }

  /** Hence DiffConfig(b, a) is exactly the mirror of DiffConfig(a, b). */
  lemma DiffOtherWay(a: Config, b: Config, d: ConfigDiff, e: ConfigDiff)
    requires IsDiff(a, b, d) && IsDiff(b, a, e)
    ensures e.inNew == d.inOld && e.inOld == d.inNew
    ensures |e.changes| == |d.changes|
    ensures forall i :: 0 <= i < |d.changes| ==>
              e.changes[i].opt == d.changes[i].opt &&
              e.changes[i].oldVal == d.changes[i].newVal && e.changes[i].newVal == d.changes[i].oldVal
  {
    DiffSymmetric(a, b, d);
    DiffDeterministic(b, a, e, Mirror(d));
  }

  /** config_test.go's second DiffConfig case: the diff between two six-option configurations. */
  lemma DiffExample(a: Config, b: Config, d: ConfigDiff)
    requires a == map["FOO" := "4", "FOO2" := "42", "BAR" := "n", "X" := "x", "Y" := "y", "QUUX" := "23"]
    requires b == map["QUUX" := "23", "BAZ" := "blah", "BAZ2" := "blah2", "X" := "z", "Y" := "t", "BAR" := "y"]
    requires IsDiff(a, b, d)
    ensures d == ConfigDiff([ConfigValue("FOO", "4"), ConfigValue("FOO2", "42")],
                            [ConfigChange("BAR", "n", "y"), ConfigChange("X", "x", "z"), ConfigChange("Y", "y", "t")],
                            [ConfigValue("BAZ", "blah"), ConfigValue("BAZ2", "blah2")])
  {
    var want := ConfigDiff([ConfigValue("FOO", "4"), ConfigValue("FOO2", "42")],
                           [ConfigChange("BAR", "n", "y"), ConfigChange("X", "x", "z"), ConfigChange("Y", "y", "t")],
                           [ConfigValue("BAZ", "blah"), ConfigValue("BAZ2", "blah2")]);
    ExampleSorted(want);
    ExampleRecords(a, b, want);
    DiffDeterministic(a, b, d, want);
  }

  lemma ExampleSorted(want: ConfigDiff)
    requires want == ConfigDiff([ConfigValue("FOO", "4"), ConfigValue("FOO2", "42")],
                                [ConfigChange("BAR", "n", "y"), ConfigChange("X", "x", "z"), ConfigChange("Y", "y", "t")],
                                [ConfigValue("BAZ", "blah"), ConfigValue("BAZ2", "blah2")])
    ensures StrictlySortedBy(want.inOld, ValueOpt) && StrictlySortedBy(want.changes, ChangeOpt)
    ensures StrictlySortedBy(want.inNew, ValueOpt)
  {
    assert Less("FOO", "FOO2") && Less("BAR", "X") && Less("X", "Y") && Less("BAZ", "BAZ2");
    LessTransitive("BAR", "X", "Y");
  }

  lemma ExampleRecords(a: Config, b: Config, want: ConfigDiff)
    requires a == map["FOO" := "4", "FOO2" := "42", "BAR" := "n", "X" := "x", "Y" := "y", "QUUX" := "23"]
    requires b == map["QUUX" := "23", "BAZ" := "blah", "BAZ2" := "blah2", "X" := "z", "Y" := "t", "BAR" := "y"]
    requires want == ConfigDiff([ConfigValue("FOO", "4"), ConfigValue("FOO2", "42")],
                                [ConfigChange("BAR", "n", "y"), ConfigChange("X", "x", "z"), ConfigChange("Y", "y", "t")],
                                [ConfigValue("BAZ", "blah"), ConfigValue("BAZ2", "blah2")])
    ensures forall cv :: cv in want.inOld <==> OnlyIn(a, b, cv)
    ensures forall cc :: cc in want.changes <==> ChangedIn(a, b, cc)
    ensures forall cv :: cv in want.inNew <==> OnlyIn(b, a, cv)
  {
    assert a.Keys == {"FOO", "FOO2", "BAR", "X", "Y", "QUUX"};
    assert b.Keys == {"QUUX", "BAZ", "BAZ2", "X", "Y", "BAR"};
  }
}
