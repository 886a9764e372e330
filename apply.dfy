/**
 * Config.ApplyDiff (config.go): a copy of the configuration, then the InOld
 * records deleted, the Changes applied and the InNew records added, every
 * check made against the original configuration; and its relation to
 * DiffConfig, of which it is the inverse.
 */
module Apply {
  import opened Results
  import opened Order
  import opened KernelConfig
  import opened Diffs

  /** The options named by a sequence of records, key giving a record's option. */
  function Opts<T>(s: seq<T>, key: T -> string): (r: set<string>)
    ensures forall k :: k in r <==> exists i :: 0 <= i < |s| && key(s[i]) == k
  {
    set i | 0 <= i < |s| :: key(s[i])
  }

  /** The InOld loop from record s[0] on, acc being the map built so far. */
  function RemoveOld(cfg: Config, acc: Config, s: seq<ConfigValue>): Result<Config, ApplyError>
    decreases |s|
  {
    if s == [] then Success(acc)
    else if s[0].opt !in cfg then Failure(InvalidOldValue(s[0]))
    else RemoveOld(cfg, acc - {s[0].opt}, s[1..])
  }

  /** The Changes loop from record s[0] on. */
  function ApplyChanges(cfg: Config, acc: Config, s: seq<ConfigChange>): Result<Config, ApplyError>
    decreases |s|
  {
    if s == [] then Success(acc)
    else if s[0].opt !in cfg then Failure(InvalidChange(s[0]))
    else if cfg[s[0].opt] != s[0].oldVal then Failure(MismatchedChange(s[0], cfg[s[0].opt]))
    else ApplyChanges(cfg, acc[s[0].opt := s[0].newVal], s[1..])
  }

  /** The InNew loop from record s[0] on. */
  function AddNew(cfg: Config, acc: Config, s: seq<ConfigValue>): Result<Config, ApplyError>
    decreases |s|
  {
    if s == [] then Success(acc)
    else if s[0].opt in cfg then Failure(InvalidNewValue(s[0]))
    else AddNew(cfg, acc[s[0].opt := s[0].val], s[1..])
  }

  /** The three phases in order, starting from a copy of cfg; the first error ends it. */
  function Applied(cfg: Config, d: ConfigDiff): Result<Config, ApplyError> {
    match RemoveOld(cfg, cfg, d.inOld)
    case Failure(e) => Failure(e)
    case Success(m1) =>
      match ApplyChanges(cfg, m1, d.changes)
      case Failure(e) => Failure(e)
      case Success(m2) => AddNew(cfg, m2, d.inNew)
  }

  /** Config.ApplyDiff */
  method ApplyDiff(cfg: Config, diff: ConfigDiff) returns (r: Result<Config, ApplyError>)
    ensures r == Applied(cfg, diff)
  {
    var next: Config := map[];
    var todo := cfg.Keys;
    while todo != {}
      invariant todo <= cfg.Keys
      invariant forall k :: k in next <==> k in cfg && k !in todo
      invariant forall k :: k in next ==> next[k] == cfg[k]
      decreases todo
    {
      var opt :| opt in todo;
      next := next[opt := cfg[opt]];
      todo := todo - {opt};
    }
    assert next == cfg;

    var s := diff.inOld;
    for i := 0 to |s|
      invariant RemoveOld(cfg, next, s[i..]) == RemoveOld(cfg, cfg, s)
    {
      assert s[i..][1..] == s[i + 1..];
      if s[i].opt !in cfg {
        return Failure(InvalidOldValue(s[i]));
      }
      next := next - {s[i].opt};
    }
    assert RemoveOld(cfg, cfg, s) == Success(next);

    ghost var m1 := next;
    var cs := diff.changes;
    for i := 0 to |cs|
      invariant ApplyChanges(cfg, next, cs[i..]) == ApplyChanges(cfg, m1, cs)
    {
      assert cs[i..][1..] == cs[i + 1..];
      var cc := cs[i];
      if cc.opt !in cfg {
        return Failure(InvalidChange(cc));
      }
      if cfg[cc.opt] != cc.oldVal {
        return Failure(MismatchedChange(cc, cfg[cc.opt]));
      }
      next := next[cc.opt := cc.newVal];
    }
    assert ApplyChanges(cfg, m1, cs) == Success(next);

    ghost var m2 := next;
    var ns := diff.inNew;
    for i := 0 to |ns|
      invariant AddNew(cfg, next, ns[i..]) == AddNew(cfg, m2, ns)
    {
      assert ns[i..][1..] == ns[i + 1..];
      var cv := ns[i];
      if cv.opt in cfg {
        return Failure(InvalidNewValue(cv));
      }
      next := next[cv.opt := cv.val];
    }
    return Success(next);
  }

  /** A change fits cfg: its option is there with the old value the change expects. */
  ghost predicate ChangeFits(cfg: Config, cc: ConfigChange) {
    cc.opt in cfg && cfg[cc.opt] == cc.oldVal
  }

  /** The error of a change that does not fit cfg: its option is absent, or cfg holds another value. */
  ghost function ChangeError(cfg: Config, cc: ConfigChange): ApplyError {
    if cc.opt !in cfg then InvalidChange(cc) else MismatchedChange(cc, cfg[cc.opt])
  }

  /** Every record fits cfg: InOld and Changes options present, changes expecting cfg's values, InNew options absent. */
  ghost predicate Fits(cfg: Config, d: ConfigDiff) {
    && (forall i :: 0 <= i < |d.inOld| ==> d.inOld[i].opt in cfg)
    && (forall i :: 0 <= i < |d.changes| ==> ChangeFits(cfg, d.changes[i]))
    && (forall i :: 0 <= i < |d.inNew| ==> d.inNew[i].opt !in cfg)
  }

  /** Record i of s is the last one that names its option. */
  ghost predicate IsLast<T>(s: seq<T>, key: T -> string, i: int) {
    0 <= i < |s| && forall j :: i < j < |s| ==> key(s[j]) != key(s[i])
  }

  lemma OptsCons<T>(s: seq<T>, key: T -> string)
    requires s != []
    ensures Opts(s, key) == {key(s[0])} + Opts(s[1..], key)
  {
    var t := s[1..];
    forall k | k in Opts(s, key)
      ensures k in {key(s[0])} + Opts(t, key)
    {
      var i :| 0 <= i < |s| && key(s[i]) == k;
      if i > 0 { assert key(t[i - 1]) == k; }
    }
    forall k | k in Opts(t, key)
      ensures k in Opts(s, key)
    {
      var i :| 0 <= i < |t| && key(t[i]) == k;
      assert key(s[i + 1]) == k;
    }
  }

  /** The InOld phase succeeds exactly when cfg has every option it names; otherwise it fails at the first that cfg lacks. */
  lemma {:induction false} RemoveOldOutcome(cfg: Config, acc: Config, s: seq<ConfigValue>)
    ensures RemoveOld(cfg, acc, s).Success? <==> forall i :: 0 <= i < |s| ==> s[i].opt in cfg
    ensures RemoveOld(cfg, acc, s).Failure? ==>
              exists i :: 0 <= i < |s| && s[i].opt !in cfg && RemoveOld(cfg, acc, s).error == InvalidOldValue(s[i])
                          && forall j :: 0 <= j < i ==> s[j].opt in cfg
    decreases |s|
  {
    if s != [] && s[0].opt in cfg {
      var t := s[1..];
      RemoveOldOutcome(cfg, acc - {s[0].opt}, t);
      assert forall i :: 0 <= i < |t| ==> t[i] == s[i + 1];
      if RemoveOld(cfg, acc, s).Failure? {
        var i :| 0 <= i < |t| && t[i].opt !in cfg && RemoveOld(cfg, acc, s).error == InvalidOldValue(t[i])
                 && forall j :: 0 <= j < i ==> t[j].opt in cfg;
        assert s[i + 1] == t[i];
      }
    }
  }

  /** When it succeeds, the InOld phase deletes exactly the options it names. */
  lemma {:induction false} RemoveOldValue(cfg: Config, acc: Config, s: seq<ConfigValue>)
    requires forall i :: 0 <= i < |s| ==> s[i].opt in cfg
    ensures RemoveOld(cfg, acc, s) == Success(acc - Opts(s, ValueOpt))
    decreases |s|
  {
    if s != [] {
      RemoveOldValue(cfg, acc - {s[0].opt}, s[1..]);
      OptsCons(s, ValueOpt);
      var l := acc - {s[0].opt} - Opts(s[1..], ValueOpt);
      var r := acc - Opts(s, ValueOpt);
      assert forall k :: k in l <==> k in r;
      assert forall k :: k in l ==> l[k] == r[k];
      assert l == r;
    } else {
      assert Opts(s, ValueOpt) == {};
      assert acc - Opts(s, ValueOpt) == acc;
    }
  }

  /** The Changes phase succeeds exactly when every change fits cfg; otherwise it fails at the first that does not. */
  lemma {:induction false} ApplyChangesOutcome(cfg: Config, acc: Config, s: seq<ConfigChange>)
    ensures ApplyChanges(cfg, acc, s).Success? <==> forall i :: 0 <= i < |s| ==> ChangeFits(cfg, s[i])
    ensures ApplyChanges(cfg, acc, s).Failure? ==>
              exists i :: 0 <= i < |s| && !ChangeFits(cfg, s[i])
                          && (forall j :: 0 <= j < i ==> ChangeFits(cfg, s[j]))
                          && ApplyChanges(cfg, acc, s).error == ChangeError(cfg, s[i])
    decreases |s|
  {
    if s != [] && ChangeFits(cfg, s[0]) {
      var t, acc' := s[1..], acc[s[0].opt := s[0].newVal];
      assert ApplyChanges(cfg, acc, s) == ApplyChanges(cfg, acc', t);
      ApplyChangesOutcome(cfg, acc', t);
      assert forall i :: 0 <= i < |t| ==> t[i] == s[i + 1];
      if ApplyChanges(cfg, acc', t).Failure? {
        var i :| 0 <= i < |t| && !ChangeFits(cfg, t[i])
                 && (forall j :: 0 <= j < i ==> ChangeFits(cfg, t[j]))
                 && ApplyChanges(cfg, acc', t).error == ChangeError(cfg, t[i]);
        assert s[i + 1] == t[i];
      }
    }
  }

  /** When it succeeds, the Changes phase sets each option it names to the new value of its last change, and keeps the rest. */
  lemma {:induction false} ApplyChangesAt(cfg: Config, acc: Config, s: seq<ConfigChange>, k: string)
    requires forall i :: 0 <= i < |s| ==> ChangeFits(cfg, s[i])
    ensures ApplyChanges(cfg, acc, s).Success?
    ensures k in ApplyChanges(cfg, acc, s).value <==> k in acc || k in Opts(s, ChangeOpt)
    ensures k in acc && k !in Opts(s, ChangeOpt) ==> ApplyChanges(cfg, acc, s).value[k] == acc[k]
    ensures forall i :: IsLast(s, ChangeOpt, i) && s[i].opt == k ==>
              k in ApplyChanges(cfg, acc, s).value && ApplyChanges(cfg, acc, s).value[k] == s[i].newVal
    decreases |s|
  {
    if s != [] {
      var t := s[1..];
      var acc' := acc[s[0].opt := s[0].newVal];
      ApplyChangesAt(cfg, acc', t, k);
      OptsCons(s, ChangeOpt);
      forall i | IsLast(s, ChangeOpt, i) && s[i].opt == k
        ensures ApplyChanges(cfg, acc, s).value[k] == s[i].newVal
      {
        if i > 0 {
          assert IsLast(t, ChangeOpt, i - 1);
        } else {
          assert forall j :: 0 <= j < |t| ==> t[j].opt == s[j + 1].opt != k;
        }
      }
    }
  }

  /** The InNew phase succeeds exactly when cfg lacks every option it names; otherwise it fails at the first that cfg has. */
  lemma {:induction false} AddNewOutcome(cfg: Config, acc: Config, s: seq<ConfigValue>)
    ensures AddNew(cfg, acc, s).Success? <==> forall i :: 0 <= i < |s| ==> s[i].opt !in cfg
    ensures AddNew(cfg, acc, s).Failure? ==>
              exists i :: 0 <= i < |s| && s[i].opt in cfg && AddNew(cfg, acc, s).error == InvalidNewValue(s[i])
                          && forall j :: 0 <= j < i ==> s[j].opt !in cfg
    decreases |s|
  {
    if s != [] && s[0].opt !in cfg {
      var t := s[1..];
      AddNewOutcome(cfg, acc[s[0].opt := s[0].val], t);
      assert forall i :: 0 <= i < |t| ==> t[i] == s[i + 1];
      if AddNew(cfg, acc, s).Failure? {
        var i :| 0 <= i < |t| && t[i].opt in cfg && AddNew(cfg, acc, s).error == InvalidNewValue(t[i])
                 && forall j :: 0 <= j < i ==> t[j].opt !in cfg;
        assert s[i + 1] == t[i];
      }
    }
  }

  /** When it succeeds, the InNew phase sets each option it names to the value of its last record, and keeps the rest. */
  lemma {:induction false} AddNewAt(cfg: Config, acc: Config, s: seq<ConfigValue>, k: string)
    requires forall i :: 0 <= i < |s| ==> s[i].opt !in cfg
    ensures AddNew(cfg, acc, s).Success?
    ensures k in AddNew(cfg, acc, s).value <==> k in acc || k in Opts(s, ValueOpt)
    ensures k in acc && k !in Opts(s, ValueOpt) ==> AddNew(cfg, acc, s).value[k] == acc[k]
    ensures forall i :: IsLast(s, ValueOpt, i) && s[i].opt == k ==>
              k in AddNew(cfg, acc, s).value && AddNew(cfg, acc, s).value[k] == s[i].val
    decreases |s|
  {
    if s != [] {
      var t := s[1..];
      var acc' := acc[s[0].opt := s[0].val];
      AddNewAt(cfg, acc', t, k);
      OptsCons(s, ValueOpt);
      forall i | IsLast(s, ValueOpt, i) && s[i].opt == k
        ensures AddNew(cfg, acc, s).value[k] == s[i].val
      {
        if i > 0 {
          assert IsLast(t, ValueOpt, i - 1);
        } else {
          assert forall j :: 0 <= j < |t| ==> t[j].opt == s[j + 1].opt != k;
        }
      }
    }
  }

  /** ApplyDiff succeeds exactly when every record of the diff fits cfg. */
  lemma ApplySucceedsIff(cfg: Config, d: ConfigDiff)
    ensures Applied(cfg, d).Success? <==> Fits(cfg, d)
  {
    RemoveOldOutcome(cfg, cfg, d.inOld);
    if RemoveOld(cfg, cfg, d.inOld).Success? {
      var m1 := RemoveOld(cfg, cfg, d.inOld).value;
      ApplyChangesOutcome(cfg, m1, d.changes);
      if ApplyChanges(cfg, m1, d.changes).Success? {
        AddNewOutcome(cfg, ApplyChanges(cfg, m1, d.changes).value, d.inNew);
      }
    }
  }

  /**
   * On failure, the error names the first record that does not fit, in the order
   * InOld, Changes, InNew; a mismatch carries the value cfg actually holds.
   */
  lemma ApplyFailure(cfg: Config, d: ConfigDiff)
    requires Applied(cfg, d).Failure?
    ensures match Applied(cfg, d).error
            case InvalidOldValue(cv) =>
              exists i :: 0 <= i < |d.inOld| && d.inOld[i] == cv && cv.opt !in cfg
                          && forall j :: 0 <= j < i ==> d.inOld[j].opt in cfg
            case InvalidChange(cc) =>
              (forall j :: 0 <= j < |d.inOld| ==> d.inOld[j].opt in cfg)
              && exists i :: 0 <= i < |d.changes| && d.changes[i] == cc && cc.opt !in cfg
                             && forall j :: 0 <= j < i ==> ChangeFits(cfg, d.changes[j])
            case MismatchedChange(cc, found) =>
              (forall j :: 0 <= j < |d.inOld| ==> d.inOld[j].opt in cfg)
              && cc.opt in cfg && found == cfg[cc.opt] && found != cc.oldVal
              && exists i :: 0 <= i < |d.changes| && d.changes[i] == cc
                             && forall j :: 0 <= j < i ==> ChangeFits(cfg, d.changes[j])
            case InvalidNewValue(cv) =>
              (forall j :: 0 <= j < |d.inOld| ==> d.inOld[j].opt in cfg)
              && (forall j :: 0 <= j < |d.changes| ==> ChangeFits(cfg, d.changes[j]))
              && exists i :: 0 <= i < |d.inNew| && d.inNew[i] == cv && cv.opt in cfg
                             && forall j :: 0 <= j < i ==> d.inNew[j].opt !in cfg
  {
    RemoveOldOutcome(cfg, cfg, d.inOld);
    if RemoveOld(cfg, cfg, d.inOld).Success? {
      var m1 := RemoveOld(cfg, cfg, d.inOld).value;
      ApplyChangesOutcome(cfg, m1, d.changes);
      if ApplyChanges(cfg, m1, d.changes).Success? {
        AddNewOutcome(cfg, ApplyChanges(cfg, m1, d.changes).value, d.inNew);
      }
    }
  }

  /**
   * On success, option k of the result: cfg's options less InOld's are kept, the
   * last change of an option sets it, and the last InNew record of an option sets
   * it over everything else.
   */
  lemma ApplyResultAt(cfg: Config, d: ConfigDiff, k: string)
    requires Applied(cfg, d).Success?
    ensures var m := Applied(cfg, d).value;
            && (k in m <==> (k in cfg && k !in Opts(d.inOld, ValueOpt)) || k in Opts(d.changes, ChangeOpt) || k in Opts(d.inNew, ValueOpt))
            && ((k in cfg && k !in Opts(d.inOld, ValueOpt) && k !in Opts(d.changes, ChangeOpt) && k !in Opts(d.inNew, ValueOpt))
                  ==> m[k] == cfg[k])
            && (forall i :: IsLast(d.changes, ChangeOpt, i) && d.changes[i].opt == k && k !in Opts(d.inNew, ValueOpt)
                  ==> m[k] == d.changes[i].newVal)
            && (forall i :: IsLast(d.inNew, ValueOpt, i) && d.inNew[i].opt == k ==> m[k] == d.inNew[i].val)
  {
    ApplySucceedsIff(cfg, d);
    RemoveOldValue(cfg, cfg, d.inOld);
    var m1 := cfg - Opts(d.inOld, ValueOpt);
    ApplyChangesAt(cfg, m1, d.changes, k);
    var m2 := ApplyChanges(cfg, m1, d.changes).value;
    AddNewAt(cfg, m2, d.inNew, k);
  }

  /** A strictly sorted sequence names each option once, so each of its records is the last for its option. */
  lemma StrictAreLast<T>(s: seq<T>, key: T -> string)
    requires StrictlySortedBy(s, key)
    ensures forall i :: 0 <= i < |s| ==> IsLast(s, key, i)
  {
    StrictImpliesDistinct(s, key);
  }

  /** IsDiff, record by record. */
  lemma IsDiffAt(a: Config, b: Config, d: ConfigDiff)
    requires IsDiff(a, b, d)
    ensures forall i :: 0 <= i < |d.inOld| ==> OnlyIn(a, b, d.inOld[i])
    ensures forall i :: 0 <= i < |d.changes| ==> ChangedIn(a, b, d.changes[i])
    ensures forall i :: 0 <= i < |d.inNew| ==> OnlyIn(b, a, d.inNew[i])
  {
    assert forall i :: 0 <= i < |d.inOld| ==> d.inOld[i] in d.inOld;
    assert forall i :: 0 <= i < |d.changes| ==> d.changes[i] in d.changes;
    assert forall i :: 0 <= i < |d.inNew| ==> d.inNew[i] in d.inNew;
  }

  /** Option k of the result of applying the diff from a to b to a is option k of b. */
  lemma ApplyDiffOfConfigsAt(a: Config, b: Config, d: ConfigDiff, k: string)
    requires IsDiff(a, b, d) && Applied(a, d).Success?
    ensures k in Applied(a, d).value <==> k in b
    ensures k in b ==> Applied(a, d).value[k] == b[k]
  {
    IsDiffAt(a, b, d);
    ApplyResultAt(a, d, k);
    StrictAreLast(d.inOld, ValueOpt);
    StrictAreLast(d.changes, ChangeOpt);
    StrictAreLast(d.inNew, ValueOpt);
    if k in a && k !in b {
      assert ConfigValue(k, a[k]) in d.inOld;
    } else if k !in a && k in b {
      assert ConfigValue(k, b[k]) in d.inNew;
    } else if k in a && k in b && a[k] != b[k] {
      assert ConfigChange(k, a[k], b[k]) in d.changes;
    }
  }

  /** The first half of config.go's stated inverse: applying the diff from a to b to a gives b. */
  lemma ApplyDiffOfConfigs(a: Config, b: Config, d: ConfigDiff)
    requires IsDiff(a, b, d)
    ensures Applied(a, d) == Success(b)
  {
    IsDiffAt(a, b, d);
    ApplySucceedsIff(a, d);
    var m := Applied(a, d).value;
    forall k
      ensures k in m <==> k in b
      ensures k in b ==> m[k] == b[k]
    {
      ApplyDiffOfConfigsAt(a, b, d, k);
    }
    assert m == b;
  }

  /**
   * What the second half of the inverse needs of a diff besides fitting cfg: each
   * sequence strictly sorted, InOld recording cfg's values, no change that keeps
   * its value, and no option both deleted and changed.
   */
  ghost predicate Canonical(cfg: Config, d: ConfigDiff) {
    && StrictlySortedBy(d.inOld, ValueOpt)
    && StrictlySortedBy(d.changes, ChangeOpt)
    && StrictlySortedBy(d.inNew, ValueOpt)
    && (forall i :: 0 <= i < |d.inOld| && d.inOld[i].opt in cfg ==> d.inOld[i].val == cfg[d.inOld[i].opt])
    && (forall i :: 0 <= i < |d.changes| ==> d.changes[i].oldVal != d.changes[i].newVal)
    && Opts(d.inOld, ValueOpt) !! Opts(d.changes, ChangeOpt)
  }

  lemma AppliedInOld(cfg: Config, d: ConfigDiff, m: Config, cv: ConfigValue)
    requires Canonical(cfg, d) && Applied(cfg, d) == Success(m)
    ensures cv in d.inOld <==> OnlyIn(cfg, m, cv)
  {
    ApplySucceedsIff(cfg, d);
    ApplyResultAt(cfg, d, cv.opt);
    if cv in d.inOld {
      var i :| 0 <= i < |d.inOld| && d.inOld[i] == cv;
      assert cv.opt in Opts(d.inOld, ValueOpt);
    }
    if OnlyIn(cfg, m, cv) {
      var i :| 0 <= i < |d.inOld| && d.inOld[i].opt == cv.opt;
      assert d.inOld[i] == cv;
    }
  }

  lemma AppliedChanges(cfg: Config, d: ConfigDiff, m: Config, cc: ConfigChange)
    requires Canonical(cfg, d) && Applied(cfg, d) == Success(m)
    ensures cc in d.changes <==> ChangedIn(cfg, m, cc)
  {
    ApplySucceedsIff(cfg, d);
    ApplyResultAt(cfg, d, cc.opt);
    StrictAreLast(d.changes, ChangeOpt);
    if cc in d.changes {
      var i :| 0 <= i < |d.changes| && d.changes[i] == cc;
      assert cc.opt in Opts(d.changes, ChangeOpt);
      assert IsLast(d.changes, ChangeOpt, i);
    }
    if ChangedIn(cfg, m, cc) {
      assert cc.opt in Opts(d.changes, ChangeOpt);
      var i :| 0 <= i < |d.changes| && d.changes[i].opt == cc.opt;
      assert IsLast(d.changes, ChangeOpt, i);
      assert d.changes[i] == cc;
    }
  }

  lemma AppliedInNew(cfg: Config, d: ConfigDiff, m: Config, cv: ConfigValue)
    requires Canonical(cfg, d) && Applied(cfg, d) == Success(m)
    ensures cv in d.inNew <==> OnlyIn(m, cfg, cv)
  {
    ApplySucceedsIff(cfg, d);
    ApplyResultAt(cfg, d, cv.opt);
    StrictAreLast(d.inNew, ValueOpt);
    if cv in d.inNew {
      var i :| 0 <= i < |d.inNew| && d.inNew[i] == cv;
      assert IsLast(d.inNew, ValueOpt, i);
    }
    if OnlyIn(m, cfg, cv) {
      assert cv.opt in Opts(d.inNew, ValueOpt);
      var i :| 0 <= i < |d.inNew| && d.inNew[i].opt == cv.opt;
      assert IsLast(d.inNew, ValueOpt, i);
      assert d.inNew[i] == cv;
    }
  }

  /**
   * The second half, config_test.go's round trip: when ApplyDiff(cfg, d) succeeds
   * with m on a canonical diff, d is the diff from cfg to m, so DiffConfig(cfg, m)
   * gives d back.
   */
  lemma DiffOfApplied(cfg: Config, d: ConfigDiff, m: Config)
    requires Canonical(cfg, d) && Applied(cfg, d) == Success(m)
    ensures IsDiff(cfg, m, d)
  {
    forall cv
      ensures cv in d.inOld <==> OnlyIn(cfg, m, cv)
    {
      AppliedInOld(cfg, d, m, cv);
    }
    forall cc
      ensures cc in d.changes <==> ChangedIn(cfg, m, cc)
    {
      AppliedChanges(cfg, d, m, cc);
    }
    forall cv
      ensures cv in d.inNew <==> OnlyIn(m, cfg, cv)
    {
      AppliedInNew(cfg, d, m, cv);
    }
  }

  /**
   * ApplyDiff checks only that an InOld option is present, not its value: a diff
   * that deletes X with a value cfg does not hold still applies, and then it is
   * not the diff from cfg to the result.
   */
  lemma InOldValueUnchecked()
    ensures var cfg := map["X" := "x"];
            var d := ConfigDiff([ConfigValue("X", "y")], [], []);
            Applied(cfg, d) == Success(map[]) && !IsDiff(cfg, map[], d)
  {
    var cfg := map["X" := "x"];
    var d := ConfigDiff([ConfigValue("X", "y")], [], []);
    assert d.inOld[1..] == [];
    assert map["X" := "x"] - {"X"} == map[];
    assert d.inOld[0] in d.inOld && !OnlyIn(cfg, map[], d.inOld[0]);
  }

  /** config_test.go's successful case: delete X, change Y from y to yy, add T. */
  lemma ApplyExample()
    ensures var cfg := map["X" := "x", "Y" := "y", "Z" := "z"];
            var d := ConfigDiff([ConfigValue("X", "x")], [ConfigChange("Y", "y", "yy")], [ConfigValue("T", "t")]);
            Applied(cfg, d) == Success(map["Y" := "yy", "Z" := "z", "T" := "t"])
  {
    var cfg := map["X" := "x", "Y" := "y", "Z" := "z"];
    var d := ConfigDiff([ConfigValue("X", "x")], [ConfigChange("Y", "y", "yy")], [ConfigValue("T", "t")]);
    assert d.inOld[1..] == [] && d.changes[1..] == [] && d.inNew[1..] == [];
    var m1 := map["Y" := "y", "Z" := "z"];
    assert cfg - {"X"} == m1;
    assert RemoveOld(cfg, cfg, d.inOld) == Success(m1);
    var m2 := map["Y" := "yy", "Z" := "z"];
    assert m1["Y" := "yy"] == m2;
    assert ApplyChanges(cfg, m1, d.changes) == Success(m2);
    assert m2["T" := "t"] == map["Y" := "yy", "Z" := "z", "T" := "t"];
  }

  /** config_test.go's four failing cases, one per error kind. */
  lemma ApplyErrorExamples()
    ensures var cfg := map["X" := "x", "Y" := "y", "Z" := "z"];
            && Applied(cfg, ConfigDiff([ConfigValue("T", "t")], [], []))
               == Failure(InvalidOldValue(ConfigValue("T", "t")))
            && Applied(cfg, ConfigDiff([], [ConfigChange("T", "t", "tt")], []))
               == Failure(InvalidChange(ConfigChange("T", "t", "tt")))
            && Applied(cfg, ConfigDiff([], [ConfigChange("X", "t", "tt")], []))
               == Failure(MismatchedChange(ConfigChange("X", "t", "tt"), "x"))
            && Applied(cfg, ConfigDiff([], [], [ConfigValue("X", "t")]))
               == Failure(InvalidNewValue(ConfigValue("X", "t")))
  {
  }

  /** ... and DiffConfig of the configuration and the result gives the diff back, as config_test.go checks. */
  lemma ApplyExampleRoundTrip(d: ConfigDiff)
    requires d == ConfigDiff([ConfigValue("X", "x")], [ConfigChange("Y", "y", "yy")], [ConfigValue("T", "t")])
    ensures IsDiff(map["X" := "x", "Y" := "y", "Z" := "z"], map["Y" := "yy", "Z" := "z", "T" := "t"], d)
  {
    var cfg := map["X" := "x", "Y" := "y", "Z" := "z"];
    ApplyExample();
    assert Opts(d.inOld, ValueOpt) == {"X"} && Opts(d.changes, ChangeOpt) == {"Y"};
    assert Canonical(cfg, d);
    DiffOfApplied(cfg, d, map["Y" := "yy", "Z" := "z", "T" := "t"]);
  }
}
