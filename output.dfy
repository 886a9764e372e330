/**
 * Writing configurations and diffs as text (config.go): Config.WriteTo,
 * ConfigDiff.WriteTo and the two writers they go through, configWriter and
 * configDiffWriter. Both writers count the bytes written in n and remember the
 * first error in err; once err is set every later write is skipped.
 */
module ConfigOutput {
  import opened Results
  import opened GoStrings
  import opened Order
  import opened KernelConfig
  import opened Sinks

  /** The text of the line for one option in a configuration file. */
  function ConfigText(opt: string, val: string): string {
    if val == "n" then "# CONFIG_" + opt + " is not set"
    else "CONFIG_" + (opt + "=" + val)
  }

  /** The line for one option, with the newline that ends it. */
  function ConfigLine(opt: string, val: string): string {
    ConfigText(opt, val) + "\n"
  }

  /** The lines for the options opts of cfg, in the order of opts. */
  function LinesFor(cfg: Config, opts: seq<string>): (r: seq<string>)
    requires forall i :: 0 <= i < |opts| ==> opts[i] in cfg
    ensures |r| == |opts|
    ensures forall i :: 0 <= i < |opts| ==> r[i] == ConfigLine(opts[i], cfg[opts[i]])
  {
    if opts == [] then []
    else
      var last := opts[|opts| - 1];
      LinesFor(cfg, opts[..|opts| - 1]) + [ConfigLine(last, cfg[last])]
  }

  /** Writing the line of one more option adds its line. */
  lemma LinesForAdd(cfg: Config, opts: seq<string>, i: nat)
    requires i < |opts| && forall j :: 0 <= j < |opts| ==> opts[j] in cfg
    ensures LinesFor(cfg, opts[..i + 1]) == LinesFor(cfg, opts[..i]) + [ConfigLine(opts[i], cfg[opts[i]])]
  {
    assert opts[..i + 1][..i] == opts[..i];
  }

  /** What Config.WriteTo writes: one line per option, in increasing order of option. */
  ghost function ConfigLines(cfg: Config): seq<string> {
    LinesFor(cfg, SortedKeys(cfg.Keys))
  }

  /** The lines of ConfigDiff.WriteTo, in the style of the kernel's scripts/diffconfig. */
  function OldLine(cv: ConfigValue): string { "-" + cv.String() + "\n" }
  function ChangeLine(cc: ConfigChange): string { " " + cc.String() + "\n" }
  function NewLine(cv: ConfigValue): string { "+" + cv.String() + "\n" }

  function OldLines(s: seq<ConfigValue>): (r: seq<string>)
    ensures |r| == |s| && forall i :: 0 <= i < |s| ==> r[i] == OldLine(s[i])
  {
    if s == [] then [] else OldLines(s[..|s| - 1]) + [OldLine(s[|s| - 1])]
  }

  function ChangeLines(s: seq<ConfigChange>): (r: seq<string>)
    ensures |r| == |s| && forall i :: 0 <= i < |s| ==> r[i] == ChangeLine(s[i])
  {
    if s == [] then [] else ChangeLines(s[..|s| - 1]) + [ChangeLine(s[|s| - 1])]
  }

  function NewLines(s: seq<ConfigValue>): (r: seq<string>)
    ensures |r| == |s| && forall i :: 0 <= i < |s| ==> r[i] == NewLine(s[i])
  {
    if s == [] then [] else NewLines(s[..|s| - 1]) + [NewLine(s[|s| - 1])]
  }

  /** What ConfigDiff.WriteTo writes: the options only in the old configuration, the changes, the options only in the new one. */
  function DiffLines(d: ConfigDiff): seq<string> {
    OldLines(d.inOld) + ChangeLines(d.changes) + NewLines(d.inNew)
  }

  /** Writing one more option only in the old configuration adds its line. */
  lemma DiffLinesAddOld(olds: seq<ConfigValue>, i: nat)
    requires i < |olds|
    ensures DiffLines(ConfigDiff(olds[..i + 1], [], []))
            == DiffLines(ConfigDiff(olds[..i], [], [])) + [OldLine(olds[i])]
  {
    assert olds[..i + 1][..i] == olds[..i];
  }

  /** Writing one more change adds its line. */
  lemma DiffLinesAddChange(olds: seq<ConfigValue>, changes: seq<ConfigChange>, i: nat)
    requires i < |changes|
    ensures DiffLines(ConfigDiff(olds, changes[..i + 1], []))
            == DiffLines(ConfigDiff(olds, changes[..i], [])) + [ChangeLine(changes[i])]
  {
    assert changes[..i + 1][..i] == changes[..i];
  }

  /** Writing one more option only in the new configuration adds its line. */
  lemma DiffLinesAddNew(olds: seq<ConfigValue>, changes: seq<ConfigChange>, news: seq<ConfigValue>, i: nat)
    requires i < |news|
    ensures DiffLines(ConfigDiff(olds, changes, news[..i + 1]))
            == DiffLines(ConfigDiff(olds, changes, news[..i])) + [NewLine(news[i])]
  {
    assert news[..i + 1][..i] == news[..i];
  }

  /** configWriter: the lines handed to it so far are the ghost lines. */
  class ConfigWriter {
    const w: Sink
    var n: nat
    var err: bool
    ghost var lines: seq<string>
    ghost const data0: string
    ghost const calls0: nat

    /** The writer's state and its sink's. */
    function State(): WriteState
      reads this, w
    {
      WriteState(err, n, w.data, w.calls)
    }

    /** The state is what writing the lines through a fresh writer leads to. */
    ghost predicate Valid()
      reads this, w
    {
      State() == AfterWriting(lines, w.failing, data0, calls0)
    }

    constructor (w: Sink)
      ensures this.w == w && n == 0 && !err
      ensures lines == [] && data0 == w.data && calls0 == w.calls && Valid()
    {
      this.w := w;
      n := 0;
      err := false;
      lines := [];
      data0 := w.data;
      calls0 := w.calls;
      new;
    }

    /** configWriter.WriteLine */
    method WriteLine(option: string, value: string)
      requires Valid()
      modifies this, w
      ensures State() == StickyWrite(ConfigLine(option, value), w.failing, old(State()))
      ensures lines == old(lines) + [ConfigLine(option, value)] && Valid()
    {
      if !err {
        var k, failed := w.Write(ConfigLine(option, value));
        err := failed;
        n := n + k;
      }
      lines := lines + [ConfigLine(option, value)];
      AfterWritingStep(old(lines), ConfigLine(option, value), w.failing, data0, calls0);
    }
  }

  /** configDiffWriter: the lines handed to it so far are the ghost lines. */
  class ConfigDiffWriter {
    const w: Sink
    var n: nat
    var err: bool
    ghost var lines: seq<string>
    ghost const data0: string
    ghost const calls0: nat

    /** The writer's state and its sink's. */
    function State(): WriteState
      reads this, w
    {
      WriteState(err, n, w.data, w.calls)
    }

    /** The state is what writing the lines through a fresh writer leads to. */
    ghost predicate Valid()
      reads this, w
    {
      State() == AfterWriting(lines, w.failing, data0, calls0)
    }

    constructor (w: Sink)
      ensures this.w == w && n == 0 && !err
      ensures lines == [] && data0 == w.data && calls0 == w.calls && Valid()
    {
      this.w := w;
      n := 0;
      err := false;
      lines := [];
      data0 := w.data;
      calls0 := w.calls;
      new;
    }

    /** configDiffWriter.WriteOld */
    method WriteOld(cv: ConfigValue)
      requires Valid()
      modifies this, w
      ensures State() == StickyWrite(OldLine(cv), w.failing, old(State()))
      ensures lines == old(lines) + [OldLine(cv)] && Valid()
    {
      if !err {
        var k, failed := w.Write(OldLine(cv));
        err := failed;
        n := n + k;
      }
      lines := lines + [OldLine(cv)];
      AfterWritingStep(old(lines), OldLine(cv), w.failing, data0, calls0);
    }

    /** configDiffWriter.WriteChange */
    method WriteChange(cc: ConfigChange)
      requires Valid()
      modifies this, w
      ensures State() == StickyWrite(ChangeLine(cc), w.failing, old(State()))
      ensures lines == old(lines) + [ChangeLine(cc)] && Valid()
    {
      if !err {
        var k, failed := w.Write(ChangeLine(cc));
        err := failed;
        n := n + k;
      }
      lines := lines + [ChangeLine(cc)];
      AfterWritingStep(old(lines), ChangeLine(cc), w.failing, data0, calls0);
    }

    /** configDiffWriter.WriteNew */
    method WriteNew(cv: ConfigValue)
      requires Valid()
      modifies this, w
      ensures State() == StickyWrite(NewLine(cv), w.failing, old(State()))
      ensures lines == old(lines) + [NewLine(cv)] && Valid()
    {
      if !err {
        var k, failed := w.Write(NewLine(cv));
        err := failed;
        n := n + k;
      }
      lines := lines + [NewLine(cv)];
      AfterWritingStep(old(lines), NewLine(cv), w.failing, data0, calls0);
    }
  }

  /** The options of cfg, collected from the map and sorted with sort.Strings. */
  method SortedOptions(cfg: Config) returns (opts: seq<string>)
    ensures opts == SortedKeys(cfg.Keys)
    ensures forall i :: 0 <= i < |opts| ==> opts[i] in cfg
  {
    var found: seq<string> := [];
    var rest := cfg.Keys;
    while rest != {}
      invariant rest <= cfg.Keys
      invariant DistinctKeys(found, Ident)
      invariant forall i :: 0 <= i < |found| ==> found[i] in cfg && found[i] !in rest
      invariant forall k :: k in cfg && k !in rest ==> k in found
      decreases rest
    {
      var opt :| opt in rest;
      found := found + [opt];
      rest := rest - {opt};
    }
    opts := SortBy(found, Ident);
    SortedDistinctIsStrict(opts, found, Ident);
    ghost var keys := SortedKeys(cfg.Keys);
    forall k
      ensures k in opts <==> k in keys
    {
      assert k in opts <==> k in multiset(opts);
      assert k in found <==> k in multiset(found);
    }
    StrictlySortedUnique(opts, keys, Ident);
    forall i | 0 <= i < |opts|
      ensures opts[i] in cfg
    {
      assert opts[i] in keys;
    }
  }

  /**
   * Config.WriteTo: the options of cfg in increasing order, each written with
   * configWriter.WriteLine; returns the byte count and whether an error occurred.
   */
  method WriteConfigTo(cfg: Config, w: Sink) returns (n: nat, err: bool)
    modifies w
    ensures WriteState(err, n, w.data, w.calls) == AfterWriting(ConfigLines(cfg), w.failing, old(w.data), old(w.calls))
  {
    var opts := SortedOptions(cfg);
    var cw := new ConfigWriter(w);
    for i := 0 to |opts|
      invariant cw.Valid() && cw.lines == LinesFor(cfg, opts[..i])
      invariant cw.data0 == old(w.data) && cw.calls0 == old(w.calls)
    {
      cw.WriteLine(opts[i], cfg[opts[i]]);
      LinesForAdd(cfg, opts, i);
    }
    assert opts[..|opts|] == opts;
    return cw.n, cw.err;
  }

  /**
   * ConfigDiff.WriteTo: the options only in the old configuration, the changes
   * and the options only in the new configuration, in that order.
   */
  method WriteDiffTo(d: ConfigDiff, w: Sink) returns (n: nat, err: bool)
    modifies w
    ensures WriteState(err, n, w.data, w.calls) == AfterWriting(DiffLines(d), w.failing, old(w.data), old(w.calls))
  {
    var dw := new ConfigDiffWriter(w);
    for i := 0 to |d.inOld|
      invariant dw.Valid() && dw.lines == DiffLines(ConfigDiff(d.inOld[..i], [], []))
      invariant dw.data0 == old(w.data) && dw.calls0 == old(w.calls)
    {
      dw.WriteOld(d.inOld[i]);
      DiffLinesAddOld(d.inOld, i);
    }
    assert d.inOld[..|d.inOld|] == d.inOld;
    for i := 0 to |d.changes|
      invariant dw.Valid() && dw.lines == DiffLines(ConfigDiff(d.inOld, d.changes[..i], []))
      invariant dw.data0 == old(w.data) && dw.calls0 == old(w.calls)
    {
      dw.WriteChange(d.changes[i]);
      DiffLinesAddChange(d.inOld, d.changes, i);
    }
    assert d.changes[..|d.changes|] == d.changes;
    for i := 0 to |d.inNew|
      invariant dw.Valid() && dw.lines == DiffLines(ConfigDiff(d.inOld, d.changes, d.inNew[..i]))
      invariant dw.data0 == old(w.data) && dw.calls0 == old(w.calls)
    {
      dw.WriteNew(d.inNew[i]);
      DiffLinesAddNew(d.inOld, d.changes, d.inNew, i);
    }
    assert d.inNew[..|d.inNew|] == d.inNew;
    return dw.n, dw.err;
  }

  /**
   * The options and values whose line reads back as written: the option is not
   * empty and holds no newline, and unless the value is "n" (written as "is not
   * set"), neither contains '=', the value holds no newline and it does not end
   * in white space. Parsing alone can yield values outside this set (see
   * TrailingSpaceValueParses).
   */
  predicate Renderable(opt: string, val: string) {
    && opt != "" && '\n' !in opt
    && (val == "n" || ('=' !in opt && '=' !in val && '\n' !in val && (val == [] || !IsSpace(val[|val| - 1]))))
  }

  /** The line of a renderable option is one line to the scanner, and it keeps it whole. */
  lemma ConfigTextScans(opt: string, val: string)
    requires Renderable(opt, val)
    ensures '\n' !in ConfigText(opt, val) && DropCR(ConfigText(opt, val)) == ConfigText(opt, val)
  {
    var x := ConfigText(opt, val);
    if val == "n" {
      assert '\n' !in "# CONFIG_" && '\n' !in " is not set";
      assert x[|x| - 1] == 't';
    } else {
      assert '\n' !in "CONFIG_" && '\n' !in "=";
      assert x[|x| - 1] == if val == [] then '=' else val[|val| - 1];
    }
  }

  /** The line of a renderable option, as the scanner delivers it, parses back to that option and value. */
  lemma ConfigTextParses(opt: string, val: string)
    requires Renderable(opt, val)
    ensures ParseConfigLine(ConfigText(opt, val)) == Setting(opt, val)
  {
    if val == "n" {
      UnsetLineRoundTrip(opt);
    } else {
      SetLineRoundTrip(opt, val);
    }
  }

  lemma UnsetLineRoundTrip(opt: string)
    ensures ParseConfigLine("# CONFIG_" + opt + " is not set") == Setting(opt, "n")
  {
    var x := "# CONFIG_" + opt + " is not set";
    assert x[0] == '#' && x[|x| - 1] == 't';
    UnsetLineParses(x, opt);
  }

  lemma SetLineRoundTrip(opt: string, val: string)
    requires '=' !in opt && '=' !in val && (val == [] || !IsSpace(val[|val| - 1]))
    ensures ParseConfigLine("CONFIG_" + (opt + "=" + val)) == Setting(opt, val)
  {
    var x := "CONFIG_" + (opt + "=" + val);
    assert x[0] == 'C';
    assert x[|x| - 1] == if val == [] then '=' else val[|val| - 1];
    assert opt + "=" + val == opt + "=" + val + [];
    SetLineParses(x, opt, val, []);
  }

  /** A value ending in white space is read back without it, because the line is trimmed first. */
  lemma ValueWithTrailingSpaceDoesNotRoundTrip(opt: string, val: string, c: char)
    requires '=' !in opt && '=' !in val && val != [] && !IsSpace(val[|val| - 1]) && IsSpace(c)
    ensures ParseConfigLine(ConfigText(opt, val + [c])) == Setting(opt, val) != Setting(opt, val + [c])
  {
    assert |val + [c]| > |val| >= 1;
    assert ConfigText(opt, val + [c]) == "CONFIG_" + (opt + "=" + val) + [c];
    PaddedLineParses(opt, val, c);
  }

  lemma PaddedLineParses(opt: string, val: string, c: char)
    requires '=' !in opt && '=' !in val && val != [] && !IsSpace(val[|val| - 1]) && IsSpace(c)
    ensures ParseConfigLine("CONFIG_" + (opt + "=" + val) + [c]) == Setting(opt, val)
  {
    var x := "CONFIG_" + (opt + "=" + val);
    assert x[0] == 'C' && x[|x| - 1] == val[|val| - 1];
    TrimSpaceOfPadded(x, c);
    assert opt + "=" + val == opt + "=" + val + [];
    SetLineParses(x + [c], opt, val, []);
  }

  /** White space before a second '=' stays at the end of the value. */
  lemma SpaceBeforeEqualsParses(opt: string, val: string, c: char, tail: string)
    requires '=' !in opt && '=' !in val && IsSpace(c)
    requires tail != [] && tail[0] == '=' && !IsSpace(tail[|tail| - 1])
    ensures ParseConfigLine("CONFIG_" + (opt + "=" + (val + [c]) + tail)) == Setting(opt, val + [c])
  {
    var x := "CONFIG_" + (opt + "=" + (val + [c]) + tail);
    assert x[0] == 'C' && x[|x| - 1] == tail[|tail| - 1];
    assert '=' !in val + [c];
    SetLineParses(x, opt, val + [c], tail);
  }

  /**
   * So parsing can give a value outside Renderable: "CONFIG_A=b =c" gives the
   * value "b ", and writing that value and reading it again gives "b".
   */
  lemma TrailingSpaceValueParses()
    ensures ParseConfigLine("CONFIG_" + ("A" + "=" + ("b" + [' ']) + "=c")) == Setting("A", "b" + [' '])
    ensures ParseConfigLine(ConfigText("A", "b" + [' '])) == Setting("A", "b")
  {
    SpaceBeforeEqualsParses("A", "b", ' ', "=c");
    ValueWithTrailingSpaceDoesNotRoundTrip("A", "b", ' ');
  }

  /** A value containing '=' is cut short at its first '=' when its line is read back. */
  lemma ValueWithEqualsDoesNotRoundTrip(opt: string, head: string, tail: string)
    requires '=' !in opt && '=' !in head
    requires tail != [] && tail[0] == '=' && !IsSpace(tail[|tail| - 1])
    ensures ParseConfigLine(ConfigText(opt, head + tail)) == Setting(opt, head) != Setting(opt, head + tail)
  {
    var val := head + tail;
    assert val[|head|] == '=';
    assert '=' in val && '=' !in "n";
    assert |val| > |head|;
    CutLineParses(opt, head, tail);
  }

  lemma CutLineParses(opt: string, head: string, tail: string)
    requires '=' !in opt && '=' !in head
    requires tail != [] && tail[0] == '=' && !IsSpace(tail[|tail| - 1])
    ensures ParseConfigLine("CONFIG_" + (opt + "=" + (head + tail))) == Setting(opt, head)
  {
    var x := "CONFIG_" + (opt + "=" + (head + tail));
    assert x[0] == 'C' && x[|x| - 1] == tail[|tail| - 1];
    assert opt + "=" + (head + tail) == opt + "=" + head + tail;
    SetLineParses(x, opt, head, tail);
  }

  /** The kernel command line of a configuration that sets a console is one such value. */
  lemma CommandLineDoesNotRoundTrip()
    ensures ParseConfigLine(ConfigText("CMDLINE", "\"console" + "=ttyS0\""))
            == Setting("CMDLINE", "\"console")
  {
    var opt, head, tail := "CMDLINE", "\"console", "=ttyS0\"";
    assert '=' !in opt && '=' !in head && tail[0] == '=' && tail[|tail| - 1] == '"';
    ValueWithEqualsDoesNotRoundTrip(opt, head, tail);
  }

  /** A value holding a newline is read back cut at the newline: the rest is a line of its own. */
  lemma ValueWithNewlineDoesNotRoundTrip()
    ensures ParseLines(ScanLines(ConfigLine("A", "b" + "\n" + "c"))) == Success(map["A" := "b"])
  {
    NewlineValueParses();
    CollectSetThenNothing("A", "b");
  }

  lemma NewlineValueParses()
    ensures ParsedLines(ScanLines(ConfigLine("A", "b" + "\n" + "c"))) == [Setting("A", "b"), Setting("", "")]
  {
    var ls := ScanLines(ConfigLine("A", "b" + "\n" + "c"));
    NewlineValueScans();
    SetLineRoundTrip("A", "b");
    OtherLinesGiveNothing(ls[1]);
    var ps := ParsedLines(ls);
    assert |ps| == 2 && ps[0] == Setting("A", "b") && ps[1] == Setting("", "");
    TwoElements(ps, Setting("A", "b"), Setting("", ""));
  }

  lemma CollectSetThenNothing(opt: string, val: string)
    requires opt != ""
    ensures Collect([Setting(opt, val), Setting("", "")]) == Success(map[opt := val])
  {
    var ps := [Setting(opt, val), Setting("", "")];
    assert ps[..1] == [Setting(opt, val)] && ps[..1][..0] == [];
    assert Collect(ps[..1]) == Success(map[][opt := val]);
    assert map[][opt := val] == map[opt := val];
  }

  lemma NewlineValueScans()
    ensures ScanLines(ConfigLine("A", "b" + "\n" + "c")) == ["CONFIG_" + ("A" + "=" + "b"), "c"]
  {
    var x := "CONFIG_" + ("A" + "=" + "b");
    var text := ConfigLine("A", "b" + "\n" + "c");
    assert text == x + ['\n'] + ("c" + ['\n'] + []);
    assert '\n' !in x && '\n' !in "c";
    ScanLinesFirst(x, "c" + ['\n'] + []);
    ScanLinesFirst("c", []);
    assert DropCR(x) == x && DropCR("c") == "c";
  }

  /** Every option and value of cfg is renderable. */
  ghost predicate RenderableConfig(cfg: Config) {
    forall opt :: opt in cfg ==> Renderable(opt, cfg[opt])
  }

  /** The settings the lines of the options opts of cfg parse to. */
  function SettingsFor(cfg: Config, opts: seq<string>): (ps: seq<ParsedLine>)
    requires forall i :: 0 <= i < |opts| ==> opts[i] in cfg
    ensures |ps| == |opts| && forall i :: 0 <= i < |opts| ==> ps[i] == Setting(opts[i], cfg[opts[i]])
  {
    if opts == [] then []
    else
      var last := opts[|opts| - 1];
      SettingsFor(cfg, opts[..|opts| - 1]) + [Setting(last, cfg[last])]
  }

  /** The lines the scanner reads from the text of the options opts of cfg: their lines without newlines. */
  lemma ConfigLinesScanned(cfg: Config, opts: seq<string>)
    requires forall i :: 0 <= i < |opts| ==> opts[i] in cfg && Renderable(opts[i], cfg[opts[i]])
    ensures |ScanLines(Concat(LinesFor(cfg, opts)))| == |opts|
    ensures forall i :: 0 <= i < |opts| ==>
              ScanLines(Concat(LinesFor(cfg, opts)))[i] == ConfigText(opts[i], cfg[opts[i]])
  {
    var L := LinesFor(cfg, opts);
    var texts := seq(|opts|, i requires 0 <= i < |opts| => ConfigText(opts[i], cfg[opts[i]]));
    forall k | 0 <= k < |texts|
      ensures '\n' !in texts[k] && DropCR(texts[k]) == texts[k]
    {
      ConfigTextScans(opts[k], cfg[opts[k]]);
    }
    ScanLinesOfLines(L, texts);
  }

  /** Each line Config.WriteTo writes, read back by the scanner, parses to its option and value. */
  lemma ConfigLinesParsed(cfg: Config, opts: seq<string>)
    requires forall i :: 0 <= i < |opts| ==> opts[i] in cfg && Renderable(opts[i], cfg[opts[i]])
    ensures ParsedLines(ScanLines(Concat(LinesFor(cfg, opts)))) == SettingsFor(cfg, opts)
  {
    var ls := ScanLines(Concat(LinesFor(cfg, opts)));
    ConfigLinesScanned(cfg, opts);
    var ps := ParsedLines(ls);
    forall i | 0 <= i < |opts|
      ensures ps[i] == Setting(opts[i], cfg[opts[i]])
    {
      ConfigTextParses(opts[i], cfg[opts[i]]);
    }
  }

  /** The settings of options of cfg hold no malformed line, so folding them succeeds. */
  lemma SettingsCollect(cfg: Config, opts: seq<string>)
    requires forall i :: 0 <= i < |opts| ==> opts[i] in cfg
    ensures Collect(SettingsFor(cfg, opts)).Success?
  {
    var ps := SettingsFor(cfg, opts);
    FirstMalformedUnique(ps, |ps|);
    CollectFailure(ps);
  }

  /** With distinct options, the setting of each option is the last one that sets it. */
  lemma SettingsLastSet(cfg: Config, opts: seq<string>, i: nat)
    requires DistinctKeys(opts, Ident)
    requires forall i :: 0 <= i < |opts| ==> opts[i] in cfg
    requires i < |opts|
    ensures LastSets(SettingsFor(cfg, opts), i, opts[i])
  {
    var ps := SettingsFor(cfg, opts);
    forall j | i < j < |ps|
      ensures !SetsOpt(ps[j], opts[i])
    {
      assert Ident(opts[i]) != Ident(opts[j]);
    }
  }

  /** Each option of cfg, listed in opts, is folded to its value in cfg. */
  lemma SettingsKeep(cfg: Config, opts: seq<string>, k: string)
    requires DistinctKeys(opts, Ident)
    requires forall i :: 0 <= i < |opts| ==> opts[i] in cfg && opts[i] != ""
    requires k in opts
    ensures Collect(SettingsFor(cfg, opts)).Success?
    ensures k in Collect(SettingsFor(cfg, opts)).value
    ensures Collect(SettingsFor(cfg, opts)).value[k] == cfg[k]
  {
    var ps := SettingsFor(cfg, opts);
    SettingsCollect(cfg, opts);
    CollectContents(ps);
    var i :| 0 <= i < |opts| && opts[i] == k;
    SettingsLastSet(cfg, opts, i);
  }

  /** Folding the settings of opts sets only options in opts. */
  lemma SettingsOnly(cfg: Config, opts: seq<string>, k: string)
    requires forall i :: 0 <= i < |opts| ==> opts[i] in cfg
    requires Collect(SettingsFor(cfg, opts)).Success?
    requires k in Collect(SettingsFor(cfg, opts)).value
    ensures k in opts
  {
    var ps := SettingsFor(cfg, opts);
    CollectContents(ps);
    var i :| 0 <= i < |ps| && SetsOpt(ps[i], k);
    assert k == opts[i];
  }

  /** Folding the settings of the options of cfg, each once and none empty, gives cfg back. */
  lemma CollectSettings(cfg: Config, opts: seq<string>)
    requires DistinctKeys(opts, Ident)
    requires forall i :: 0 <= i < |opts| ==> opts[i] in cfg && opts[i] != ""
    requires forall k :: k in cfg ==> k in opts
    ensures Collect(SettingsFor(cfg, opts)) == Success(cfg)
  {
    SettingsCollect(cfg, opts);
    var m := Collect(SettingsFor(cfg, opts)).value;
    forall k | k in cfg
      ensures k in m && m[k] == cfg[k]
    {
      SettingsKeep(cfg, opts, k);
    }
    forall k | k in m
      ensures k in cfg
    {
      SettingsOnly(cfg, opts, k);
    }
    assert m.Keys == cfg.Keys;
    assert m == cfg;
  }

  /**
   * Config.WriteTo writes a valid configuration file: split into lines by the
   * scanner of ParseConfig and parsed line by line, its text gives cfg again.
   */
  lemma ConfigLinesParse(cfg: Config)
    requires RenderableConfig(cfg)
    ensures ParseLines(ScanLines(Concat(ConfigLines(cfg)))) == Success(cfg)
  {
    var keys := SortedKeys(cfg.Keys);
    assert forall i :: 0 <= i < |keys| ==> keys[i] in cfg;
    ConfigLinesParsed(cfg, keys);
    StrictImpliesDistinct(keys, Ident);
    CollectSettings(cfg, keys);
  }

  /** An empty configuration has no lines, so writing it leaves the sink as it was and reports no error. */
  lemma EmptyConfigWritesNothing(failing: set<nat>, data0: string, calls0: nat)
    ensures ConfigLines(map[]) == []
    ensures AfterWriting(ConfigLines(map[]), failing, data0, calls0) == WriteState(false, 0, data0, calls0)
  {
  }

  /** The options of the configuration written in the WriteTo test, in order. */
  lemma BasicOptionsSorted(cfg: Config)
    requires cfg == map["FOO" := "n", "BAR" := "y", "BAZ" := "\"\"", "QUUX" := "42"]
    ensures SortedKeys(cfg.Keys) == ["BAR", "BAZ", "FOO", "QUUX"]
  {
    var want := ["BAR", "BAZ", "FOO", "QUUX"];
    assert Less("BAR", "BAZ") && Less("BAZ", "FOO") && Less("FOO", "QUUX");
    SortedFour("BAR", "BAZ", "FOO", "QUUX");
    var keys := SortedKeys(cfg.Keys);
    assert cfg.Keys == {"FOO", "BAR", "BAZ", "QUUX"};
    assert forall x :: x in keys <==> x in want;
    StrictlySortedUnique(keys, want, Ident);
  }

  /** Four strings in increasing order are strictly sorted. */
  lemma SortedFour(a: string, b: string, c: string, d: string)
    requires Less(a, b) && Less(b, c) && Less(c, d)
    ensures StrictlySortedBy([a, b, c, d], Ident)
  {
    LessTransitive(a, b, c);
    LessTransitive(a, c, d);
    LessTransitive(b, c, d);
  }

  lemma BasicValues(cfg: Config)
    requires cfg == map["FOO" := "n", "BAR" := "y", "BAZ" := "\"\"", "QUUX" := "42"]
    ensures cfg["BAR"] == "y" && cfg["BAZ"] == "\"\"" && cfg["FOO"] == "n" && cfg["QUUX"] == "42"
  {
  }

  /** The lines Config.WriteTo writes for the configuration of the WriteTo test. */
  lemma BasicConfigLines(cfg: Config)
    requires cfg == map["FOO" := "n", "BAR" := "y", "BAZ" := "\"\"", "QUUX" := "42"]
    ensures ConfigLines(cfg) == ["CONFIG_" + ("BAR" + "=" + "y") + "\n",
                                 "CONFIG_" + ("BAZ" + "=" + "\"\"") + "\n",
                                 "# CONFIG_" + "FOO" + " is not set" + "\n",
                                 "CONFIG_" + ("QUUX" + "=" + "42") + "\n"]
  {
    BasicOptionsSorted(cfg);
    var keys := ["BAR", "BAZ", "FOO", "QUUX"];
    var r := LinesFor(cfg, keys);
    BasicValues(cfg);
    assert r[0] == ConfigLine(keys[0], cfg[keys[0]]) == "CONFIG_" + ("BAR" + "=" + "y") + "\n";
    assert r[1] == ConfigLine(keys[1], cfg[keys[1]]) == "CONFIG_" + ("BAZ" + "=" + "\"\"") + "\n";
    assert r[2] == ConfigLine(keys[2], cfg[keys[2]]) == "# CONFIG_" + "FOO" + " is not set" + "\n";
    assert r[3] == ConfigLine(keys[3], cfg[keys[3]]) == "CONFIG_" + ("QUUX" + "=" + "42") + "\n";
    FourElements(r, r[0], r[1], r[2], r[3]);
  }

  lemma TwoElements<T>(r: seq<T>, a: T, b: T)
    requires |r| == 2 && r[0] == a && r[1] == b
    ensures r == [a, b]
  {
  }

  lemma FourElements<T>(r: seq<T>, a: T, b: T, c: T, d: T)
    requires |r| == 4 && r[0] == a && r[1] == b && r[2] == c && r[3] == d
    ensures r == [a, b, c, d]
  {
  }

  lemma Concat4(a: string, b: string, c: string, d: string)
    ensures Concat([a, b, c, d]) == a + b + c + d
  {
    assert [a][..0] == [];
    assert Concat([a]) == Concat([]) + a;
    assert [a, b][..1] == [a];
    assert Concat([a, b]) == Concat([a]) + b;
    assert [a, b, c][..2] == [a, b];
    assert Concat([a, b, c]) == Concat([a, b]) + c;
    assert [a, b, c, d][..3] == [a, b, c];
    assert Concat([a, b, c, d]) == Concat([a, b, c]) + d;
  }

  lemma Concat6(a: string, b: string, c: string, d: string, e: string, f: string)
    ensures Concat([a, b, c, d, e, f]) == a + b + c + d + e + f
  {
    Concat4(a, b, c, d);
    assert [a, b, c, d, e][..4] == [a, b, c, d];
    assert Concat([a, b, c, d, e]) == Concat([a, b, c, d]) + e;
    assert [a, b, c, d, e, f][..5] == [a, b, c, d, e];
    assert Concat([a, b, c, d, e, f]) == Concat([a, b, c, d, e]) + f;
  }

  /** Config.WriteTo on the configuration of the WriteTo test, through a sink that never fails. */
  method BasicWriteTo() returns (text: string, n: nat, err: bool)
    ensures text == "CONFIG_" + ("BAR" + "=" + "y") + "\n"
                    + ("CONFIG_" + ("BAZ" + "=" + "\"\"") + "\n")
                    + ("# CONFIG_" + "FOO" + " is not set" + "\n")
                    + ("CONFIG_" + ("QUUX" + "=" + "42") + "\n")
    ensures n == |text| && !err
  {
    var cfg := map["FOO" := "n", "BAR" := "y", "BAZ" := "\"\"", "QUUX" := "42"];
    var w := new Sink({});
    n, err := WriteConfigTo(cfg, w);
    BasicConfigLines(cfg);
    AfterWritingAll(ConfigLines(cfg), {}, "", 0);
    Concat4("CONFIG_" + ("BAR" + "=" + "y") + "\n", "CONFIG_" + ("BAZ" + "=" + "\"\"") + "\n",
            "# CONFIG_" + "FOO" + " is not set" + "\n", "CONFIG_" + ("QUUX" + "=" + "42") + "\n");
    text := w.data;
  }

  /** The diff of the ConfigDiff.WriteTo test. */
  function TestDiff(): ConfigDiff {
    ConfigDiff([ConfigValue("FOO", "4"), ConfigValue("FOO2", "42")],
               [ConfigChange("BAR", "n", "y"), ConfigChange("Y", "y", "t")],
               [ConfigValue("BAZ", "blah"), ConfigValue("BAZ2", "blah2")])
  }

  /** The lines ConfigDiff.WriteTo writes for the diff of its test. */
  lemma TestDiffLines()
    ensures DiffLines(TestDiff())
            == ["-" + ("FOO" + " " + "4") + "\n", "-" + ("FOO2" + " " + "42") + "\n",
                " " + ("BAR" + " " + "n" + " -> " + "y") + "\n", " " + ("Y" + " " + "y" + " -> " + "t") + "\n",
                "+" + ("BAZ" + " " + "blah") + "\n", "+" + ("BAZ2" + " " + "blah2") + "\n"]
  {
    var d := TestDiff();
    var olds := OldLines(d.inOld);
    assert |olds| == 2 && olds[0] == OldLine(d.inOld[0]) && olds[1] == OldLine(d.inOld[1]);
    var changes := ChangeLines(d.changes);
    assert |changes| == 2 && changes[0] == ChangeLine(d.changes[0]) && changes[1] == ChangeLine(d.changes[1]);
    var news := NewLines(d.inNew);
    assert |news| == 2 && news[0] == NewLine(d.inNew[0]) && news[1] == NewLine(d.inNew[1]);
  }

  /** ConfigDiff.WriteTo on the diff of its test, through a sink that never fails. */
  method TestDiffWriteTo() returns (text: string, n: nat, err: bool)
    ensures text == "-" + ("FOO" + " " + "4") + "\n" + ("-" + ("FOO2" + " " + "42") + "\n")
                    + (" " + ("BAR" + " " + "n" + " -> " + "y") + "\n") + (" " + ("Y" + " " + "y" + " -> " + "t") + "\n")
                    + ("+" + ("BAZ" + " " + "blah") + "\n") + ("+" + ("BAZ2" + " " + "blah2") + "\n")
    ensures n == |text| && !err
  {
    var w := new Sink({});
    n, err := WriteDiffTo(TestDiff(), w);
    TestDiffLines();
    AfterWritingAll(DiffLines(TestDiff()), {}, "", 0);
    Concat6("-" + ("FOO" + " " + "4") + "\n", "-" + ("FOO2" + " " + "42") + "\n",
            " " + ("BAR" + " " + "n" + " -> " + "y") + "\n", " " + ("Y" + " " + "y" + " -> " + "t") + "\n",
            "+" + ("BAZ" + " " + "blah") + "\n", "+" + ("BAZ2" + " " + "blah2") + "\n");
    text := w.data;
  }
}
