/**
 * A parsed Linux kernel configuration (config.go): the option-to-value map,
 * the records a diff is made of, the line parser, ParseConfig and Equal.
 */
module KernelConfig {
  import opened Results
  import opened GoStrings

  /**
   * Option name (without its CONFIG_ prefix) to value: "y", "m", a literal
   * such as "42" or "\"\"", or "n" for an option that is not set.
   */
  type Config = map<string, string>

  /** An option and its value, present in only one of two configurations. */
  datatype ConfigValue = ConfigValue(opt: string, val: string) {
    /** fmt "%s %s", e.g. "PKCS8_PRIVATE_KEY_PARSER n". */
    function String(): string {
      opt + " " + val
    }
  }

  /** An option whose value differs between two configurations. */
  datatype ConfigChange = ConfigChange(opt: string, oldVal: string, newVal: string) {
    /** fmt "%s %s -> %s", e.g. "INET6_ESP_OFFLOAD n -> m". */
    function String(): string {
      opt + " " + oldVal + " -> " + newVal
    }
  }

  /** The text of a value splits back into its option and value when neither is empty or holds white space. */
  lemma ValueStringFields(cv: ConfigValue)
    requires cv.opt != [] && NoSpace(cv.opt) && cv.val != [] && NoSpace(cv.val)
    ensures Fields(cv.String()) == [cv.opt, cv.val]
  {
    assert cv.String() == cv.opt + ([' '] + cv.val);
    TwoFields(cv.opt, cv.val);
  }

  /**
   * The text of a change splits back into its option, old value, the arrow and
   * new value when none of them is empty or holds white space.
   */
  lemma ChangeStringFields(cc: ConfigChange)
    requires cc.opt != [] && NoSpace(cc.opt)
    requires cc.oldVal != [] && NoSpace(cc.oldVal) && cc.newVal != [] && NoSpace(cc.newVal)
    ensures Fields(cc.String()) == [cc.opt, cc.oldVal, "->", cc.newVal]
  {
    assert cc.String() == cc.opt + ([' '] + (cc.oldVal + ([' '] + ("->" + ([' '] + cc.newVal)))));
    FourFields(cc.opt, cc.oldVal, "->", cc.newVal);
  }

  /** The differences between two configurations, each sequence sorted by option name. */
  datatype ConfigDiff = ConfigDiff(inOld: seq<ConfigValue>, changes: seq<ConfigChange>, inNew: seq<ConfigValue>)

  /** Why ApplyDiff refused a diff: the offending record and, for a mismatch, the value found. */
  datatype ApplyError =
    | InvalidOldValue(cv: ConfigValue)
    | InvalidChange(cc: ConfigChange)
    | MismatchedChange(cc: ConfigChange, found: string)
    | InvalidNewValue(cv: ConfigValue)

  /**
   * What parseConfigLine makes of a line: an (option, value) pair, or Malformed
   * (carrying the line) for a CONFIG_ line without '=', on which the Go code
   * indexes past the end of the tokens of strings.Split and panics.
   */
  datatype ParsedLine = Setting(opt: string, val: string) | Malformed(line: string)

  /** Why ParseConfig failed: the line it could not parse, or the reader failed. */
  datatype ParseError = MalformedLine(line: string) | ReadFailure

  /** parseConfigLine */
  function ParseConfigLine(line: string): (r: ParsedLine)
    ensures r.Malformed? ==> r.line == line && HasPrefix(TrimSpace(line), "CONFIG_")
  {
    ParseTrimmed(line, TrimSpace(line))
  }

  /** parseConfigLine once the line has been trimmed to t. */
  function ParseTrimmed(line: string, t: string): (r: ParsedLine)
    ensures r.Malformed? ==> r.line == line && HasPrefix(t, "CONFIG_")
  {
    if HasPrefix(t, "CONFIG_") then
      match SplitSetting(TrimPrefix(t, "CONFIG_"))
      case None => Malformed(line)
      case Some((opt, val)) => Setting(opt, val)
    else if HasSuffix(t, " is not set") then
      Setting(TrimPrefix(TrimSuffix(t, " is not set"), "# CONFIG_"), "n")
    else
      Setting("", "")
  }

  /**
   * tokens[0] and tokens[1] of strings.Split(s, "="): the text before the first '='
   * and the text between it and the next '=' (or the end); None when s has no '='
   * and the second token does not exist.
   */
  function SplitSetting(s: string): (r: Option<(string, string)>)
    ensures r.None? <==> '=' !in s
    ensures r.Some? ==> '=' !in r.value.0 && '=' !in r.value.1
    ensures r.Some? ==> var n, m := |r.value.0|, |r.value.1|;
      && n + 1 + m <= |s|
      && s[..n] == r.value.0 && s[n] == '=' && s[n + 1..n + 1 + m] == r.value.1
      && (n + 1 + m == |s| || s[n + 1 + m] == '=')
  {
    var i := IndexByte(s, '=');
    if i == |s| then
      assert s[..i] == s;
      None
    else
      var tail := s[i + 1..];
      var j := IndexByte(tail, '=');
      assert tail[..j] == s[i + 1..i + 1 + j];
      Some((s[..i], tail[..j]))
  }

  lemma {:induction false} IndexByteAbsent(s: string, c: char)
    requires c !in s
    ensures IndexByte(s, c) == |s|
  {
    if s != [] {
      assert s[0] in s;
      assert forall x :: x in s[1..] ==> x in s;
      IndexByteAbsent(s[1..], c);
    }
  }

  lemma SplitSettingOf(a: string, b: string, rest: string)
    requires '=' !in a && '=' !in b
    requires rest == [] || rest[0] == '='
    ensures SplitSetting(a + "=" + b + rest) == Some((a, b))
  {
    var s := a + "=" + b + rest;
    assert s == a + ['='] + (b + rest);
    IndexByteOfJoin(a, '=', b + rest);
    var tail := s[|a| + 1..];
    assert tail == b + rest;
    if rest == [] {
      assert tail == b;
      IndexByteAbsent(b, '=');
    } else {
      assert tail == b + ['='] + rest[1..];
      IndexByteOfJoin(b, '=', rest[1..]);
    }
    assert s[..|a|] == a;
    assert tail[..|b|] == b;
  }

  /** A line that is "CONFIG_" followed by s once trimmed is parsed by splitting s. */
  lemma PrefixedLineParses(line: string, s: string)
    requires TrimSpace(line) == "CONFIG_" + s
    ensures ParseConfigLine(line) == match SplitSetting(s)
                                     case None => Malformed(line)
                                     case Some((opt, val)) => Setting(opt, val)
  {
    PrefixedParses(line, TrimSpace(line), s);
  }

  lemma PrefixedParses(line: string, t: string, s: string)
    requires t == "CONFIG_" + s
    ensures ParseTrimmed(line, t) == match SplitSetting(s)
                                     case None => Malformed(line)
                                     case Some((opt, val)) => Setting(opt, val)
  {
    assert t[..7] == "CONFIG_";
    assert t[7..] == s;
  }

  /** "CONFIG_<a>=<b>" optionally followed by "=..." gives (a, b): the value stops at a second '='. */
  lemma SetLineParses(line: string, a: string, b: string, rest: string)
    requires TrimSpace(line) == "CONFIG_" + (a + "=" + b + rest)
    requires '=' !in a && '=' !in b
    requires rest == [] || rest[0] == '='
    ensures ParseConfigLine(line) == Setting(a, b)
  {
    PrefixedLineParses(line, a + "=" + b + rest);
    SplitSettingOf(a, b, rest);
  }

  /** A CONFIG_ line is malformed exactly when it has no '='; no other line is. */
  lemma MalformedIff(line: string)
    ensures ParseConfigLine(line).Malformed? <==>
            HasPrefix(TrimSpace(line), "CONFIG_") && '=' !in TrimSpace(line)
  {
    TrimmedMalformedIff(line, TrimSpace(line));
  }

  lemma TrimmedMalformedIff(line: string, t: string)
    ensures ParseTrimmed(line, t).Malformed? <==> HasPrefix(t, "CONFIG_") && '=' !in t
  {
    if HasPrefix(t, "CONFIG_") {
      var rest := t[7..];
      assert t == "CONFIG_" + rest;
      assert '=' in t <==> '=' in rest;
      var i := IndexByte(rest, '=');
      if '=' !in rest {
        IndexByteAbsent(rest, '=');
      }
    }
  }

  /** "# CONFIG_<name> is not set" gives (name, "n"). */
  lemma UnsetLineParses(line: string, name: string)
    requires TrimSpace(line) == "# CONFIG_" + name + " is not set"
    ensures ParseConfigLine(line) == Setting(name, "n")
  {
    UnsetTrimmedParses(line, TrimSpace(line), name);
  }

  lemma UnsetTrimmedParses(line: string, t: string, name: string)
    requires t == "# CONFIG_" + name + " is not set"
    ensures ParseTrimmed(line, t) == Setting(name, "n")
  {
    assert t[0] == '#';
    assert !HasPrefix(t, "CONFIG_");
    assert t[|t| - 11..] == " is not set";
    assert TrimSuffix(t, " is not set") == "# CONFIG_" + name;
    assert ("# CONFIG_" + name)[..9] == "# CONFIG_";
  }

  /**
   * Any other line ending in " is not set" also gives (text before the suffix, "n"):
   * the Go code strips "# CONFIG_" only when it is there, so "foo is not set" gives ("foo", "n").
   */
  lemma NotSetWithoutPrefixParses(line: string, s: string)
    requires TrimSpace(line) == s + " is not set"
    requires !HasPrefix(TrimSpace(line), "CONFIG_") && !HasPrefix(s, "# CONFIG_")
    ensures ParseConfigLine(line) == Setting(s, "n")
  {
    var t := TrimSpace(line);
    assert t[|t| - 11..] == " is not set";
    assert TrimSuffix(t, " is not set") == s;
  }

  /** Every other line, comments and blank lines included, gives ("", ""). */
  lemma OtherLinesGiveNothing(line: string)
    requires !HasPrefix(TrimSpace(line), "CONFIG_") && !HasSuffix(TrimSpace(line), " is not set")
    ensures ParseConfigLine(line) == Setting("", "")
  {
  }

  /** The value of CONFIG_CMDLINE="console=ttyS0" is cut at its '=': the split is not limited to two tokens. */
  lemma ValueTruncatedAtSecondEquals(line: string)
    requires line == "CONFIG_" + ("CMDLINE" + "=" + "\"console" + "=ttyS0\"")
    ensures ParseConfigLine(line) == Setting("CMDLINE", "\"console")
  {
    assert line[0] == 'C' && line[|line| - 1] == '"';
    assert '=' !in "CMDLINE" && '=' !in "\"console";
    SetLineParses(line, "CMDLINE", "\"console", "=ttyS0\"");
  }

  /** The line sets option k: it parses to a pair whose option is k. */
  predicate SetsOpt(p: ParsedLine, k: string) {
    p.Setting? && p.opt == k
  }

  /** parseConfigLine applied to each line. */
  function ParsedLines(lines: seq<string>): (ps: seq<ParsedLine>)
    ensures |ps| == |lines| && forall i :: 0 <= i < |lines| ==> ps[i] == ParseConfigLine(lines[i])
  {
    seq(|lines|, i requires 0 <= i < |lines| => ParseConfigLine(lines[i]))
  }

  /**
   * The loop of ParseConfig as a fold over the parsed lines: each pair is stored
   * when its option is not empty, later lines overwriting earlier ones; the first
   * malformed line ends the parse.
   */
  function Collect(ps: seq<ParsedLine>): (r: Result<Config, ParseError>)
    ensures r.Success? ==> "" !in r.value
  {
    if ps == [] then Success(map[])
    else
      match Collect(ps[..|ps| - 1])
      case Failure(e) => Failure(e)
      case Success(cfg) =>
        match ps[|ps| - 1]
        case Malformed(line) => Failure(MalformedLine(line))
        case Setting(opt, val) => Success(if opt != "" then cfg[opt := val] else cfg)
  }

  /** Collect on the first n + 1 lines, in terms of Collect on the first n. */
  lemma CollectStep(ps: seq<ParsedLine>, n: nat)
    requires n < |ps|
    ensures Collect(ps[..n + 1]) ==
            match Collect(ps[..n])
            case Failure(e) => Failure(e)
            case Success(cfg) =>
              match ps[n]
              case Malformed(line) => Failure(MalformedLine(line))
              case Setting(opt, val) => Success(if opt != "" then cfg[opt := val] else cfg)
  {
    assert ps[..n + 1][..n] == ps[..n];
  }

  /** The index of the first malformed line, or |ps| when there is none. */
  function FirstMalformed(ps: seq<ParsedLine>): (i: nat)
    ensures i <= |ps|
    ensures forall j :: 0 <= j < i ==> ps[j].Setting?
    ensures i < |ps| ==> ps[i].Malformed?
  {
    if ps == [] then 0
    else if ps[0].Malformed? then 0
    else 1 + FirstMalformed(ps[1..])
  }

  lemma {:induction false} FirstMalformedUnique(ps: seq<ParsedLine>, i: nat)
    requires i <= |ps|
    requires forall j :: 0 <= j < i ==> ps[j].Setting?
    requires i < |ps| ==> ps[i].Malformed?
    ensures FirstMalformed(ps) == i
  {
    if i > 0 {
      FirstMalformedUnique(ps[1..], i - 1);
    }
  }

  /** Collect fails exactly when a line is malformed, and then with the first such line. */
  lemma {:induction false} CollectFailure(ps: seq<ParsedLine>)
    ensures Collect(ps).Failure? <==> FirstMalformed(ps) < |ps|
    ensures Collect(ps).Failure? ==> Collect(ps).error == MalformedLine(ps[FirstMalformed(ps)].line)
    decreases |ps|
  {
    if ps != [] {
      var n := |ps| - 1;
      var init := ps[..n];
      assert ps[..n + 1] == ps;
      CollectFailure(init);
      CollectStep(ps, n);
      var f := FirstMalformed(init);
      if f < n {
        FirstMalformedUnique(ps, f);
      } else if ps[n].Malformed? {
        FirstMalformedUnique(ps, n);
      } else {
        FirstMalformedUnique(ps, n + 1);
      }
    }
  }

  /** Some line sets option k. */
  ghost predicate SetBy(ps: seq<ParsedLine>, k: string) {
    exists i :: 0 <= i < |ps| && SetsOpt(ps[i], k)
  }

  /** Line i is the last line that sets option k. */
  ghost predicate LastSets(ps: seq<ParsedLine>, i: int, k: string) {
    && 0 <= i < |ps|
    && SetsOpt(ps[i], k)
    && forall j :: i < j < |ps| ==> !SetsOpt(ps[j], k)
  }

  /**
   * On success, the options of Collect are exactly the non-empty options the
   * lines set, each with the value of the last line that sets it.
   */
  lemma {:induction false} CollectContents(ps: seq<ParsedLine>)
    requires Collect(ps).Success?
    ensures forall k :: k in Collect(ps).value <==> k != "" && SetBy(ps, k)
    ensures forall i, k :: LastSets(ps, i, k) && k != "" ==>
              k in Collect(ps).value && Collect(ps).value[k] == ps[i].val
    decreases |ps|
  {
    if ps != [] {
      var n := |ps| - 1;
      var init := ps[..n];
      assert ps[..n + 1] == ps;
      CollectStep(ps, n);
      CollectContents(init);
      var m := Collect(ps).value;
      assert forall j :: 0 <= j < n ==> init[j] == ps[j];
      forall k
        ensures k in m <==> k != "" && SetBy(ps, k)
      {
        if SetBy(init, k) {
          var j :| 0 <= j < n && SetsOpt(init[j], k);
          assert SetsOpt(ps[j], k);
        }
        if SetBy(ps, k) && !SetsOpt(ps[n], k) {
          var j :| 0 <= j < |ps| && SetsOpt(ps[j], k);
          assert j < n && SetsOpt(init[j], k);
        }
      }
      forall i, k | LastSets(ps, i, k) && k != ""
        ensures k in m && m[k] == ps[i].val
      {
        if i < n {
          assert LastSets(init, i, k);
        }
      }
    }
  }

  /** The parse of the lines of a whole file, before any read error is taken into account. */
  function ParseLines(lines: seq<string>): Result<Config, ParseError> {
    Collect(ParsedLines(lines))
  }

  /**
   * The lines "# comment", "# CONFIG_X is not set", "CONFIG_Y=y" and "CONFIG_Z=\"\"",
   * once parsed one by one (CommentParses, UnsetExampleParses, SetExampleParses),
   * fold to the configuration {X: n, Y: y, Z: ""}.
   */
  lemma CollectExample(ps: seq<ParsedLine>)
    requires ps == [Setting("", ""), Setting("X", "n"), Setting("Y", "y"), Setting("Z", "\"\"")]
    ensures Collect(ps) == Success(map["X" := "n", "Y" := "y", "Z" := "\"\""])
  {
    assert ps[..0] == [];
    CollectStep(ps, 0);
    assert Collect(ps[..1]) == Success(map[]);
    CollectStep(ps, 1);
    assert Collect(ps[..2]) == Success(map["X" := "n"]);
    CollectStep(ps, 2);
    assert Collect(ps[..3]) == Success(map["X" := "n", "Y" := "y"]);
    CollectStep(ps, 3);
    assert ps[..4] == ps;
  }

  lemma CommentParses(comment: string)
    requires comment == "# comment"
    ensures ParseConfigLine(comment) == Setting("", "")
  {
    assert comment[0] == '#' && |comment| == 9;
    assert TrimSpace(comment) == comment;
    assert !HasPrefix(comment, "CONFIG_");
    OtherLinesGiveNothing(comment);
  }

  lemma UnsetExampleParses(line: string)
    requires line == "# CONFIG_" + "X" + " is not set"
    ensures ParseConfigLine(line) == Setting("X", "n")
  {
    assert line[0] == '#' && line[|line| - 1] == 't';
    UnsetLineParses(line, "X");
  }

  lemma SetExampleParses(line: string, opt: string, val: string)
    requires (opt, val) == ("Y", "y") || (opt, val) == ("Z", "\"\"")
    requires line == "CONFIG_" + (opt + "=" + val)
    ensures ParseConfigLine(line) == Setting(opt, val)
  {
    assert line[0] == 'C' && line[|line| - 1] == val[|val| - 1];
    assert opt + "=" + val + "" == opt + "=" + val;
    SetLineParses(line, opt, val, "");
  }

  /**
   * ParseConfig, reading the lines the scanner delivered; readFailed says whether
   * the scanner then stopped on a read error instead of at end of input.
   */
  method ParseConfig(lines: seq<string>, readFailed: bool) returns (r: Result<Config, ParseError>)
    ensures ParseLines(lines).Failure? ==> r == ParseLines(lines)
    ensures ParseLines(lines).Success? ==> r == if readFailed then Failure(ReadFailure) else ParseLines(lines)
  {
    ghost var ps := ParsedLines(lines);
    var cfg: Config := map[];
    for i := 0 to |lines|
      invariant Collect(ps[..i]) == Success(cfg)
    {
      CollectStep(ps, i);
      match ParseConfigLine(lines[i])
      case Malformed(line) =>
        CollectFailedStops(ps, i + 1);
        return Failure(MalformedLine(line));
      case Setting(opt, val) =>
        if opt != "" {
          cfg := cfg[opt := val];
        }
    }
    assert ps[..|lines|] == ps;
    if readFailed {
      return Failure(ReadFailure);
    }
    return Success(cfg);
  }

  /** Once Collect fails on a prefix, it fails the same way on the whole input. */
  lemma {:induction false} CollectFailedStops(ps: seq<ParsedLine>, n: nat)
    requires n <= |ps| && Collect(ps[..n]).Failure?
    ensures Collect(ps) == Collect(ps[..n])
    decreases |ps| - n
  {
    if n < |ps| {
      CollectStep(ps, n);
      CollectFailedStops(ps, n + 1);
    } else {
      assert ps[..n] == ps;
    }
  }

  /** containedIn: every option of cfg is in other with the same value, i.e. cfg is other restricted to cfg's options. */
  function ContainedIn(cfg: Config, other: Config): (r: bool)
    ensures r <==> cfg.Keys <= other.Keys && other - (other.Keys - cfg.Keys) == cfg
  {
    forall opt :: opt in cfg ==> opt in other && cfg[opt] == other[opt]
  }

  /** Equal: the same options with the same values. */
  function Equal(cfg: Config, other: Config): (r: bool)
    ensures r <==> cfg == other
  {
    ContainedIn(cfg, other) && ContainedIn(other, cfg)
  }
}
