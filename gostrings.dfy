/**
 * The parts of Go's strings package that the parsers use, on strings whose
 * characters stand for bytes. White space is the ASCII white space that
 * unicode.IsSpace recognises: '\t', '\n', '\v', '\f', '\r' and ' '.
 */
module GoStrings {

  predicate IsSpace(c: char) {
    c == ' ' || 9 <= c as int <= 13
  }

  /** The characters a strings.Fields field cannot contain. */
  predicate NoSpace(s: string) {
    forall c :: c in s ==> !IsSpace(c)
  }

  predicate AllSpace(s: string) {
    forall c :: c in s ==> IsSpace(c)
  }

  /** strings.TrimLeft(s, white space) */
  function TrimLeftSpace(s: string): (r: string)
    ensures |r| <= |s| && r == s[|s| - |r|..]
    ensures r == [] || !IsSpace(r[0])
    ensures AllSpace(s[..|s| - |r|])
    ensures s == [] || !IsSpace(s[0]) ==> r == s
  {
    if s != [] && IsSpace(s[0]) then
      var r := TrimLeftSpace(s[1..]);
      assert s[..|s| - |r|] == [s[0]] + s[1..][..|s| - 1 - |r|];
      r
    else s
  }

  /** strings.TrimRight(s, white space) */
  function TrimRightSpace(s: string): (r: string)
    ensures |r| <= |s| && r == s[..|r|]
    ensures r == [] || !IsSpace(r[|r| - 1])
    ensures AllSpace(s[|r|..])
    ensures s == [] || !IsSpace(s[|s| - 1]) ==> r == s
  {
    if s != [] && IsSpace(s[|s| - 1]) then
      var r := TrimRightSpace(s[..|s| - 1]);
      assert s[|r|..] == s[..|s| - 1][|r|..] + [s[|s| - 1]];
      r
    else s
  }

  /** strings.TrimSpace: s without its leading and trailing white space. */
  function TrimSpace(s: string): (r: string)
    ensures r == [] || (!IsSpace(r[0]) && !IsSpace(r[|r| - 1]))
    ensures (s == [] || (!IsSpace(s[0]) && !IsSpace(s[|s| - 1]))) ==> r == s
    ensures SpaceAround(s, r)
  {
    var l := TrimLeftSpace(s);
    var r := TrimRightSpace(l);
    TrimmedBothEnds(s, l, r);
    r
  }

  /** s is r with only white space before and after it. */
  predicate SpaceAround(s: string, r: string) {
    exists i :: 0 <= i <= |s| - |r| && r == s[i..i + |r|] && AllSpace(s[..i]) && AllSpace(s[i + |r|..])
  }

  lemma TrimmedBothEnds(s: string, l: string, r: string)
    requires |l| <= |s| && l == s[|s| - |l|..] && AllSpace(s[..|s| - |l|]) && (l == [] || !IsSpace(l[0]))
    requires |r| <= |l| && r == l[..|r|] && AllSpace(l[|r|..]) && (r == [] || !IsSpace(r[|r| - 1]))
    ensures r == [] || (!IsSpace(r[0]) && !IsSpace(r[|r| - 1]))
    ensures SpaceAround(s, r)
  {
    assert r != [] ==> r[0] == l[0];
    var i := |s| - |l|;
    assert r == s[i..i + |r|];
    assert s[i + |r|..] == l[|r|..];
  }

  predicate HasPrefix(s: string, prefix: string) {
    |prefix| <= |s| && s[..|prefix|] == prefix
  }

  predicate HasSuffix(s: string, suffix: string) {
    |suffix| <= |s| && s[|s| - |suffix|..] == suffix
  }

  /** strings.TrimPrefix: s without prefix if it starts with it, s otherwise. */
  function TrimPrefix(s: string, prefix: string): (r: string)
    ensures HasPrefix(s, prefix) ==> prefix + r == s
    ensures !HasPrefix(s, prefix) ==> r == s
  {
    if HasPrefix(s, prefix) then s[|prefix|..] else s
  }

  /** strings.TrimSuffix: s without suffix if it ends with it, s otherwise. */
  function TrimSuffix(s: string, suffix: string): (r: string)
    ensures HasSuffix(s, suffix) ==> r + suffix == s
    ensures !HasSuffix(s, suffix) ==> r == s
  {
    if HasSuffix(s, suffix) then s[..|s| - |suffix|] else s
  }

  /** The index of the first c in s, or |s| when there is none. */
  function IndexByte(s: string, c: char): (r: nat)
    ensures r <= |s| && c !in s[..r]
    ensures r < |s| ==> s[r] == c
  {
    if s == [] then 0
    else if s[0] == c then 0
    else
      var i := IndexByte(s[1..], c);
      assert s[..i + 1] == [s[0]] + s[1..][..i];
      1 + i
  }

  lemma {:induction false} IndexByteOfJoin(a: string, c: char, b: string)
    requires c !in a
    ensures IndexByte(a + [c] + b, c) == |a|
  {
    if a != [] {
      assert (a + [c] + b)[1..] == a[1..] + [c] + b;
      IndexByteOfJoin(a[1..], c, b);
    }
  }

  /** The length of the run of non-space characters at the start of s. */
  function FieldLength(s: string): (n: nat)
    ensures n <= |s|
    ensures NoSpace(s[..n])
    ensures n < |s| ==> IsSpace(s[n])
  {
    if s == [] || IsSpace(s[0]) then 0
    else
      var n := FieldLength(s[1..]);
      assert s[..1 + n] == [s[0]] + s[1..][..n];
      1 + n
  }

  /** strings.Fields: the maximal runs of non-space characters of s, in order. */
  function Fields(s: string): seq<string>
    decreases |s|
  {
    var t := TrimLeftSpace(s);
    if t == [] then [] else [t[..FieldLength(t)]] + Fields(t[FieldLength(t)..])
  }

  /** Every string of r is a non-empty run of characters that are not white space. */
  predicate Words(r: seq<string>) {
    forall i :: 0 <= i < |r| ==> r[i] != [] && NoSpace(r[i])
  }

  lemma WordsCons(f: string, r: seq<string>)
    requires f != [] && NoSpace(f) && Words(r)
    ensures Words([f] + r)
  {
    forall i | 0 < i < |[f] + r| ensures ([f] + r)[i] != [] && NoSpace(([f] + r)[i]) {
      assert ([f] + r)[i] == r[i - 1];
    }
  }

  /** Every field is a non-empty run of characters that are not white space. */
  lemma {:induction false} FieldsAreWords(s: string)
    ensures Words(Fields(s))
    decreases |s|
  {
    var t := TrimLeftSpace(s);
    if t != [] {
      var n := FieldLength(t);
      FieldsAreWords(t[n..]);
      WordsCons(t[..n], Fields(t[n..]));
    }
  }

  lemma FieldsOfSpace(s: string)
    ensures Fields([' '] + s) == Fields(s)
  {
    assert ([' '] + s)[1..] == s;
  }

  lemma {:induction false} FieldLengthOfJoin(f: string, rest: string)
    requires NoSpace(f)
    requires rest == [] || IsSpace(rest[0])
    ensures FieldLength(f + rest) == |f|
  {
    if f != [] {
      assert f[0] in f;
      assert (f + rest)[1..] == f[1..] + rest;
      FieldLengthOfJoin(f[1..], rest);
    } else {
      assert f + rest == rest;
    }
  }

  /** A field followed by nothing or by white space is the first of the fields. */
  lemma FieldsCons(f: string, rest: string)
    requires f != [] && NoSpace(f)
    requires rest == [] || IsSpace(rest[0])
    ensures Fields(f + rest) == [f] + Fields(rest)
  {
    var s := f + rest;
    assert f[0] in f;
    FieldLengthOfJoin(f, rest);
    FieldsOfField(s, f[0], |f|);
    assert s[..|f|] == f && s[|f|..] == rest;
  }

  lemma FieldsOfField(s: string, c: char, n: nat)
    requires s != [] && s[0] == c && !IsSpace(c) && FieldLength(s) == n
    ensures Fields(s) == [s[..n]] + Fields(s[n..])
  {
    assert TrimLeftSpace(s) == s;
  }

  /** strings.TrimFunc(s, func(r rune) bool { return r == '[' || r == ']' }) */
  predicate IsBracket(c: char) {
    c == '[' || c == ']'
  }

  predicate AllBrackets(s: string) {
    forall c :: c in s ==> IsBracket(c)
  }

  function TrimLeftBrackets(s: string): (r: string)
    ensures |r| <= |s| && r == s[|s| - |r|..]
    ensures r == [] || !IsBracket(r[0])
    ensures AllBrackets(s[..|s| - |r|])
    ensures s == [] || !IsBracket(s[0]) ==> r == s
  {
    if s != [] && IsBracket(s[0]) then
      var r := TrimLeftBrackets(s[1..]);
      assert s[..|s| - |r|] == [s[0]] + s[1..][..|s| - 1 - |r|];
      r
    else s
  }

  function TrimRightBrackets(s: string): (r: string)
    ensures |r| <= |s| && r == s[..|r|]
    ensures r == [] || !IsBracket(r[|r| - 1])
    ensures AllBrackets(s[|r|..])
    ensures s == [] || !IsBracket(s[|s| - 1]) ==> r == s
  {
    if s != [] && IsBracket(s[|s| - 1]) then
      var r := TrimRightBrackets(s[..|s| - 1]);
      assert s[|r|..] == s[..|s| - 1][|r|..] + [s[|s| - 1]];
      r
    else s
  }

  function TrimBrackets(s: string): (r: string)
    ensures r == [] || (!IsBracket(r[0]) && !IsBracket(r[|r| - 1]))
    ensures BracketsAround(s, r)
  {
    var l := TrimLeftBrackets(s);
    var r := TrimRightBrackets(l);
    BracketedBothEnds(s, l, r);
    r
  }

  /** s is r with only brackets before and after it. */
  predicate BracketsAround(s: string, r: string) {
    exists i :: 0 <= i <= |s| - |r| && r == s[i..i + |r|] && AllBrackets(s[..i]) && AllBrackets(s[i + |r|..])
  }

  lemma BracketedBothEnds(s: string, l: string, r: string)
    requires |l| <= |s| && l == s[|s| - |l|..] && AllBrackets(s[..|s| - |l|]) && (l == [] || !IsBracket(l[0]))
    requires |r| <= |l| && r == l[..|r|] && AllBrackets(l[|r|..]) && (r == [] || !IsBracket(r[|r| - 1]))
    ensures r == [] || (!IsBracket(r[0]) && !IsBracket(r[|r| - 1]))
    ensures BracketsAround(s, r)
  {
    assert r != [] ==> r[0] == l[0];
    var i := |s| - |l|;
    assert r == s[i..i + |r|];
    assert s[i + |r|..] == l[|r|..];
  }

  /** Bracketing a name that neither starts nor ends with a bracket is undone by TrimBrackets. */
  lemma TrimBracketsOfBracketed(m: string)
    requires m == [] || (!IsBracket(m[0]) && !IsBracket(m[|m| - 1]))
    ensures TrimBrackets("[" + m + "]") == m
  {
    DropOpenBracket(m);
    TrimBracketsBothSides("[" + m + "]");
    if m == [] {
      DropClosedBracket(m);
    } else {
      KeepClosedName(m);
    }
  }

  lemma DropClosedBracket(m: string)
    requires m == []
    ensures TrimRightBrackets(TrimLeftBrackets(m + "]")) == m
  {
    var t := m + "]";
    assert t[1..] == [];
    assert TrimLeftBrackets(t) == [];
  }

  lemma DropOpenBracket(m: string)
    ensures TrimLeftBrackets("[" + m + "]") == TrimLeftBrackets(m + "]")
  {
    var s := "[" + m + "]";
    assert s[0] == '[' && s[1..] == m + "]";
  }

  lemma KeepClosedName(m: string)
    requires m != [] && !IsBracket(m[0]) && !IsBracket(m[|m| - 1])
    ensures TrimRightBrackets(TrimLeftBrackets(m + "]")) == m
  {
    var t := m + "]";
    assert t[0] == m[0] && t[..|m|] == m;
    assert TrimLeftBrackets(t) == t;
    assert TrimRightBrackets(t) == TrimRightBrackets(m) == m;
  }

  lemma TrimBracketsBothSides(s: string)
    ensures TrimBrackets(s) == TrimRightBrackets(TrimLeftBrackets(s))
  {
  }

  /** The strings of lines written one after the other. */
  function Concat(lines: seq<string>): string {
    if lines == [] then [] else Concat(lines[..|lines| - 1]) + lines[|lines| - 1]
  }

  lemma ConcatPrefix(lines: seq<string>, j: nat)
    requires j < |lines|
    ensures Concat(lines[..j + 1]) == Concat(lines[..j]) + lines[j]
  {
    assert lines[..j + 1][..j] == lines[..j];
  }

  lemma ConcatLast(lines: seq<string>, x: string)
    ensures Concat(lines + [x]) == Concat(lines) + x
  {
    assert (lines + [x])[..|lines|] == lines;
  }

  lemma {:induction false} ConcatAppend(a: seq<string>, b: seq<string>)
    ensures Concat(a + b) == Concat(a) + Concat(b)
    decreases |b|
  {
    if b == [] {
      assert a + b == a;
    } else {
      var b', x := b[..|b| - 1], b[|b| - 1];
      assert b == b' + [x];
      assert a + b == (a + b') + [x];
      ConcatLast(a + b', x);
      ConcatLast(b', x);
      ConcatAppend(a, b');
    }
  }

  /** The lines up to j, then the rest. */
  lemma ConcatSplit(lines: seq<string>, j: nat)
    requires j <= |lines|
    ensures Concat(lines) == Concat(lines[..j]) + Concat(lines[j..])
  {
    ConcatAppend(lines[..j], lines[j..]);
    assert lines[..j] + lines[j..] == lines;
  }

  /** A field followed by a space comes first among the fields. */
  lemma FieldThenSpace(f: string, rest: string)
    requires f != [] && NoSpace(f)
    ensures Fields(f + ([' '] + rest)) == [f] + Fields(rest)
  {
    FieldsCons(f, [' '] + rest);
    FieldsOfSpace(rest);
  }

  /** A single field is the only field. */
  lemma SingleField(f: string)
    requires f != [] && NoSpace(f)
    ensures Fields(f) == [f]
  {
    FieldsCons(f, []);
    assert f + [] == f;
    assert Fields([]) == [];
  }

  /** Two words joined by a space are its two fields. */
  lemma TwoFields(a: string, b: string)
    requires a != [] && NoSpace(a) && b != [] && NoSpace(b)
    ensures Fields(a + ([' '] + b)) == [a, b]
  {
    FieldThenSpace(a, b);
    SingleField(b);
  }

  /** Four words joined by spaces are its four fields. */
  lemma FourFields(a: string, b: string, c: string, d: string)
    requires a != [] && NoSpace(a) && b != [] && NoSpace(b)
    requires c != [] && NoSpace(c) && d != [] && NoSpace(d)
    ensures Fields(a + ([' '] + (b + ([' '] + (c + ([' '] + d)))))) == [a, b, c, d]
  {
    var bcd := b + ([' '] + (c + ([' '] + d)));
    ThreeFields(b, c, d);
    FieldThenSpace(a, bcd);
    ConsThree(Fields(a + ([' '] + bcd)), a, Fields(bcd), b, c, d);
  }

  /** Three words joined by spaces are its three fields. */
  lemma ThreeFields(b: string, c: string, d: string)
    requires b != [] && NoSpace(b) && c != [] && NoSpace(c) && d != [] && NoSpace(d)
    ensures Fields(b + ([' '] + (c + ([' '] + d)))) == [b, c, d]
  {
    var cd := c + ([' '] + d);
    TwoFields(c, d);
    FieldThenSpace(b, cd);
    ConsTwo(Fields(b + ([' '] + cd)), b, Fields(cd), c, d);
  }

  lemma ConsTwo<T>(r: seq<T>, x: T, rest: seq<T>, a: T, b: T)
    requires rest == [a, b] && r == [x] + rest
    ensures r == [x, a, b]
  {
  }

  lemma ConsThree<T>(r: seq<T>, x: T, rest: seq<T>, a: T, b: T, c: T)
    requires rest == [a, b, c] && r == [x] + rest
    ensures r == [x, a, b, c]
  {
  }

  /** One white-space character after a line without outer white space is trimmed off. */
  lemma TrimSpaceOfPadded(x: string, c: char)
    requires x != [] && !IsSpace(x[0]) && !IsSpace(x[|x| - 1]) && IsSpace(c)
    ensures TrimSpace(x + [c]) == x
  {
    var s := x + [c];
    assert s[0] == x[0];
    assert TrimLeftSpace(s) == s;
    assert s[..|s| - 1] == x;
    assert TrimRightSpace(s) == TrimRightSpace(x);
  }

  /** bufio.ScanLines drops one carriage return at the end of a line. */
  function DropCR(s: string): (r: string)
    ensures r == s || (s == r + "\r")
  {
    if s != [] && s[|s| - 1] == '\r' then s[..|s| - 1] else s
  }

  /**
   * The lines a bufio.Scanner with the default split function, bufio.ScanLines,
   * delivers for text: the text between newlines, each without a final carriage
   * return, and the text after the last newline when it is not empty.
   */
  function ScanLines(text: string): seq<string>
    decreases |text|
  {
    if text == [] then []
    else
      var i := IndexByte(text, '\n');
      if i < |text| then [DropCR(text[..i])] + ScanLines(text[i + 1..])
      else [DropCR(text)]
  }

  /** The scanner delivers a line ended by a newline, then the lines of what follows. */
  lemma ScanLinesFirst(x: string, rest: string)
    requires '\n' !in x
    ensures ScanLines(x + ['\n'] + rest) == [DropCR(x)] + ScanLines(rest)
  {
    var text := x + ['\n'] + rest;
    IndexByteOfJoin(x, '\n', rest);
    assert text[..|x|] == x && text[|x| + 1..] == rest;
  }

  /** A line written first is the first of the lines written. */
  lemma ConcatFirst(lines: seq<string>)
    requires lines != []
    ensures Concat(lines) == lines[0] + Concat(lines[1..])
  {
    ConcatAppend([lines[0]], lines[1..]);
    assert [lines[0]] + lines[1..] == lines;
    assert [lines[0]][..0] == [];
  }

  /**
   * Lines each written with a newline after it, none holding a newline or
   * ending in a carriage return, are scanned back as they were.
   */
  lemma {:induction false} ScanLinesOfLines(written: seq<string>, lines: seq<string>)
    requires |written| == |lines|
    requires forall k :: 0 <= k < |lines| ==> written[k] == lines[k] + "\n"
    requires forall k :: 0 <= k < |lines| ==> '\n' !in lines[k] && DropCR(lines[k]) == lines[k]
    ensures ScanLines(Concat(written)) == lines
    decreases |lines|
  {
    if lines != [] {
      var x, rest := lines[0], Concat(written[1..]);
      ConcatFirst(written);
      assert Concat(written) == x + ['\n'] + rest;
      ScanLinesFirst(x, rest);
      ScanLinesOfLines(written[1..], lines[1..]);
      assert [x] + lines[1..] == lines;
    } else {
      assert Concat(written) == [];
    }
  }
}
