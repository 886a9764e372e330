/**
 * Kernel symbol tables (sym.go): the symbol record and its text form, the
 * symbol-type predicates of nm and /proc/kallsyms, and the table that parses
 * lines of the form "ffffffff81000000 T _text" or
 * "ffffffffc0a1b000 t e1000_probe [e1000]" into a set of symbols.
 */
module Kallsyms {
  import opened Results
  import opened GoStrings

  /** 2^64: addresses are 64-bit uintptr values. */
  const AddressLimit: nat := 0x1_0000_0000_0000_0000

  type Address = a: nat | a < AddressLimit

  /** unicode.IsUpper on a rune of at most 0xFF: A-Z and the Latin-1 capitals. */
  predicate IsUpper(c: char) {
    'A' <= c <= 'Z' || (0xC0 <= c as int <= 0xDE && c as int != 0xD7)
  }

  /** The type letter of a symbol, as nm and /proc/kallsyms report it. */
  datatype SymbolType = SymbolType(code: char) {
    predicate Absolute() { code == 'A' || code == 'a' }
    predicate BSS() { code == 'B' || code == 'b' }
    predicate Data() { code == 'D' || code == 'd' }
    predicate Readonly() { code == 'R' || code == 'r' }
    predicate Text() { code == 'T' || code == 't' }
    predicate WeakObject() { code == 'V' || code == 'v' }
    predicate WeakSymbol() { code == 'W' || code == 'w' }
    /** Upper-case types are global (external) symbols. */
    predicate Global() { IsUpper(code) }
  }

  /** The seven section predicates name disjoint pairs of letters, and within each pair the upper-case letter is the global one. */
  lemma TypePairs(t: SymbolType)
    ensures (t.Absolute() || t.BSS() || t.Data() || t.Readonly() || t.Text() || t.WeakObject() || t.WeakSymbol())
            ==> (t.Global() <==> 'A' <= t.code <= 'Z')
    ensures t.Absolute() ==> !(t.BSS() || t.Data() || t.Readonly() || t.Text() || t.WeakObject() || t.WeakSymbol())
    ensures t.BSS() ==> !(t.Data() || t.Readonly() || t.Text() || t.WeakObject() || t.WeakSymbol())
    ensures t.Data() ==> !(t.Readonly() || t.Text() || t.WeakObject() || t.WeakSymbol())
    ensures t.Readonly() ==> !(t.Text() || t.WeakObject() || t.WeakSymbol())
    ensures t.Text() ==> !(t.WeakObject() || t.WeakSymbol())
    ensures t.WeakObject() ==> !t.WeakSymbol()
  {
  }

  /** A symbol of the kernel: its address, type, name and, for a loadable module's symbol, the module. */
  datatype Symbol = Symbol(addr: Address, typ: SymbolType, name: string, moduleName: string) {
    /** fmt "%016x %c %s", then " [%s]" with the module when there is one. */
    function String(): string {
      Hex16(addr) + " " + Utf8(typ.code) + " " + name + ModuleSuffix(moduleName)
    }
  }

  function Bracketed(m: string): string {
    "[" + m + "]"
  }

  function ModuleSuffix(m: string): string {
    if m != "" then " " + Bracketed(m) else ""
  }

  /** The field a module adds to a symbol's text: the bracketed module, if there is one. */
  function ModuleFields(m: string): seq<string> {
    if m != "" then [Bracketed(m)] else []
  }

  /** fmt's %c: the UTF-8 encoding of a code point, one character per byte. */
  function Utf8(c: char): (r: string)
    ensures 1 <= |r| <= 4
    ensures (|r| == 1) <==> (c as int < 0x80)
    ensures |r| == 1 ==> r[0] == c
    ensures |r| > 1 ==> forall i :: 0 <= i < |r| ==> r[i] as int >= 0x80
  {
    var v := c as int;
    if v < 0x80 then [c]
    else if v < 0x800 then [(0xC0 + v / 64) as char, (0x80 + v % 64) as char]
    else if v < 0x10000 then [(0xE0 + v / 4096) as char, (0x80 + v / 64 % 64) as char, (0x80 + v % 64) as char]
    else [(0xF0 + v / 262144) as char, (0x80 + v / 4096 % 64) as char, (0x80 + v / 64 % 64) as char, (0x80 + v % 64) as char]
  }

  /** Hexadecimal digits, as strconv.ParseUint reads them in base 16. */
  predicate IsHexDigit(c: char) {
    '0' <= c <= '9' || 'a' <= c <= 'f' || 'A' <= c <= 'F'
  }

  function DigitValue(c: char): (d: nat)
    requires IsHexDigit(c)
    ensures d < 16
  {
    if '0' <= c <= '9' then c as int - '0' as int
    else if 'a' <= c <= 'f' then c as int - 'a' as int + 10
    else c as int - 'A' as int + 10
  }

  predicate AllHex(s: string) {
    forall i :: 0 <= i < |s| ==> IsHexDigit(s[i])
  }

  /** Digits as %x writes them: 0-9 and lower-case a-f. */
  predicate LowerHex(s: string) {
    forall i :: 0 <= i < |s| ==> '0' <= s[i] <= '9' || 'a' <= s[i] <= 'f'
  }

  /** The number the digits of s stand for, most significant first. */
  function HexValue(s: string): nat
    requires AllHex(s)
  {
    if s == [] then 0 else 16 * HexValue(s[..|s| - 1]) + DigitValue(s[|s| - 1])
  }

  function Pow16(k: nat): (p: nat)
    ensures p >= 1
  {
    if k == 0 then 1 else 16 * Pow16(k - 1)
  }

  /**
   * strconv.ParseUint(s, 16, 64): s is one or more hexadecimal digits, with no
   * sign, prefix or underscore, and its value fits in 64 bits.
   */
  function ParseHex(s: string): (r: Option<Address>)
    ensures r.Some? <==> s != [] && AllHex(s) && HexValue(s) < AddressLimit
    ensures r.Some? ==> r.value == HexValue(s)
  {
    if s != [] && AllHex(s) && HexValue(s) < AddressLimit then Some(HexValue(s)) else None
  }

  function HexDigit(d: nat): (c: char)
    requires d < 16
    ensures IsHexDigit(c) && DigitValue(c) == d && !IsSpace(c)
    ensures '0' <= c <= '9' || 'a' <= c <= 'f'
  {
    if d < 10 then ('0' as int + d) as char else ('a' as int + d - 10) as char
  }

  /** The last k hexadecimal digits of a, in lower case, most significant first. */
  function HexDigits(a: nat, k: nat): (r: string)
    ensures |r| == k && AllHex(r) && LowerHex(r) && NoSpace(r)
  {
    if k == 0 then [] else HexDigits(a / 16, k - 1) + [HexDigit(a % 16)]
  }

  /** %016x of a 64-bit value. */
  function Hex16(a: Address): (r: string)
    ensures |r| == 16 && AllHex(r) && LowerHex(r) && NoSpace(r)
  {
    HexDigits(a, 16)
  }

  lemma {:induction false} Pow16Add(j: nat, k: nat)
    ensures Pow16(j + k) == Pow16(j) * Pow16(k)
  {
    if k > 0 {
      Pow16Add(j, k - 1);
    }
  }

  /** k digits write every number below 16^k exactly. */
  lemma {:induction false} HexDigitsValue(a: nat, k: nat)
    requires a < Pow16(k)
    ensures HexValue(HexDigits(a, k)) == a
  {
    if k > 0 {
      var r := HexDigits(a, k);
      assert r[..k - 1] == HexDigits(a / 16, k - 1);
      HexDigitsValue(a / 16, k - 1);
    }
  }

  /** Reading back the sixteen digits of an address gives the address. */
  lemma HexRoundTrip(a: Address)
    ensures ParseHex(Hex16(a)) == Some(a)
  {
    assert Pow16(4) == 0x1_0000 by {
      assert Pow16(1) == 16 && Pow16(2) == 256 && Pow16(3) == 4096;
    }
    Pow16Add(4, 4);
    Pow16Add(8, 8);
    HexDigitsValue(a, 16);
  }

  /** Why a line of a symbol table was refused. */
  datatype SymbolError =
    | MalformedSymbolLine(line: string)
    | BadAddress(field: string)
    | UnknownType(field: string)

  /**
   * SymbolTable.parse, as a function of the line: three or four fields, a
   * hexadecimal address, a one-byte type, a name and an optional module whose
   * surrounding brackets are removed.
   */
  function ParseSymbolLine(line: string): (r: Result<Symbol, SymbolError>)
    ensures var fields := Fields(line);
            r.Success? <==> (|fields| == 3 || |fields| == 4) && ParseHex(fields[0]).Some? && |fields[1]| == 1
    ensures var fields := Fields(line);
            r == Failure(MalformedSymbolLine(line)) <==> |fields| != 3 && |fields| != 4
    ensures r.Success? ==> r.value.name != "" && NoSpace(r.value.name)
    ensures r.Success? ==> var fields := Fields(line);
            && ParseHex(fields[0]) == Some(r.value.addr)
            && r.value.typ == SymbolType(fields[1][0])
            && r.value.name == fields[2]
            && r.value.moduleName == if |fields| == 4 then TrimBrackets(fields[3]) else ""
  {
    var fields := Fields(line);
    if |fields| != 3 && |fields| != 4 then Failure(MalformedSymbolLine(line))
    else match ParseHex(fields[0]) {
      case None => Failure(BadAddress(fields[0]))
      case Some(addr) =>
        if |fields[1]| != 1 then Failure(UnknownType(fields[1]))
        else
          FieldsAreWords(line);
          var moduleName := if |fields| == 4 then TrimBrackets(fields[3]) else "";
          Success(Symbol(addr, SymbolType(fields[1][0]), fields[2], moduleName))
    }
  }

  /**
   * The errors come in order: the field count first, then the address, then
   * the type; each names the line or the field it refuses.
   */
  lemma ParseSymbolErrors(line: string)
    requires |Fields(line)| == 3 || |Fields(line)| == 4
    ensures var fields := Fields(line);
            ParseSymbolLine(line) == Failure(BadAddress(fields[0])) <==> ParseHex(fields[0]).None?
    ensures var fields := Fields(line);
            ParseSymbolLine(line) == Failure(UnknownType(fields[1]))
            <==> ParseHex(fields[0]).Some? && |fields[1]| != 1
  {
  }

  /** A name and module that strings.Fields gives back as they are, the module once its brackets are removed. */
  predicate PrintableParts(sym: Symbol) {
    && sym.name != "" && NoSpace(sym.name)
    && (sym.moduleName == "" || (NoSpace(sym.moduleName) && !IsBracket(sym.moduleName[0])
                                  && !IsBracket(sym.moduleName[|sym.moduleName| - 1])))
  }

  /** The symbols whose text parses back to them: an ASCII type that is not white space, and printable parts. */
  predicate Printable(sym: Symbol) {
    sym.typ.code as int < 0x80 && !IsSpace(sym.typ.code) && PrintableParts(sym)
  }

  /** A bracketed module has no white space when the module has none. */
  lemma BracketedNoSpace(m: string)
    requires NoSpace(m)
    ensures NoSpace(Bracketed(m))
  {
    var b := Bracketed(m);
    forall c | c in b ensures !IsSpace(c) {
      assert c == '[' || c in m || c == ']';
    }
  }


  /** Without a module, the name is the last field. */
  lemma NameAloneFields(n: string, m: string)
    requires n != [] && NoSpace(n) && m == ""
    ensures Fields(n + ModuleSuffix(m)) == [n] + ModuleFields(m)
  {
    assert ModuleSuffix(m) == [];
    assert n + ModuleSuffix(m) == n;
    assert ModuleFields(m) == [];
    assert [n] + ModuleFields(m) == [n];
    SingleField(n);
  }

  /** With a module, the bracketed module follows the name. */
  lemma NameThenModuleFields(n: string, m: string)
    requires n != [] && NoSpace(n) && NoSpace(m) && m != ""
    ensures Fields(n + ModuleSuffix(m)) == [n] + ModuleFields(m)
  {
    var b := Bracketed(m);
    BracketedNoSpace(m);
    assert ModuleSuffix(m) == [' '] + b;
    assert ModuleFields(m) == [b];
    FieldThenSpace(n, b);
    SingleField(b);
  }

  /** The fields of a name and the module suffix after it. */
  lemma NameAndModuleFields(n: string, m: string)
    requires n != [] && NoSpace(n) && NoSpace(m)
    ensures Fields(n + ModuleSuffix(m)) == [n] + ModuleFields(m)
  {
    if m == "" {
      NameAloneFields(n, m);
    } else {
      NameThenModuleFields(n, m);
    }
  }

  /** The fields of a symbol's text: address, type, name and the bracketed module, if any. */
  lemma SymbolFields(sym: Symbol)
    requires PrintableParts(sym) && NoSpace(Utf8(sym.typ.code))
    ensures Fields(sym.String()) == [Hex16(sym.addr), Utf8(sym.typ.code), sym.name] + ModuleFields(sym.moduleName)
  {
    var h, t, n, m := Hex16(sym.addr), Utf8(sym.typ.code), sym.name, ModuleSuffix(sym.moduleName);
    var mf := ModuleFields(sym.moduleName);
    var rest := t + ([' '] + (n + m));
    assert sym.String() == h + ([' '] + rest);
    FieldThenSpace(h, rest);
    FieldThenSpace(t, n + m);
    NameAndModuleFields(n, sym.moduleName);
    assert Fields(rest) == [t] + ([n] + mf);
    PrependThree(h, t, n, mf);
  }

  /** The first two of three elements put in front of s, s holding at most one. */
  lemma FieldsOfList<T>(a: T, b: T, c: T, s: seq<T>)
    requires |s| <= 1
    ensures var r := [a, b, c] + s;
            && |r| == 3 + |s| && r[0] == a && r[1] == b && r[2] == c
            && (|s| == 1 ==> r[3] == s[0])
  {
  }

  /** Three elements put in front of s one by one. */
  lemma PrependThree<T>(a: T, b: T, c: T, s: seq<T>)
    ensures [a] + ([b] + ([c] + s)) == [a, b, c] + s
  {
  }

  /** A line of an address, a one-byte type and a name parses to a symbol without a module. */
  lemma ParseThreeFields(line: string, a: Address, code: char, name: string)
    requires var fs := Fields(line);
             |fs| == 3 && fs[0] == Hex16(a) && |fs[1]| == 1 && fs[1][0] == code && fs[2] == name
    ensures ParseSymbolLine(line) == Success(Symbol(a, SymbolType(code), name, ""))
  {
    HexRoundTrip(a);
  }

  /** A fourth field, a bracketed module, gives the symbol that module. */
  lemma ParseFourFields(line: string, a: Address, code: char, name: string, m: string)
    requires var fs := Fields(line);
             |fs| == 4 && fs[0] == Hex16(a) && |fs[1]| == 1 && fs[1][0] == code && fs[2] == name
             && fs[3] == Bracketed(m)
    requires m == [] || (!IsBracket(m[0]) && !IsBracket(m[|m| - 1]))
    ensures ParseSymbolLine(line) == Success(Symbol(a, SymbolType(code), name, m))
  {
    HexRoundTrip(a);
    TrimBracketsOfBracketed(m);
  }

  /** Symbol.String and parse are inverse: the text of a printable symbol parses back to it. */
  lemma SymbolRoundTrip(sym: Symbol)
    requires Printable(sym)
    ensures ParseSymbolLine(sym.String()) == Success(sym)
  {
    var h, t, m := Hex16(sym.addr), Utf8(sym.typ.code), sym.moduleName;
    SymbolFields(sym);
    FieldsOfList(h, t, sym.name, ModuleFields(m));
    if m == "" {
      ParseThreeFields(sym.String(), sym.addr, sym.typ.code, sym.name);
    } else {
      ParseFourFields(sym.String(), sym.addr, sym.typ.code, sym.name, m);
    }
  }

  /**
   * A Latin-1 type outside ASCII is written by %c as two bytes, which parse
   * refuses as a type. (U+0085 and U+00A0 are left aside: strings.Fields
   * decodes UTF-8 and takes those two for white space. Code points above
   * U+00FF are left aside too, since some of them, such as U+2000, are white
   * space to strings.Fields while the fields here are split on bytes.)
   */
  lemma NonAsciiTypeDoesNotRoundTrip(sym: Symbol)
    requires 0x80 <= sym.typ.code as int <= 0xFF && sym.typ.code as int != 0x85 && sym.typ.code as int != 0xA0
    requires PrintableParts(sym)
    ensures ParseSymbolLine(sym.String()) == Failure(UnknownType(Utf8(sym.typ.code)))
  {
    var t := Utf8(sym.typ.code);
    assert NoSpace(t) by {
      forall c | c in t ensures !IsSpace(c) {
        var i :| 0 <= i < |t| && t[i] == c;
      }
    }
    SymbolFields(sym);
    FieldsOfList(Hex16(sym.addr), t, sym.name, ModuleFields(sym.moduleName));
    ParseLongType(sym.String(), sym.addr, t);
  }

  /** A type field of more than one byte after a valid address is refused as a type. */
  lemma ParseLongType(line: string, a: Address, t: string)
    requires |Fields(line)| == 3 || |Fields(line)| == 4
    requires Fields(line)[0] == Hex16(a) && Fields(line)[1] == t && |t| != 1
    ensures ParseSymbolLine(line) == Failure(UnknownType(t))
  {
    HexRoundTrip(a);
  }

  /** SymbolTable: a set of symbols, filled line by line. */
  class SymbolTable {
    var symbols: set<Symbol>

    constructor()
      ensures symbols == {}
    {
      symbols := {};
    }

    /** SymbolTable.parse: adds the symbol of one line, or reports why the line was refused and adds nothing. */
    method Parse(line: string) returns (err: Option<SymbolError>)
      modifies this
      ensures ParseSymbolLine(line).Success? ==> err == None && symbols == old(symbols) + {ParseSymbolLine(line).value}
      ensures ParseSymbolLine(line).Failure? ==> err == Some(ParseSymbolLine(line).error) && symbols == old(symbols)
    {
      var fields := Fields(line);
      if |fields| != 3 && |fields| != 4 {
        return Some(MalformedSymbolLine(line));
      }
      var addr := ParseHex(fields[0]);
      if addr.None? {
        return Some(BadAddress(fields[0]));
      }
      var symtype := fields[1];
      if |symtype| != 1 {
        return Some(UnknownType(symtype));
      }
      var moduleName := "";
      if |fields| == 4 {
        moduleName := TrimBrackets(fields[3]);
      }
      symbols := symbols + {Symbol(addr.value, SymbolType(symtype[0]), fields[2], moduleName)};
      return None;
    }

    /** SymbolTable.Find: every symbol of the table with the given name, each once. */
    method Find(name: string) returns (syms: seq<Symbol>)
      ensures forall sym :: sym in syms <==> sym in symbols && sym.name == name
      ensures forall i, j :: 0 <= i < j < |syms| ==> syms[i] != syms[j]
    {
      syms := [];
      var rest := symbols;
      while rest != {}
        invariant rest <= symbols
        invariant forall sym :: sym in syms <==> sym in symbols && sym !in rest && sym.name == name
        invariant forall i, j :: 0 <= i < j < |syms| ==> syms[i] != syms[j]
        decreases rest
      {
        var sym :| sym in rest;
        if sym.name == name {
          syms := syms + [sym];
        }
        rest := rest - {sym};
      }
    }
  }
}
