/** The text of a configuration file: how symbols are written, and what a line means to the reader
    (confdata.c, and sym_string_valid in symbol.c). */
module ConfText {
  import opened Exprs

  const CONFIG := "BR2_"
  const NOT_SET := "is not set"
  const NUL: char := '\0'
  /** sizeof(line) in conf_read_simple */
  const LINE_SIZE := 1024

  /** The type of a symbol while files are read: besides the declared types there is S_OTHER,
      which a symbol gets that only a file mentions. */
  datatype ReadType = Declared(t: SymType) | Other

  /** One of the values a symbol holds, def[]: present if its SYMBOL_DEF flag is set */
  datatype Slot = Slot(rtype: ReadType, defined: bool, tri: Tristate, val: string)

  function Fresh(t: SymType): Slot { Slot(Declared(t), false, NO, "") }

  // ----- characters -----

  predicate IsDigit(c: char) { '0' <= c <= '9' }
  predicate IsXDigit(c: char) { IsDigit(c) || 'a' <= c <= 'f' || 'A' <= c <= 'F' }
  predicate IsUpper(c: char) { 'A' <= c <= 'Z' }
  predicate Special(c: char) { c == '"' || c == '\\' }

  /** The place of the first c, or the length */
  function IndexOf(s: string, c: char): (i: nat)
    ensures i <= |s|
  {
    if s == "" || s[0] == c then 0 else 1 + IndexOf(s[1..], c)
  }

  lemma {:induction false} IndexFirst(s: string, c: char)
    ensures var i := IndexOf(s, c); c !in s[..i] && (i < |s| ==> s[i] == c)
  {
    if s != "" && s[0] != c {
      var i := IndexOf(s[1..], c);
      IndexFirst(s[1..], c);
      assert s[..i + 1] == [s[0]] + s[1..][..i];
    }
  }

  function UpTo(s: string, c: char): string { s[..IndexOf(s, c)] }

  lemma IndexIs(s: string, c: char, i: nat)
    requires i <= |s| && c !in s[..i] && (i < |s| ==> s[i] == c)
    ensures IndexOf(s, c) == i
  {
    var k := IndexOf(s, c);
    IndexFirst(s, c);
    assert forall j :: 0 <= j < i ==> s[..i][j] == s[j];
    assert forall j :: 0 <= j < k ==> s[..k][j] == s[j];
  }

  // ----- valid texts (sym_string_valid) -----

  predicate Digits(s: string) { s != "" && forall i :: 0 <= i < |s| ==> IsDigit(s[i]) }

  /** A decimal number without leading zeros */
  predicate IntText(s: string) {
    var d := if s != "" && s[0] == '-' then s[1..] else s;
    Digits(d) && (d[0] == '0' ==> |d| == 1)
  }

  predicate XDigits(s: string) { s != "" && forall i :: 0 <= i < |s| ==> IsXDigit(s[i]) }

  /** A hexadecimal number, with or without 0x */
  predicate HexText(s: string) {
    XDigits(if |s| >= 2 && s[0] == '0' && (s[1] == 'x' || s[1] == 'X') then s[2..] else s)
  }

  /** What is valid for the types with a text */
  predicate StringValid(t: SymType, s: string) {
    match t
    case SString => true
    case SInt => IntText(s)
    case SHex => HexText(s)
    case _ => false
  }

  /** The character at i, or the terminator */
  function At(s: string, i: nat): char { if i < |s| then s[i] else NUL }

  /** The S_INT case of sym_string_valid */
  method IntValid(str: string) returns (valid: bool)
    ensures valid == IntText(str)
  {
    var i := 0;
    if At(str, i) == '-' {
      i := 1;
    }
    ghost var d := if str != "" && str[0] == '-' then str[1..] else str;
    assert d == str[i..];
    if !IsDigit(At(str, i)) {
      return false;
    }
    if At(str, i) == '0' && i + 1 < |str| {
      return false;
    }
    var k := i + 1;
    while k < |str|
      invariant i < k <= |str|
      invariant forall j :: i <= j < k ==> IsDigit(str[j])
    {
      if !IsDigit(str[k]) {
        assert d[k - i] == str[k];
        return false;
      }
      k := k + 1;
    }
    valid := true;
  }

  /** The S_HEX case of sym_string_valid */
  method HexValid(str: string) returns (valid: bool)
    ensures valid == HexText(str)
  {
    var i := 0;
    if At(str, 0) == '0' && (At(str, 1) == 'x' || At(str, 1) == 'X') {
      i := 2;
    }
    ghost var d := str[i..];
    assert i == 0 ==> d == str;
    assert HexText(str) == XDigits(d);
    if !IsXDigit(At(str, i)) {
      assert d != "" ==> d[0] == str[i];
      return false;
    }
    var k := i + 1;
    while k < |str|
      invariant i < k <= |str|
      invariant forall j :: i <= j < k ==> IsXDigit(str[j])
    {
      if !IsXDigit(str[k]) {
        assert d[k - i] == str[k];
        return false;
      }
      k := k + 1;
    }
    valid := true;
  }

  // ----- writing -----

  /** Every quote and every backslash gets a backslash before it. */
  function Escape(s: string): string {
    if s == "" then ""
    else if Special(s[0]) then ['\\', s[0]] + Escape(s[1..])
    else [s[0]] + Escape(s[1..])
  }

  lemma {:induction false} EscapePlain(s: string, l: nat)
    requires l <= |s| && forall i :: 0 <= i < l ==> !Special(s[i])
    ensures Escape(s) == s[..l] + Escape(s[l..])
  {
    if l == 0 {
      assert s[0..] == s;
    } else {
      EscapePlain(s[1..], l - 1);
      assert s[1..][l - 1..] == s[l..];
      assert s[..l] == [s[0]] + s[1..][..l - 1];
    }
  }

  lemma EscapeSpan(s: string, l: nat, out: string)
    requires l <= |s| && (forall i :: 0 <= i < l ==> !Special(s[i])) && (l < |s| ==> Special(s[l]))
    ensures l == |s| ==> out + s[..l] == out + Escape(s)
    ensures l < |s| ==> out + s[..l] + ['\\', s[l]] + Escape(s[l + 1..]) == out + Escape(s)
  {
    EscapePlain(s, l);
    if l < |s| {
      assert s[l..][0] == s[l] && s[l..][1..] == s[l + 1..];
      Regroup(out, s[..l], ['\\', s[l]], Escape(s[l + 1..]));
    }
  }

  lemma Regroup(a: string, b: string, c: string, d: string)
    ensures a + b + c + d == a + (b + (c + d))
  {
  }

  /** strcspn(str, "\"\\") */
  method Span(str: string) returns (l: nat)
    ensures l <= |str| && (forall i :: 0 <= i < l ==> !Special(str[i])) && (l < |str| ==> Special(str[l]))
  {
    l := 0;
    while l < |str| && !Special(str[l])
      invariant l <= |str| && forall i :: 0 <= i < l ==> !Special(str[i])
    {
      l := l + 1;
    }
  }

  /** conf_write_string */
  method WriteString(headerfile: bool, name: string, value: string) returns (out: string)
    ensures out == (if headerfile then "#define " + name + " \"" else name + "=\"") + Escape(value) + "\"\n"
  {
    out := if headerfile then "#define " + name + " \"" else name + "=\"";
    ghost var head, all := out, Escape(value);
    var str := value;
    while true
      invariant out + Escape(str) == head + all
      decreases |str|
    {
      var l := Span(str);
      EscapeSpan(str, l, out);
      if l != 0 {
        out := out + str[..l];
        str := str[l..];
      }
      if str == "" {
        break;
      }
      out := out + ['\\', str[0]];
      str := str[1..];
    }
    out := out + "\"\n";
  }

  /** A symbol as it is written: curr.tri or curr.val, by its type */
  datatype Setting = Setting(name: string, stype: SymType, tri: Tristate, val: string)

  /** The text between name= and the end of the line */
  function Assigned(s: Setting): string {
    match s.stype
    case SBoolean => if s.tri == MOD then "m" else "y"
    case STristate => if s.tri == MOD then "m" else "y"
    case SString => "\"" + Escape(s.val) + "\""
    case _ => s.val
  }

  predicate Logical(t: SymType) { t == SBoolean || t == STristate }

  /** The line without its newline */
  function Body(s: Setting): string {
    if Logical(s.stype) && s.tri == NO then "# " + s.name + " " + NOT_SET
    else s.name + "=" + Assigned(s)
  }

  /** Does conf_write_symbol write anything? */
  predicate Emits(s: Setting, writeNo: bool) {
    s.stype != SUnknown && (Logical(s.stype) && s.tri == NO ==> writeNo)
  }

  function LineOf(s: Setting, writeNo: bool): string {
    if Emits(s, writeNo) then Body(s) + "\n" else ""
  }

  /** conf_write_symbol */
  method WriteSymbol(s: Setting, writeNo: bool) returns (out: string)
    ensures out == LineOf(s, writeNo)
  {
    out := "";
    match s.stype {
      case SBoolean | STristate =>
        if s.tri == NO {
          if writeNo {
            out := "# " + s.name + " is not set\n";
            assert out == "# " + s.name + " " + NOT_SET + "\n";
          }
        } else if s.tri == MOD {
          out := s.name + "=m\n";
          assert out == s.name + "=" + "m" + "\n";
        } else {
          out := s.name + "=y\n";
          assert out == s.name + "=" + "y" + "\n";
        }
      case SString =>
        out := WriteString(false, s.name, s.val);
        assert out == s.name + "=" + ("\"" + Escape(s.val) + "\"") + "\n";
      case SHex | SInt =>
        out := s.name + "=" + s.val + "\n";
      case SUnknown =>
    }
  }

  // ----- reading a line -----

  /** What is left of a quoted text: the text itself, no closing quote, or a backslash at the very end,
      behind which the C code goes on reading. */
  datatype Quoted = Closed(text: string) | Unclosed | Overrun

  function Prepend(a: string, q: Quoted): Quoted {
    if q.Closed? then Closed(a + q.text) else q
  }

  function Unquote(s: string): Quoted {
    if s == "" then Unclosed
    else if s[0] == '"' then Closed("")
    else if s[0] == '\\' then if |s| == 1 then Overrun else Prepend([s[1]], Unquote(s[2..]))
    else Prepend([s[0]], Unquote(s[1..]))
  }

  function SetBoolean(s: Slot, p: string): Slot {
    if At(p, 0) == 'y' then s.(defined := true, tri := YES)
    else if At(p, 0) == 'n' then s.(defined := true, tri := NO)
    else s
  }

  function SetText(s: Slot, p: string): Slot { s.(defined := true, val := p) }

  /** conf_set_sym_val */
  function SetVal(s: Slot, p: string): Slot {
    match s.rtype
    case Other =>
      // a quoted value is refused, for want of a type
      if At(p, 0) != '"' then SetText(s.(rtype := Declared(SString)), p) else s
    case Declared(STristate) => if At(p, 0) == 'm' then s.(defined := true, tri := MOD) else SetBoolean(s, p)
    case Declared(SBoolean) => SetBoolean(s, p)
    case Declared(SString) =>
      if At(p, 0) != '"' then s
      else if Unquote(p[1..]).Closed? then SetText(s, Unquote(p[1..]).text) else s
    case Declared(SUnknown) => s
    case Declared(t) => if StringValid(t, p) then SetText(s, p) else s
  }

  /** "is not set" */
  function SetNo(s: Slot): Slot {
    if s.rtype.Declared? && Logical(s.rtype.t) then s.(defined := true, tri := NO) else s
  }

  datatype Line = Skip | Unset(name: string) | Assign(name: string, value: string)

  predicate HasAt(s: string, i: nat, t: string) {
    i + |t| <= |s| && s[i..i + |t|] == t
  }

  function WithoutReturn(v: string): string {
    if v != "" && v[|v| - 1] == '\r' then v[..|v| - 1] else v
  }

  /** A value without its newline, and without a carriage return before it */
  function Chomp(v: string): string {
    var nl := IndexOf(v, '\n');
    if nl == |v| then v else WithoutReturn(v[..nl])
  }

  function ParseUnset(line: string): Line {
    if !HasAt(line, 2, CONFIG) then Skip
    else
      var sp := 2 + IndexOf(line[2..], ' ');
      if sp < |line| && HasAt(line, sp + 1, NOT_SET) then Unset(line[2..sp]) else Skip
  }

  function ParseAssign(line: string): Line {
    var eq := IndexOf(line, '=');
    if eq == |line| then Skip else Assign(line[..eq], Chomp(line[eq + 1..]))
  }

  function ParseLine(line: string): Line {
    if At(line, 0) == '#' then ParseUnset(line)
    else if IsUpper(At(line, 0)) then ParseAssign(line)
    else Skip
  }

  /** How much fgets takes */
  function FgetsLen(file: string): (n: nat)
    ensures n <= |file| && n < LINE_SIZE && (file != "" ==> n > 0)
  {
    var nl := IndexOf(file, '\n');
    var n := if nl < |file| then nl + 1 else nl;
    if n < LINE_SIZE then n else LINE_SIZE - 1
  }

  function FirstLine(file: string): string { UpTo(file[..FgetsLen(file)], NUL) }

  /** S_DEF_USER looks symbols up, S_DEF_AUTO makes those that are missing. */
  datatype Def = User | Auto

  function SlotFor(syms: map<string, Slot>, def: Def, name: string, missing: ReadType): Option<Slot> {
    if name in syms then
      if def == Auto && syms[name].rtype == Declared(SUnknown) then Some(syms[name].(rtype := missing))
      else Some(syms[name])
    else if def == Auto then Some(Slot(missing, false, NO, ""))
    else None
  }

  /** What a line does to the symbols */
  function Obey(syms: map<string, Slot>, def: Def, line: Line): map<string, Slot> {
    match line
    case Skip => syms
    case Unset(name) =>
      var s := SlotFor(syms, def, name, Declared(SBoolean));
      if s.Some? then syms[name := SetNo(s.value)] else syms
    case Assign(name, value) =>
      var s := SlotFor(syms, def, name, Other);
      if s.Some? then syms[name := SetVal(s.value, value)] else syms
  }

  function Lines(file: string): (r: seq<Line>)
    ensures file != "" ==> r != []
    decreases |file|
  {
    if file == "" then [] else [ParseLine(FirstLine(file))] + Lines(file[FgetsLen(file)..])
  }

  function ObeyAll(syms: map<string, Slot>, def: Def, lines: seq<Line>): map<string, Slot>
    decreases |lines|
  {
    if lines == [] then syms else ObeyAll(Obey(syms, def, lines[0]), def, lines[1..])
  }

  function ReadLines(syms: map<string, Slot>, def: Def, file: string): map<string, Slot> {
    ObeyAll(syms, def, Lines(file))
  }

  /** All old values are forgotten, except by symbols of type S_OTHER, which for_all_symbols leaves out. */
  function Reset(syms: map<string, Slot>): map<string, Slot> {
    map n | n in syms :: if syms[n].rtype == Other then syms[n] else Slot(syms[n].rtype, false, NO, "")
  }

  /** conf_read_simple */
  function ReadFile(syms: map<string, Slot>, def: Def, file: string): map<string, Slot> {
    ReadLines(Reset(syms), def, file)
  }
}
