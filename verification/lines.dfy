/** What the lines of a configuration file look like, and what the reader does with each, said on their text
    (conf_write_symbol, conf_write_string, conf_set_sym_val and conf_read_simple in confdata.c, sym_string_valid in
    symbol.c). */
module LineTexts {
  import opened Exprs
  import opened ConfText
  import opened ReadBack

  // ----- lines as they are written -----

  lemma Joined(a: string, b: string, c: string)
    ensures (a + b) + c == a + (b + c)
  {
  }

  /** The line of a boolean or tristate. One that is n has a line only where unset symbols are written. */
  lemma WrittenLogical(s: Setting, writeNo: bool)
    requires s.stype == SBoolean || s.stype == STristate
    ensures LineOf(s, writeNo) ==
            if s.tri == 2 then s.name + "=y\n"
            else if s.tri == 1 then s.name + "=m\n"
            else if writeNo then "# " + s.name + " is not set\n"
            else ""
  {
    if s.tri == NO {
      Joined("# " + s.name, " " + NOT_SET, "\n");
      Joined("# " + s.name, " ", NOT_SET);
      assert " " + NOT_SET + "\n" == " is not set\n";
    } else {
      var v := if s.tri == MOD then "m" else "y";
      Joined(s.name, "=", v);
      Joined(s.name, "=" + v, "\n");
      assert "=" + v + "\n" == if s.tri == MOD then "=m\n" else "=y\n";
    }
  }

  /** The line of any other symbol: a string is quoted, and a symbol without a type has none. */
  lemma WrittenText(s: Setting, writeNo: bool)
    requires s.stype != SBoolean && s.stype != STristate
    ensures s.stype == SUnknown ==> LineOf(s, writeNo) == ""
    ensures s.stype == SInt || s.stype == SHex ==> LineOf(s, writeNo) == s.name + "=" + s.val + "\n"
    ensures s.stype == SString ==> LineOf(s, writeNo) == s.name + "=\"" + Escape(s.val) + "\"\n"
  {
    if s.stype == SString {
      var head := s.name + "=";
      Joined(head, "\"" + Escape(s.val), "\"");
      Joined(head, "\"", Escape(s.val));
      Joined(s.name, "=", "\"");
      Joined(head + "\"" + Escape(s.val), "\"", "\n");
      assert "=" + "\"" == "=\"" && "\"" + "\n" == "\"\n";
    }
  }

  /** A text is escaped character by character: only quotes and backslashes change. */
  lemma EscapedAt(c: char)
    ensures Escape("") == "" && Escape([c]) == if c == '"' || c == '\\' then ['\\', c] else [c]
  {
    assert [c][1..] == "";
  }

  lemma {:induction false} EscapedParts(s: string, t: string)
    ensures Escape(s + t) == Escape(s) + Escape(t)
  {
    if s == "" {
      assert s + t == t;
    } else {
      var u, e := s + t, if Special(s[0]) then ['\\', s[0]] else [s[0]];
      assert u[0] == s[0] && u[1..] == s[1..] + t;
      EscapedParts(s[1..], t);
      assert Escape(u) == e + Escape(u[1..]) && Escape(s) == e + Escape(s[1..]);
      Joined(e, Escape(s[1..]), Escape(t));
    }
  }

  // ----- quoted values as they are read -----

  /** A text with a backslash before the characters where guard says so */
  function Guarded(t: string, guard: seq<bool>): string
    requires |guard| == |t|
  {
    if t == "" then "" else (if guard[0] then ['\\', t[0]] else [t[0]]) + Guarded(t[1..], guard[1..])
  }

  lemma UnquoteStep(c: char, guarded: bool, rest: string)
    requires (c == '"' || c == '\\') ==> guarded
    ensures Unquote((if guarded then ['\\', c] else [c]) + rest) == Prepend([c], Unquote(rest))
  {
    var e := if guarded then ['\\', c] else [c];
    assert (e + rest)[|e|..] == rest;
  }

  /** The reader takes out all backslashes that guard a character, and whatever they guard stands for itself. Quotes
      and backslashes have to be guarded, others may be. */
  lemma {:induction false} GuardedRead(t: string, guard: seq<bool>, after: string)
    requires |guard| == |t| && forall i :: 0 <= i < |t| && (t[i] == '"' || t[i] == '\\') ==> guard[i]
    ensures Unquote(Guarded(t, guard) + "\"" + after) == Closed(t)
  {
    if t != "" {
      var e := if guard[0] then ['\\', t[0]] else [t[0]];
      var rest := Guarded(t[1..], guard[1..]) + "\"" + after;
      assert Guarded(t, guard) + "\"" + after == e + rest;
      UnquoteStep(t[0], guard[0], rest);
      GuardedRead(t[1..], guard[1..], after);
    }
  }

  // ----- lines as they are read -----

  /** What a value leaves in a boolean or tristate depends on its first character. */
  function Read(s: Slot, w: string): Slot {
    if w != "" && w[0] == 'n' then s.(defined := true, tri := 0)
    else if w != "" && w[0] == 'm' && s.rtype == Declared(STristate) then s.(defined := true, tri := 1)
    else if w != "" && w[0] == 'y' then s.(defined := true, tri := 2)
    else s
  }

  lemma ChompEnds(w: string)
    requires '\n' !in w && (w != "" ==> w[|w| - 1] != '\r')
    ensures Chomp(w) == Chomp(w + "\n") == Chomp(w + "\r\n") == w
  {
    ChompTrims(w, false);
    ChompTrims(w, true);
    var r := w + "\r";
    assert w + "\r\n" == r + "\n" && r[|r| - 1] == '\r' && r[..|r| - 1] == w;
    ChompTrims(r, true);
    assert w + "" == w;
  }

  /** A value ends at the end of the line, with or without a carriage return, or where the buffer ends. */
  lemma AssignedLine(name: string, w: string)
    requires IsName(name) && '\n' !in w && (w != "" ==> w[|w| - 1] != '\r')
    ensures ParseLine(name + "=" + w + "\n") == ParseLine(name + "=" + w + "\r\n") == ParseLine(name + "=" + w)
         == Assign(name, w)
  {
    ChompEnds(w);
    Joined(name + "=", w, "\n");
    Joined(name + "=", w, "\r\n");
    ParseAssigned(name, w);
    ParseAssigned(name, w + "\n");
    ParseAssigned(name, w + "\r\n");
  }

  lemma ValueParsed(name: string, w: string)
    requires IsName(name) && '\n' !in w && (w != "" ==> w[|w| - 1] != '\r')
    ensures ParseLine(name + "=" + w + "\n") == Assign(name, w)
  {
    AssignedLine(name, w);
  }

  lemma UnsetParsed(name: string)
    requires IsName(name)
    ensures ParseLine("# " + name + " is not set\n") == Unset(name)
  {
    ParseNotSet(name, "\n");
    assert "# " + name + " " + NOT_SET + "\n" == "# " + name + " is not set\n";
  }

  lemma SetLogical(s: Slot, w: string)
    requires s.rtype == Declared(SBoolean) || s.rtype == Declared(STristate)
    ensures SetVal(s, w) == Read(s, w)
  {
  }

  lemma SameSlot(syms: map<string, Slot>, name: string)
    requires name in syms
    ensures syms[name := syms[name]] == syms
  {
  }

  /** A line that gives a declared boolean or tristate a value: n, m and y mean what they say, except that a boolean
      ignores m, and nothing else is understood. No other symbol changes. */
  lemma LogicalLine(syms: map<string, Slot>, def: Def, name: string, w: string)
    requires IsName(name) && '\n' !in w && (w != "" ==> w[|w| - 1] != '\r')
    requires name in syms && (syms[name].rtype == Declared(SBoolean) || syms[name].rtype == Declared(STristate))
    ensures Obey(syms, def, ParseLine(name + "=" + w + "\n")) == syms[name := Read(syms[name], w)]
  {
    ValueParsed(name, w);
    SetLogical(syms[name], w);
  }

  /** In particular the line of a value sets just that value. */
  lemma ValueLine(syms: map<string, Slot>, def: Def, name: string, t: Tristate)
    requires IsName(name)
    requires name in syms && (syms[name].rtype == Declared(SBoolean) || syms[name].rtype == Declared(STristate))
    ensures var r := Obey(syms, def, ParseLine(name + "=" + TriText(t) + "\n"));
            if syms[name].rtype == Declared(SBoolean) && t == MOD then r == syms
            else r == syms[name := syms[name].(defined := true, tri := t)]
  {
    LogicalLine(syms, def, name, TriText(t));
    SameSlot(syms, name);
  }

  /** "is not set": a declared boolean or tristate becomes n, and other declared types do not change. A symbol that is
      not there is left out in a user's file, and made as a boolean for auto.conf. */
  lemma UnsetLine(syms: map<string, Slot>, def: Def, name: string)
    requires IsName(name)
    ensures var r := Obey(syms, def, ParseLine("# " + name + " is not set\n"));
            if name in syms then
              syms[name].rtype != Declared(SUnknown) ==>
                if syms[name].rtype == Declared(SBoolean) || syms[name].rtype == Declared(STristate)
                then r == syms[name := syms[name].(defined := true, tri := NO)] else r == syms
            else if def == User then r == syms
            else r == syms[name := Slot(Declared(SBoolean), true, NO, "")]
  {
    UnsetParsed(name);
    if name in syms {
      SameSlot(syms, name);
    }
  }

  /** A value for a symbol that is not there is left out in a user's file. For auto.conf it makes a string, unless it is
      quoted, which leaves the new symbol without a type and a value. */
  lemma UnknownLine(syms: map<string, Slot>, def: Def, name: string, w: string)
    requires IsName(name) && name !in syms && '\n' !in w && (w != "" ==> w[|w| - 1] != '\r')
    ensures var r := Obey(syms, def, ParseLine(name + "=" + w + "\n"));
            if def == User then r == syms
            else r == syms[name := if w != "" && w[0] == '"' then Slot(Other, false, NO, "")
                                   else Slot(Declared(SString), true, NO, w)]
  {
    ValueParsed(name, w);
  }

  /** A value for a declared int or hex is kept if it is valid, and one for a string if it is quoted and closed. */
  lemma TextLine(syms: map<string, Slot>, def: Def, name: string, w: string, t: SymType)
    requires IsName(name) && '\n' !in w && (w != "" ==> w[|w| - 1] != '\r')
    requires name in syms && syms[name].rtype == Declared(t) && (t == SInt || t == SHex || t == SString)
    ensures var kept := if t == SInt then IntText(w) else if t == SHex then HexText(w)
                        else w != "" && w[0] == '"' && Unquote(w[1..]).Closed?;
            Obey(syms, def, ParseLine(name + "=" + w + "\n")) ==
            if !kept then syms
            else syms[name := syms[name].(defined := true, val := if t == SString then Unquote(w[1..]).text else w)]
  {
    ValueParsed(name, w);
    SameSlot(syms, name);
  }

  /** A symbol without a type takes no value from a user's file. For auto.conf it becomes a boolean where it is said to
      be unset, */
  lemma UntypedUnset(syms: map<string, Slot>, def: Def, name: string)
    requires IsName(name) && name in syms && syms[name].rtype == Declared(SUnknown)
    ensures Obey(syms, def, ParseLine("# " + name + " is not set\n")) ==
            if def == User then syms
            else syms[name := syms[name].(rtype := Declared(SBoolean), defined := true, tri := NO)]
  {
    UnsetParsed(name);
    SameSlot(syms, name);
  }

  /** and a string where a value is not quoted. */
  lemma UntypedLine(syms: map<string, Slot>, def: Def, name: string, w: string)
    requires IsName(name) && '\n' !in w && (w != "" ==> w[|w| - 1] != '\r')
    requires name in syms && syms[name].rtype == Declared(SUnknown)
    ensures Obey(syms, def, ParseLine(name + "=" + w + "\n")) ==
            if def == User then syms
            else syms[name := if w != "" && w[0] == '"' then syms[name].(rtype := Other)
                              else syms[name].(rtype := Declared(SString), defined := true, val := w)]
  {
    ValueParsed(name, w);
    SameSlot(syms, name);
  }

  /** A # and one more character, a name that starts with BR2_ and has no blank in it, and the words " is not set" */
  predicate SaysUnset(line: string, n: string) {
    && |line| >= 13 + |n| && line[0] == '#' && line[2..2 + |n|] == n && line[2 + |n|..13 + |n|] == " is not set"
    && |n| >= 4 && n[..4] == "BR2_" && ' ' !in n
  }

  lemma UnsetUnderstood(line: string, n: string)
    requires SaysUnset(line, n)
    ensures ParseLine(line) == Unset(n)
  {
    var rest := line[2..];
    assert rest[..|n|] == n && rest[|n|] == line[2 + |n|..13 + |n|][0];
    IndexIs(rest, ' ', |n|);
    assert line[3 + |n|..13 + |n|] == line[2 + |n|..13 + |n|][1..];
    assert line[2..6] == n[..4];
  }

  lemma UnsetSaid(line: string, n: string)
    requires ParseLine(line) == Unset(n)
    ensures SaysUnset(line, n)
  {
    var rest := line[2..];
    IndexFirst(rest, ' ');
    assert n == rest[..|n|] && rest[|n|] == line[2 + |n|] == ' ' && |NOT_SET| == 10;
    assert line[2 + |n|..13 + |n|] == " " + line[3 + |n|..13 + |n|];
    assert " " + NOT_SET == " is not set";
    assert |n| >= 4 by {
      assert forall i :: 0 <= i < 4 ==> rest[i] == line[2..6][i];
    }
    assert n[..4] == rest[..4] == line[2..6];
  }

  /** Such lines are the only ones that say that a symbol is not set; what follows the words does not matter. */
  lemma UnsetExactly(line: string, n: string)
    ensures ParseLine(line) == Unset(n) <==> SaysUnset(line, n)
  {
    if SaysUnset(line, n) {
      UnsetUnderstood(line, n);
    }
    if ParseLine(line) == Unset(n) {
      UnsetSaid(line, n);
    }
  }

  /** A line gives a symbol a value if and only if it starts with an upper-case letter and has an =: the name is what is
      before the first one. */
  lemma AssignExactly(line: string, n: string, w: string)
    ensures ParseLine(line) == Assign(n, w) <==>
            && |n| < |line| && 'A' <= line[0] <= 'Z' && line[..|n|] == n && line[|n|] == '=' && '=' !in n
            && w == Chomp(line[|n| + 1..])
  {
    IndexFirst(line, '=');
    if |n| < |line| && line[..|n|] == n && line[|n|] == '=' && '=' !in n {
      IndexIs(line, '=', |n|);
    }
  }

  /** The reader takes a line with its newline if that is among the first 1023 characters, and otherwise 1023 characters
      or what there is. */
  lemma LineTaken(file: string, i: nat)
    requires i <= |file| && '\n' !in file[..i] && (i < |file| ==> file[i] == '\n')
    ensures FgetsLen(file) == if i >= 1023 then 1023 else if i < |file| then i + 1 else i
  {
    IndexIs(file, '\n', i);
  }

  // ----- numbers -----

  function Digit(n: nat): char
    requires n < 10
  {
    "0123456789"[n]
  }

  function Decimal(n: nat): string {
    if n < 10 then [Digit(n)] else Decimal(n / 10) + [Digit(n % 10)]
  }

  function Number(n: int): string { if n < 0 then "-" + Decimal(-n) else Decimal(n) }

  lemma {:induction false} DecimalDigits(n: nat)
    ensures Digits(Decimal(n)) && (Decimal(n)[0] == '0' ==> n == 0)
    ensures n < 10 <==> |Decimal(n)| == 1
  {
    if n >= 10 {
      DecimalDigits(n / 10);
    }
  }

  /** Decimal digits without a leading zero are the digits of a number. */
  lemma {:induction false} DigitsDecimal(d: string) returns (n: nat)
    requires Digits(d) && (d[0] == '0' ==> |d| == 1)
    ensures d == Decimal(n) && (n == 0 ==> d == "0")
  {
    var last := (d[|d| - 1] - '0') as nat;
    assert d[|d| - 1] == Digit(last);
    if |d| == 1 {
      n := last;
    } else {
      var m := DigitsDecimal(d[..|d| - 1]);
      n := 10 * m + last;
      assert n / 10 == m && n % 10 == last;
      assert d == d[..|d| - 1] + [d[|d| - 1]];
    }
  }

  /** The valid texts of an int are exactly the decimal numbers as one writes them, and -0. */
  lemma IntTextExactly(s: string)
    ensures IntText(s) <==> s == "-0" || exists n :: s == Number(n)
  {
    if IntText(s) && s != "-0" {
      if s[0] == '-' {
        var n: int := DigitsDecimal(s[1..]);
        assert s == "-" + s[1..] == Number(-n);
      } else {
        var n := DigitsDecimal(s);
        assert s == Number(n);
      }
    }
    if n :| s == Number(n) {
      DecimalDigits(if n < 0 then -n else n);
    }
  }

  predicate HexDigits(d: string) { d != "" && forall c :: c in d ==> c in "0123456789abcdefABCDEF" }

  lemma HexDigitsAre(d: string)
    ensures XDigits(d) <==> HexDigits(d)
  {
    forall c ensures IsXDigit(c) <==> c in "0123456789abcdefABCDEF" {
    }
    assert forall i :: 0 <= i < |d| ==> d[i] in d;
  }

  /** Those of a hex are one or more hexadecimal digits, with or without 0x or 0X before them. */
  lemma HexTextExactly(s: string)
    ensures HexText(s) <==> exists d :: HexDigits(d) && (s == d || s == "0x" + d || s == "0X" + d)
  {
    var p := |s| >= 2 && s[0] == '0' && (s[1] == 'x' || s[1] == 'X');
    var d := if p then s[2..] else s;
    assert p ==> s == "0x" + d || s == "0X" + d;
    HexDigitsAre(d);
    if d' :| HexDigits(d') && (s == d' || s == "0x" + d' || s == "0X" + d') {
      assert p ==> !HexDigits(s) by {
        if p {
          assert s[1] in s && s[1] !in "0123456789abcdefABCDEF";
        }
      }
      assert d == d';
    }
  }
}
