/** What is written is read back (confdata.c): one symbol, and a whole file. */
module ReadBack {
  import opened Exprs
  import opened ConfText

  /** A C string */
  predicate CString(s: string) { NUL !in s }

  /** BR2_..., with nothing in it that ends a name in a file */
  predicate IsName(n: string) {
    HasAt(n, 0, CONFIG) && ' ' !in n && '=' !in n && '\n' !in n && NUL !in n
  }

  /** The value the reader should find: the tristate or the text, by type */
  function Expected(s: Setting): Slot {
    Slot(Declared(s.stype), true, if Logical(s.stype) then s.tri else NO, if Logical(s.stype) then "" else s.val)
  }

  /** Can this value be restored? A boolean is never m, a text is one line and an int or hex is valid. */
  predicate Storable(s: Setting) {
    match s.stype
    case SBoolean => s.tri != MOD
    case STristate => true
    case SString => '\n' !in s.val
    case _ => StringValid(s.stype, s.val)
  }

  /** The line fits the buffer, if not with its newline then without. */
  predicate Fits(s: Setting) { |Body(s)| < LINE_SIZE }

  // ----- quoting -----

  /** Escaping is undone by the reader, whatever follows the closing quote. */
  lemma {:induction false} UnquoteEscaped(t: string, after: string)
    ensures Unquote(Escape(t) + "\"" + after) == Closed(t)
  {
    if t != "" {
      var e := if Special(t[0]) then ['\\', t[0]] else [t[0]];
      assert Escape(t) + "\"" + after == e + (Escape(t[1..]) + "\"" + after);
      assert (e + (Escape(t[1..]) + "\"" + after))[|e|..] == Escape(t[1..]) + "\"" + after;
      UnquoteEscaped(t[1..], after);
    }
  }

  /** Without the closing quote nothing is read. */
  lemma {:induction false} UnquoteCut(t: string, j: nat)
    requires j <= |Escape(t)|
    ensures !Unquote(Escape(t)[..j]).Closed?
  {
    if t != "" && j > 0 {
      var l := if Special(t[0]) then 2 else 1;
      if j >= l {
        assert Escape(t)[..j][l..] == Escape(t[1..])[..j - l];
        UnquoteCut(t[1..], j - l);
      }
    }
  }

  lemma {:induction false} EscapeHas(t: string, c: char)
    requires c != '\\'
    ensures c in Escape(t) <==> c in t
  {
    if t != "" {
      EscapeHas(t[1..], c);
      assert t == [t[0]] + t[1..];
    }
  }

  // ----- lines -----

  lemma ParseAssigned(name: string, v: string)
    requires IsName(name)
    ensures ParseLine(name + "=" + v) == Assign(name, Chomp(v))
  {
    var line := name + "=" + v;
    assert line[..|name|] == name && line[|name| + 1..] == v;
    assert line[0] == name[..4][0] == CONFIG[0];
    IndexIs(line, '=', |name|);
  }

  lemma ParseNoValue(name: string, line: string)
    requires IsName(name) && '=' !in line
    requires line != "" ==> line[0] == '\n' || line[0] == name[0]
    ensures ParseLine(line) == Skip
  {
    assert name[..4][0] == CONFIG[0];
    assert line[..|line|] == line;
    IndexIs(line, '=', |line|);
  }

  lemma ParseNotSet(name: string, after: string)
    requires IsName(name)
    ensures ParseLine("# " + name + " " + NOT_SET + after) == Unset(name)
  {
    var line := "# " + name + " " + NOT_SET + after;
    var rest := line[2..];
    assert rest == name + " " + NOT_SET + after;
    assert rest[..|name|] == name;
    IndexIs(rest, ' ', |name|);
    assert line[2..6] == rest[..4] == name[..4];
    assert line[2 + |name| + 1..2 + |name| + 11] == NOT_SET;
  }

  /** A line cut short anywhere is not understood. */
  lemma ParseCutNotSet(name: string, j: nat, after: string)
    requires IsName(name) && j < |"# " + name + " " + NOT_SET|
    requires after == "" || after == "\n"
    ensures ParseLine(("# " + name + " " + NOT_SET)[..j] + after) == Skip
  {
    var body := "# " + name + " " + NOT_SET;
    var line := body[..j] + after;
    var i := 3 + |name|;
    if i + 10 <= |line| {
      assert line[i..i + 10][9] == line[i + 9] == '\n';
    }
    if |line| >= 2 {
      var rest := line[2..];
      if j <= 2 + |name| {
        assert forall k :: 0 <= k < |rest| ==> rest[k] != ' ';
        IndexIs(rest, ' ', |rest|);
      } else {
        assert rest[..|name|] == name;
        IndexIs(rest, ' ', |name|);
      }
    }
  }

  /** The first line of a file that goes on with a body and a newline: the body, or a part of it */
  lemma FirstLineOf(body: string, rest: string) returns (j: nat, nl: bool)
    requires CString(body)
    ensures j <= |body| && '\n' !in body[..j]
    ensures FirstLine(body + "\n" + rest) == body[..j] + (if nl then "\n" else "")
    ensures j == |body| <==> '\n' !in body && |body| < LINE_SIZE
    ensures j == |body| ==> (body + "\n" + rest)[FgetsLen(body + "\n" + rest)..] == if nl then rest else "\n" + rest
  {
    var file := body + "\n" + rest;
    var i := IndexOf(body, '\n');
    IndexFirst(body, '\n');
    IndexIs(file, '\n', i) by {
      assert file[..i] == body[..i];
    }
    nl := i + 1 < LINE_SIZE;
    j := if nl then i else LINE_SIZE - 1;
    var chunk := file[..FgetsLen(file)];
    assert chunk == body[..j] + (if nl then "\n" else "");
    IndexIs(chunk, NUL, |chunk|);
  }

  /** A value at the end of a line, or of the buffer */
  function Trimmed(v: string, nl: bool): string {
    if nl then WithoutReturn(v) else v
  }

  lemma ChompTrims(w: string, nl: bool)
    requires '\n' !in w
    ensures Chomp(w + (if nl then "\n" else "")) == Trimmed(w, nl)
  {
    var v := w + if nl then "\n" else "";
    assert v[..|w|] == w;
    IndexIs(v, '\n', |w|);
  }

  lemma ParseCutAssigned(name: string, v: string, j: nat, nl: bool)
    requires IsName(name) && j <= |name| + 1 + |v| && '\n' !in (name + "=" + v)[..j]
    ensures ParseLine((name + "=" + v)[..j] + (if nl then "\n" else ""))
         == if j <= |name| then Skip else Assign(name, Trimmed(v[..j - |name| - 1], nl))
  {
    var body, after := name + "=" + v, if nl then "\n" else "";
    var line := body[..j] + after;
    if j <= |name| {
      assert body[..j] == name[..j];
      ParseNoValue(name, line);
    } else {
      var w := v[..j - |name| - 1];
      assert body[..j] == name + "=" + w;
      assert forall k :: 0 <= k < |w| ==> w[k] == body[..j][|name| + 1 + k];
      assert line == name + "=" + (w + after);
      ParseAssigned(name, w + after);
      ChompTrims(w, nl);
    }
  }

  /** n, m and y */
  lemma LogicalRestored(s: Setting, i: nat, nl: bool)
    requires Logical(s.stype) && s.tri != NO && i <= |Assigned(s)|
    ensures SetVal(Fresh(s.stype), Trimmed(Assigned(s)[..i], nl)) == Expected(s) <==> Storable(s) && i == |Assigned(s)|
  {
  }

  lemma StringRestored(s: Setting, i: nat, nl: bool)
    requires s.stype == SString && i <= |Assigned(s)|
    ensures SetVal(Fresh(s.stype), Trimmed(Assigned(s)[..i], nl)) == Expected(s) <==> i == |Assigned(s)|
  {
    var e := Escape(s.val);
    var p := Trimmed(Assigned(s)[..i], nl);
    if i == |Assigned(s)| {
      assert Assigned(s)[..i] == Assigned(s) && p[1..] == e + "\"" == e + "\"" + "";
      UnquoteEscaped(s.val, "");
    } else if |p| > 0 {
      assert p[1..] == e[..|p| - 1];
      UnquoteCut(s.val, |p| - 1);
    }
  }

  lemma NumberRestored(s: Setting, i: nat, nl: bool)
    requires (s.stype == SInt || s.stype == SHex) && i <= |s.val|
    ensures SetVal(Fresh(s.stype), Trimmed(s.val[..i], nl)) == Expected(s) <==> Storable(s) && i == |s.val|
  {
    if i == |s.val| {
      assert s.val[..i] == s.val;
      if Storable(s) {
        NumberChars(s.stype, s.val, i - 1);
      }
    }
  }

  lemma NumberChars(t: SymType, s: string, i: nat)
    requires (t == SInt || t == SHex) && StringValid(t, s) && i < |s|
    ensures s[i] == '-' || s[i] == 'x' || s[i] == 'X' || IsXDigit(s[i])
  {
  }

  // ----- one symbol -----

  /** What the declarations of the symbols say about a setting */
  predicate Declares(syms: map<string, Slot>, s: Setting) {
    s.stype != SUnknown && s.name in syms && syms[s.name] == Fresh(s.stype)
  }

  predicate Writable(s: Setting) {
    s.stype != SUnknown && IsName(s.name) && CString(s.val)
  }

  lemma BodyText(s: Setting)
    requires Writable(s)
    ensures CString(Body(s))
    ensures Storable(s) ==> '\n' !in Body(s)
    ensures s.stype == SString && !Storable(s) ==> '\n' in Body(s)
  {
    EscapeHas(s.val, NUL);
    EscapeHas(s.val, '\n');
    if s.stype == SInt || s.stype == SHex {
      if Storable(s) && '\n' in s.val {
        var i :| 0 <= i < |s.val| && s.val[i] == '\n';
        NumberChars(s.stype, s.val, i);
      }
    }
  }

  /** The line of a symbol that is n */
  lemma UnsetRestored(s: Setting, j: nat, nl: bool)
    requires Writable(s) && Logical(s.stype) && s.tri == NO && j <= |Body(s)|
    ensures ParseLine(Body(s)[..j] + (if nl then "\n" else "")) == if j == |Body(s)| then Unset(s.name) else Skip
  {
    var after := if nl then "\n" else "";
    if j == |Body(s)| {
      assert Body(s)[..j] == Body(s);
      ParseNotSet(s.name, after);
    } else {
      ParseCutNotSet(s.name, j, after);
    }
  }

  lemma ValueRestored(s: Setting, i: nat, nl: bool)
    requires Writable(s) && !(Logical(s.stype) && s.tri == NO) && i <= |Assigned(s)|
    ensures SetVal(Fresh(s.stype), Trimmed(Assigned(s)[..i], nl)) == Expected(s) <==>
            (s.stype == SString || Storable(s)) && i == |Assigned(s)|
  {
    match s.stype {
      case SString => StringRestored(s, i, nl);
      case SInt | SHex => NumberRestored(s, i, nl);
      case SBoolean | STristate => LogicalRestored(s, i, nl);
    }
  }

  /** The line of any other symbol */
  lemma AssignedRestored(s: Setting, j: nat, nl: bool)
    requires Writable(s) && !(Logical(s.stype) && s.tri == NO) && j <= |Body(s)| && '\n' !in Body(s)[..j]
    ensures var l := ParseLine(Body(s)[..j] + (if nl then "\n" else ""));
            && (l == Skip || (l.Assign? && l.name == s.name))
            && (l.Assign? && SetVal(Fresh(s.stype), l.value) == Expected(s) <==>
                (s.stype == SString || Storable(s)) && j == |Body(s)|)
  {
    ParseCutAssigned(s.name, Assigned(s), j, nl);
    if j > |s.name| {
      ValueRestored(s, j - |s.name| - 1, nl);
    }
  }

  /** The first line the reader gets of what conf_write_symbol writes for a symbol restores it, if and only if the
      value can be stored and the line fits the buffer. That line touches no other symbol; what is left of a value
      that spans lines or does not fit is read as further lines. */
  lemma LineRestored(s: Setting, rest: string, syms: map<string, Slot>, def: Def)
    requires Writable(s) && Declares(syms, s)
    ensures var after := Obey(syms, def, ParseLine(FirstLine(Body(s) + "\n" + rest)));
            && (s.name in after && after[s.name] == Expected(s) <==> Storable(s) && Fits(s))
            && after == syms[s.name := after[s.name]]
  {
    BodyText(s);
    var j, nl := FirstLineOf(Body(s), rest);
    assert syms == syms[s.name := syms[s.name]];
    if Logical(s.stype) && s.tri == NO {
      UnsetRestored(s, j, nl);
    } else {
      AssignedRestored(s, j, nl);
    }
  }

  // ----- a whole file -----

  /** A symbol after calculation: SYMBOL_WRITE, SYMBOL_AUTO and its value */
  datatype Current = Current(write: bool, auto: bool, s: Setting)

  /** Has the symbol a line in the file? */
  predicate InFile(c: Current, writeNo: bool) { c.write && Emits(c.s, writeNo) }

  function LineIn(c: Current, writeNo: bool): string {
    if c.write then LineOf(c.s, writeNo) else ""
  }

  /** The symbols with SYMBOL_WRITE, in some order */
  function FileOf(cs: seq<Current>, writeNo: bool): string {
    if cs == [] then "" else LineIn(cs[0], writeNo) + FileOf(cs[1..], writeNo)
  }

  /** What the file leaves in the symbol that reads it, if its value can be stored */
  function Final(c: Current, writeNo: bool): Slot {
    if InFile(c, writeNo) then Expected(c.s) else Fresh(c.s.stype)
  }

  /** A symbol in the file is restored if and only if its value can be stored; the others stay as they were. */
  predicate Restored(c: Current, writeNo: bool, slot: Slot) {
    slot == Final(c, writeNo) <==> (InFile(c, writeNo) ==> Storable(c.s))
  }

  ghost predicate NamesApart(cs: seq<Current>) {
    forall i, j :: 0 <= i < j < |cs| ==> cs[i].s.name != cs[j].s.name
  }

  /** The reader gets the whole line at once. */
  predicate OneLine(s: Setting) {
    Writable(s) && Fits(s) && '\n' !in Body(s)
  }

  lemma NewlineSkipped(syms: map<string, Slot>, def: Def, rest: string)
    ensures ReadLines(syms, def, "\n" + rest) == ReadLines(syms, def, rest)
  {
    var file := "\n" + rest;
    IndexIs(file, '\n', 0);
    assert file[..1] == "\n" && file[1..] == rest;
    IndexIs("\n", NUL, 1);
    assert FirstLine(file) == "\n";
  }

  /** A line that fits, read as a whole: it changes its own symbol only, and restores it if and only if the value
      can be stored. */
  lemma ReadWholeLine(s: Setting, rest: string, syms: map<string, Slot>, def: Def) returns (slot: Slot)
    requires OneLine(s) && Declares(syms, s)
    ensures ReadLines(syms, def, Body(s) + "\n" + rest) == ReadLines(syms[s.name := slot], def, rest)
    ensures slot == Expected(s) <==> Storable(s)
  {
    var after := Obey(syms, def, ParseLine(FirstLine(Body(s) + "\n" + rest)));
    LineRestored(s, rest, syms, def);
    slot := after[s.name];
    BodyText(s);
    var j, nl := FirstLineOf(Body(s), rest);
    NewlineSkipped(after, def, rest);
  }

  /** The values that can be stored are restored, and symbols not in the list are left alone. */
  ghost predicate AllRestored(cs: seq<Current>, writeNo: bool, syms: map<string, Slot>, r: map<string, Slot>) {
    && r.Keys == syms.Keys
    && (forall i {:trigger cs[i]} :: 0 <= i < |cs| ==> cs[i].s.name in r && Restored(cs[i], writeNo, r[cs[i].s.name]))
    && (forall n {:trigger r[n]} :: n in syms && !Names(cs, n) ==> r[n] == syms[n])
  }

  ghost predicate Names(cs: seq<Current>, n: string) {
    exists i :: 0 <= i < |cs| && cs[i].s.name == n
  }

  ghost predicate FileOk(cs: seq<Current>, writeNo: bool, syms: map<string, Slot>) {
    && NamesApart(cs)
    && (forall i {:trigger cs[i]} :: 0 <= i < |cs| ==>
          Declares(syms, cs[i].s) && (InFile(cs[i], writeNo) ==> OneLine(cs[i].s)))
  }

  lemma RestOk(cs: seq<Current>, writeNo: bool, syms: map<string, Slot>, slot: Slot)
    requires FileOk(cs, writeNo, syms) && cs != []
    ensures FileOk(cs[1..], writeNo, syms) && FileOk(cs[1..], writeNo, syms[cs[0].s.name := slot])
    ensures !Names(cs[1..], cs[0].s.name)
  {
  }

  lemma NamesRest(cs: seq<Current>, n: string)
    requires cs != []
    ensures Names(cs, n) <==> cs[0].s.name == n || Names(cs[1..], n)
  {
    if Names(cs[1..], n) {
      var i :| 0 <= i < |cs[1..]| && cs[1..][i].s.name == n;
      assert cs[i + 1].s.name == n;
    }
    if Names(cs, n) {
      var i :| 0 <= i < |cs| && cs[i].s.name == n;
      assert i > 0 ==> cs[1..][i - 1].s.name == n;
    }
  }

  lemma OneMore(cs: seq<Current>, writeNo: bool, syms: map<string, Slot>, slot: Slot, r: map<string, Slot>)
    requires cs != [] && cs[0].s.name in syms && !Names(cs[1..], cs[0].s.name) && Restored(cs[0], writeNo, slot)
    requires AllRestored(cs[1..], writeNo, syms[cs[0].s.name := slot], r)
    ensures AllRestored(cs, writeNo, syms, r)
  {
    var rest := cs[1..];
    forall i {:trigger cs[i]} | 0 <= i < |cs|
      ensures cs[i].s.name in r && Restored(cs[i], writeNo, r[cs[i].s.name])
    {
      if i > 0 {
        assert cs[i] == rest[i - 1];
      }
    }
    forall n {:trigger r[n]} | n in syms && !Names(cs, n) ensures r[n] == syms[n] {
      NamesRest(cs, n);
    }
  }

  /** Reading a file that was written, with a line for each value, restores a symbol in it if and only if its value
      can be stored, and changes no other symbol. */
  lemma {:induction false} FileRestored(cs: seq<Current>, writeNo: bool, syms: map<string, Slot>, def: Def)
    requires FileOk(cs, writeNo, syms)
    ensures AllRestored(cs, writeNo, syms, ReadLines(syms, def, FileOf(cs, writeNo)))
  {
    if cs != [] {
      var s, rest := cs[0].s, FileOf(cs[1..], writeNo);
      var slot := Fresh(s.stype);
      if InFile(cs[0], writeNo) {
        assert FileOf(cs, writeNo) == Body(s) + "\n" + rest;
        slot := ReadWholeLine(s, rest, syms, def);
      } else {
        assert FileOf(cs, writeNo) == rest && syms == syms[s.name := slot];
      }
      RestOk(cs, writeNo, syms, slot);
      FileRestored(cs[1..], writeNo, syms[s.name := slot], def);
      OneMore(cs, writeNo, syms, slot, ReadLines(syms, def, FileOf(cs, writeNo)));
    }
  }

  /** The symbols are declared with these types, whatever values they had. */
  ghost predicate DeclaredAs(cs: seq<Current>, syms: map<string, Slot>) {
    forall i {:trigger cs[i]} :: 0 <= i < |cs| ==>
      cs[i].s.stype != SUnknown && cs[i].s.name in syms && syms[cs[i].s.name].rtype == Declared(cs[i].s.stype)
  }

  lemma ResetOk(cs: seq<Current>, writeNo: bool, syms: map<string, Slot>)
    requires NamesApart(cs) && DeclaredAs(cs, syms)
    requires forall i {:trigger cs[i]} :: 0 <= i < |cs| && InFile(cs[i], writeNo) ==> OneLine(cs[i].s)
    ensures FileOk(cs, writeNo, Reset(syms))
  {
  }

  /** Reading a file replaces all values there were: symbols that the file has restores, and all other declared ones
      have no value any more. Symbols that only a file mentions keep theirs. */
  lemma FileReplaces(cs: seq<Current>, writeNo: bool, syms: map<string, Slot>, def: Def)
    requires NamesApart(cs) && DeclaredAs(cs, syms)
    requires forall i {:trigger cs[i]} :: 0 <= i < |cs| && InFile(cs[i], writeNo) ==> OneLine(cs[i].s)
    ensures var r := ReadFile(syms, def, FileOf(cs, writeNo));
            && r.Keys == syms.Keys
            && (forall i {:trigger cs[i]} :: 0 <= i < |cs| ==>
                  cs[i].s.name in r && Restored(cs[i], writeNo, r[cs[i].s.name]))
            && (forall n {:trigger r[n]} :: n in syms && !Names(cs, n) ==>
                  r[n] == if syms[n].rtype == Other then syms[n] else Slot(syms[n].rtype, false, NO, ""))
  {
    ResetOk(cs, writeNo, syms);
    FileRestored(cs, writeNo, Reset(syms), def);
  }
}
