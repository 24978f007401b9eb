/** Which symbols have changed since auto.conf was written (conf_split_config and conf_write_autoconf
    in confdata.c). */
module ConfChange {
  import opened Exprs
  import opened ConfText
  import opened ReadBack
  import opened Readers

  /** The line conf_write_autoconf writes to auto.conf, if any */
  function AutoLine(c: Current): string { LineIn(c, false) }

  predicate HasText(t: SymType) { t == SString || t == SInt || t == SHex }

  /** conf_split_config: is the symbol different from what auto.conf says? */
  predicate Differs(c: Current, was: Slot) {
    if c.write then
      if was.defined then
        if Logical(c.s.stype) then c.s.tri != was.tri
        else if HasText(c.s.stype) then c.s.val != was.val
        else true
      else Logical(c.s.stype) ==> c.s.tri != NO
    else was.defined
  }

  /** Two states of one symbol; only symbols with a type are ever written. */
  predicate SameSymbol(a: Current, b: Current) {
    a.s.name == b.s.name && a.s.stype == b.s.stype && a.s.stype != SUnknown
  }

  lemma EscapeInjective(a: string, b: string)
    requires Escape(a) == Escape(b)
    ensures a == b
  {
    UnquoteEscaped(a, "");
    UnquoteEscaped(b, "");
  }

  lemma Cancel(a: string, b: string, c: string)
    requires a + b == a + c
    ensures b == c
  {
    assert (a + b)[|a|..] == b && (a + c)[|a|..] == c;
  }

  /** Lines of the same symbol tell values apart. */
  lemma LinesTellApart(a: Current, b: Current)
    requires SameSymbol(a, b) && AutoLine(a) == AutoLine(b) && AutoLine(a) != ""
    ensures if Logical(a.s.stype) then a.s.tri == b.s.tri else a.s.val == b.s.val
  {
    var s, t := a.s, b.s;
    var head := s.name + "=";
    assert Body(s) == (Body(s) + "\n")[..|Body(s)|] && Body(t) == (Body(t) + "\n")[..|Body(t)|];
    assert Body(s) == head + Assigned(s) && Body(t) == head + Assigned(t);
    Cancel(head, Assigned(s), Assigned(t));
    if s.stype == SString {
      assert Escape(s.val) == Assigned(s)[1..|Assigned(s)| - 1];
      assert Escape(t.val) == Assigned(t)[1..|Assigned(t)| - 1];
      EscapeInjective(s.val, t.val);
    }
  }

  /** A symbol differs from what auto.conf says if and only if its line differs. */
  lemma DiffersExactly(a: Current, b: Current)
    requires SameSymbol(a, b)
    ensures Differs(b, Final(a, false)) <==> AutoLine(a) != AutoLine(b)
  {
    if AutoLine(a) == AutoLine(b) && AutoLine(a) != "" {
      LinesTellApart(a, b);
    }
  }

  /** A symbol that has not changed is nevertheless reported if and only if its line cannot be read back. */
  lemma UnreadableAlwaysDiffers(c: Current, rest: string, syms: map<string, Slot>)
    requires AutoLine(c) != "" && Writable(c.s) && Declares(syms, c.s)
    ensures var after := Obey(syms, Auto, ParseLine(FirstLine(AutoLine(c) + rest)));
            c.s.name in after && (Differs(c, after[c.s.name]) <==> !(Storable(c.s) && Fits(c.s)))
  {
    LineRestored(c.s, rest, syms, Auto);
    var after := Obey(syms, Auto, ParseLine(FirstLine(AutoLine(c) + rest)));
    SlotShape(c.s, syms, ParseLine(FirstLine(AutoLine(c) + rest)));
  }

  /** A slot that was fresh has the type and the unused field it had. */
  lemma SlotShape(s: Setting, syms: map<string, Slot>, l: Line)
    requires Declares(syms, s)
    ensures var after := Obey(syms, Auto, l);
            && s.name in after && after[s.name].rtype == Declared(s.stype)
            && (Logical(s.stype) ==> after[s.name].val == "")
            && (!Logical(s.stype) ==> after[s.name].tri == NO)
  {
  }

  /** After auto.conf was written from one state and read back, a symbol whose value could be stored differs in a
      second state if and only if its line does. */
  lemma ChangeDetectionExact(before: seq<Current>, now: seq<Current>, syms: map<string, Slot>, i: nat)
    requires FileOk(before, false, syms)
    requires |before| == |now| && i < |now| && SameSymbol(before[i], now[i])
    requires InFile(before[i], false) ==> Storable(before[i].s)
    ensures var r := ReadLines(syms, Auto, FileOf(before, false));
            && now[i].s.name in r
            && (Differs(now[i], r[now[i].s.name]) <==> AutoLine(before[i]) != AutoLine(now[i]))
  {
    FileRestored(before, false, syms, Auto);
    DiffersExactly(before[i], now[i]);
  }

  lemma {:induction false} NamesKept(syms: map<string, Slot>, def: Def, lines: seq<Line>)
    ensures syms.Keys <= ObeyAll(syms, def, lines).Keys
    decreases |lines|
  {
    if lines != [] {
      NamesKept(Obey(syms, def, lines[0]), def, lines[1..]);
    }
  }

  /** The symbol is not hidden from the change detection, and differs. */
  predicate Changed(c: Current, syms: map<string, Slot>) {
    !c.auto && c.s.name in syms && Differs(c, syms[c.s.name])
  }

  /** The names of the symbols whose files are touched */
  ghost predicate Touches(touched: seq<string>, now: seq<Current>, syms: map<string, Slot>) {
    && (forall i, j :: 0 <= i < j < |touched| ==> touched[i] != touched[j])
    && (forall n :: n in touched <==> exists i :: 0 <= i < |now| && now[i].s.name == n && Changed(now[i], syms))
  }

  lemma FileStep(cs: seq<Current>, k: nat, out: string)
    requires k < |cs|
    ensures out + FileOf(cs[k..], false) == (out + LineIn(cs[k], false)) + FileOf(cs[k + 1..], false)
    ensures !cs[k].write ==> out + LineIn(cs[k], false) == out
  {
    assert cs[k..][1..] == cs[k + 1..];
  }

  /** The loop of conf_write_autoconf that writes auto.conf */
  method WriteAutoConf(cs: seq<Current>) returns (out: string)
    ensures out == FileOf(cs, false)
  {
    out := "";
    for k := 0 to |cs|
      invariant out + FileOf(cs[k..], false) == FileOf(cs, false)
    {
      FileStep(cs, k, out);
      if !cs[k].write {
        continue;
      }
      var line := WriteSymbol(cs[k].s, false);
      out := out + line;
    }
  }

  /** conf_split_config: read auto.conf, and touch the file of every symbol that differs from it. */
  method SplitConfig(reader: ConfReader, now: seq<Current>, file: string) returns (touched: seq<string>)
    requires reader.line.Length == LINE_SIZE && NamesApart(now)
    requires forall i :: 0 <= i < |now| ==> now[i].s.name in reader.syms
    modifies reader, reader.line
    ensures reader.syms == ReadFile(old(reader.syms), Auto, file)
    ensures Touches(touched, now, reader.syms)
  {
    NamesKept(Reset(reader.syms), Auto, Lines(file));
    reader.ReadSimple(file, Auto);
    touched := [];
    for k := 0 to |now|
      invariant forall i, j :: 0 <= i < j < |touched| ==> touched[i] != touched[j]
      invariant forall n :: n in touched <==>
                  exists i :: 0 <= i < k && now[i].s.name == n && Changed(now[i], reader.syms)
    {
      var c := now[k];
      if c.auto {
        continue;
      }
      var was := reader.syms[c.s.name];
      if c.write {
        if was.defined {
          if Logical(c.s.stype) {
            if c.s.tri == was.tri {
              continue;
            }
          } else if HasText(c.s.stype) {
            if c.s.val == was.val {
              continue;
            }
          }
        } else if Logical(c.s.stype) && c.s.tri == NO {
          continue;
        }
      } else if !was.defined {
        continue;
      }
      assert c.s.name !in touched && forall i :: 0 <= i < |touched| ==> touched[i] in touched;
      touched := touched + [c.s.name];
    }
  }

  /** Between writing auto.conf in one state and looking for changes in the next, exactly the symbols that are not
      SYMBOL_AUTO and whose lines differ are touched, among those whose old value could be stored. */
  lemma TouchedExactly(before: seq<Current>, now: seq<Current>, syms: map<string, Slot>, touched: seq<string>)
    requires NamesApart(before) && DeclaredAs(before, syms)
    requires forall i {:trigger before[i]} :: 0 <= i < |before| && InFile(before[i], false) ==> OneLine(before[i].s)
    requires |before| == |now| && forall i :: 0 <= i < |now| ==> SameSymbol(before[i], now[i])
    requires Touches(touched, now, ReadFile(syms, Auto, FileOf(before, false)))
    ensures forall n :: n in touched ==> Names(now, n)
    ensures forall i :: 0 <= i < |now| && (InFile(before[i], false) ==> Storable(before[i].s)) ==>
              (now[i].s.name in touched <==> !now[i].auto && AutoLine(before[i]) != AutoLine(now[i]))
  {
    var r := ReadFile(syms, Auto, FileOf(before, false));
    ResetOk(before, false, syms);
    forall i | 0 <= i < |now| && (InFile(before[i], false) ==> Storable(before[i].s))
      ensures now[i].s.name in touched <==> !now[i].auto && AutoLine(before[i]) != AutoLine(now[i])
    {
      ChangeDetectionExact(before, now, Reset(syms), i);
      assert now[i].s.name in touched <==> Changed(now[i], r) by {
        assert forall j :: 0 <= j < |now| && j != i ==> before[j].s.name != before[i].s.name;
      }
    }
  }
}
