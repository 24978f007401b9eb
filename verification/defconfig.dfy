/** The minimal configuration (sym_get_string_default, sym_is_changable in symbol.c,
    conf_write_defconfig in confdata.c), for symbols outside choices. */
module Defconfig {
  import opened Exprs
  import opened Symbols

  /** The default of a logical symbol, as strong as its condition allows */
  function DefaultTri(k: Kconfig, s: Symbol, v: Valuation): Tristate
    requires s in k.defs
  {
    var d := FirstDefault(k.defs[s].props, v);
    if d.Some? then Apply(AndOp, Eval(d.value.0, v), d.value.1) else NO
  }

  /** sym_get_string_default */
  function StringDefault(k: Kconfig, s: Symbol, v: Valuation): string
    requires s in k.defs
  {
    if IsLogical(s) then
      var val := Apply(OrOp, DefaultTri(k, s, v), RevDep(k, s, v));
      var val' := if val == MOD && k.modules == NO then YES else val;
      TriText(if TypeOf(s) == SBoolean && val' == MOD then YES else val')
    else if TypeOf(s) == SUnknown then ""
    else
      var d := FirstDefault(k.defs[s].props, v);
      if d.Some? && d.value.0.Sym? then RawText(d.value.0.sym, v) else ""
  }

  /** sym_get_string_value */
  function StringValue(s: Symbol, o: Outcome): string {
    if IsLogical(s) then TriText(o.curr.tri) else o.curr.text
  }

  function WithoutUser(k: Kconfig, s: Symbol): Kconfig {
    k.(user := k.user - {s})
  }

  lemma TriTextInjective(a: Tristate, b: Tristate)
    ensures TriText(a) == TriText(b) <==> a == b
  {
    assert TriText(a)[0] == TriText(b)[0] ==> a == b;
  }

  /** The string default of a symbol is the value it gets without a user value. */
  lemma StringDefaultIsUserless(k: Kconfig, s: Symbol, v: Valuation)
    requires s in k.defs && TypeOf(s) != SUnknown
    ensures StringDefault(k, s, v) == StringValue(s, Compute(WithoutUser(k, s), s, v))
  {
  }

  /** conf_write_defconfig leaves the symbol out: it is not saved at all, cannot be changed,
      or has its default value. */
  predicate Skipped(k: Kconfig, s: Symbol, o: Outcome, v: Valuation)
    requires s in k.defs
  {
    !o.write || o.visible <= o.revDep || StringValue(s, o) == StringDefault(k, s, v)
  }

  /** The user values a minimal configuration holds: the present values of the symbols written. */
  function Minimal(k: Kconfig, w: map<Symbol, Outcome>): Kconfig {
    k.(user := map s | s in k.defs && s in w && !Skipped(k, s, w[s], Values(w)) :: w[s].curr)
  }

  /** A symbol that cannot be changed but has a user value that still matters: a tristate
      that is visible as m and selected as m, while its default would make it y;
      or a selected text symbol whose user value is not its default. */
  predicate Fragile(k: Kconfig, s: Symbol, v: Valuation)
    requires s in k.defs
  {
    && s in k.user && Visible(k, s, v) != NO && Visible(k, s, v) <= RevDep(k, s, v)
    && match TypeOf(s)
       case SUnknown => false
       case SBoolean => false
       case STristate => k.modules != NO && RevDep(k, s, v) == MOD && DefaultTri(k, s, v) == YES
       case _ => k.user[s].text != StringDefault(k, s, v)
  }

  lemma MinimalLogical(k: Kconfig, w: map<Symbol, Outcome>, s: Symbol)
    requires IsSolution(k, w) && s in k.defs && IsLogical(s)
    ensures ComputeLogical(Minimal(k, w), s, Values(w)) == w[s] <==> !Fragile(k, s, Values(w))
  {
    var v := Values(w);
    assert w[s] == Compute(k, s, v);
    TriTextInjective(w[s].curr.tri, Compute(WithoutUser(k, s), s, v).curr.tri);
    StringDefaultIsUserless(k, s, v);
  }

  lemma MinimalText(k: Kconfig, w: map<Symbol, Outcome>, s: Symbol)
    requires IsSolution(k, w) && s in k.defs && !IsLogical(s) && TypeOf(s) != SUnknown
    ensures ComputeText(Minimal(k, w), s, Values(w)) == w[s] <==> !Fragile(k, s, Values(w))
  {
    assert w[s] == Compute(k, s, Values(w));
    StringDefaultIsUserless(k, s, Values(w));
  }

  /** Given unchanged values of the others, a symbol keeps its value if and only if it is not fragile. */
  lemma MinimalStep(k: Kconfig, w: map<Symbol, Outcome>, s: Symbol)
    requires IsSolution(k, w) && s in k.defs
    ensures Compute(Minimal(k, w), s, Values(w)) == w[s] <==> !Fragile(k, s, Values(w))
  {
    assert w[s] == Compute(k, s, Values(w));
    if IsLogical(s) {
      MinimalLogical(k, w, s);
    } else if TypeOf(s) != SUnknown {
      MinimalText(k, w, s);
    }
  }

  lemma MinimalRanked(k: Kconfig, w: map<Symbol, Outcome>, rank: map<Symbol, nat>)
    requires Ranked(k, rank) && Closed(k)
    ensures Ranked(Minimal(k, w), rank) && Closed(Minimal(k, w))
  {
    var m := Minimal(k, w);
    forall s, t ensures DependsOn(m, s, t) == DependsOn(k, s, t) {
    }
  }

  /** Below the first fragile symbol nothing changes. */
  lemma {:induction false} MinimalBelow(k: Kconfig, rank: map<Symbol, nat>, s: Symbol)
    requires Ranked(k, rank) && Closed(k) && s in k.defs
    requires forall t :: t in k.defs && rank[t] < rank[s] ==> !Fragile(k, t, SpecValues(k, rank))
    ensures var m := Minimal(k, SpecAll(k, rank));
            Ranked(m, rank) &&
            (Spec(m, rank, s) == Spec(k, rank, s) <==> !Fragile(k, s, SpecValues(k, rank)))
    decreases rank[s]
  {
    var w := SpecAll(k, rank);
    var m := Minimal(k, w);
    SpecSolves(k, rank);
    MinimalRanked(k, w, rank);
    forall t | t in Reads(k.defs[s]) && t in k.defs ensures Spec(m, rank, t) == Spec(k, rank, t) {
      assert DependsOn(k, s, t);
      MinimalBelow(k, rank, t);
    }
    SpecUnfolds(m, rank, s);
    ComputeAgrees(m, s, SpecValues(m, rank), SpecValues(k, rank));
    MinimalStep(k, w, s);
  }

  /** A minimal configuration expands back to the same values if and only if no symbol is fragile. */
  lemma MinimalExpands(k: Kconfig, rank: map<Symbol, nat>)
    requires Ranked(k, rank) && Closed(k)
    ensures Ranked(Minimal(k, SpecAll(k, rank)), rank)
    ensures SpecAll(Minimal(k, SpecAll(k, rank)), rank) == SpecAll(k, rank) <==>
            forall s :: s in k.defs ==> !Fragile(k, s, SpecValues(k, rank))
  {
    var w := SpecAll(k, rank);
    var m := Minimal(k, w);
    MinimalRanked(k, w, rank);
    if s :| s in k.defs && Fragile(k, s, SpecValues(k, rank)) {
      var t := LowestFragile(k, rank, s);
      MinimalBelow(k, rank, t);
      assert SpecAll(m, rank)[t] != w[t];
    } else {
      forall s | s in k.defs ensures Spec(m, rank, s) == Spec(k, rank, s) {
        MinimalBelow(k, rank, s);
      }
    }
  }

  lemma {:induction false} LowestFragile(k: Kconfig, rank: map<Symbol, nat>, s: Symbol) returns (t: Symbol)
    requires Ranked(k, rank) && s in k.defs && Fragile(k, s, SpecValues(k, rank))
    ensures t in k.defs && Fragile(k, t, SpecValues(k, rank))
    ensures forall x :: x in k.defs && rank[x] < rank[t] ==> !Fragile(k, x, SpecValues(k, rank))
    decreases rank[s]
  {
    if x :| x in k.defs && rank[x] < rank[s] && Fragile(k, x, SpecValues(k, rank)) {
      t := LowestFragile(k, rank, x);
    } else {
      t := s;
    }
  }

  /** Boolean configurations, and tristate ones without modules, have no fragile symbol. */
  lemma MinimalExpandsWithoutModules(k: Kconfig, rank: map<Symbol, nat>)
    requires Ranked(k, rank) && Closed(k)
    requires forall s :: s in k.defs ==> TypeOf(s) == SBoolean || (TypeOf(s) == STristate && k.modules == NO)
    ensures Ranked(Minimal(k, SpecAll(k, rank)), rank)
    ensures SpecAll(Minimal(k, SpecAll(k, rank)), rank) == SpecAll(k, rank)
  {
    MinimalExpands(k, rank);
  }

  /** A minimal configuration writes only what the user set and what would change if it were left out. */
  lemma MinimalIsMinimal(k: Kconfig, w: map<Symbol, Outcome>, s: Symbol)
    requires IsSolution(k, w) && s in Minimal(k, w).user
    ensures s in k.user
    ensures Compute(WithoutUser(k, s), s, Values(w)).curr != w[s].curr
  {
    assert w[s] == Compute(k, s, Values(w));
    if TypeOf(s) != SUnknown {
      StringDefaultIsUserless(k, s, Values(w));
    }
  }

  /** A fragile symbol: a tristate the user set to m, whose prompt depends on another tristate that selects it and
      is m, and whose default is y. */
  function FragileExample(s: Symbol, t: Symbol): Kconfig {
    var ofS := [Defined(None), Prompt(Some(Sym(t))), Default(Sym(SYM_Y), None)];
    var ofT := [Defined(None), Prompt(None), Select(None)];
    Kconfig(map[s := Definition("S", ofS, None, Some(Sym(t))), t := Definition("T", ofT, None, None)],
            map[s := Value(MOD, ""), t := Value(MOD, "")], YES)
  }

  /** Three properties, of which the second is the only prompt and the third the only possible default */
  lemma ThreeProps(a: Property, b: Property, c: Property, v: Valuation)
    requires a.Defined? && b.Prompt? && !c.Prompt?
    ensures PromptTri([a, b, c], v) == EvalOpt(b.visible, v)
    ensures FirstDefault([a, b, c], v) ==
            if c.Default? && EvalOpt(c.visible, v) != NO then Some((c.value, EvalOpt(c.visible, v))) else None
    ensures ReadByProps([a, b, c]) ==
            SymbolsOfOpt(b.visible) + if c.Default? then SymbolsOf(c.value) + SymbolsOfOpt(c.visible) else {}
  {
    var all := [a, b, c];
    assert all[..2] == [a, b] && [a, b][..1] == [a] && [a][..0] == [];
    assert PromptTri([a], v) == NO && PromptTri([a, b], v) == EvalOpt(b.visible, v);
    assert all[1..] == [b, c] && [b, c][1..] == [c] && [c][1..] == [];
    assert FirstDefault([], v) == None && ReadByProps([]) == {};
    assert FirstDefault([c], v) ==
           if c.Default? && EvalOpt(c.visible, v) != NO then Some((c.value, EvalOpt(c.visible, v))) else None;
    assert ReadByProps([c]) == if c.Default? then SymbolsOf(c.value) + SymbolsOfOpt(c.visible) else {};
    assert FirstDefault([b, c], v) == FirstDefault([c], v);
    assert ReadByProps([b, c]) == ReadByProps([c]) + SymbolsOfOpt(b.visible);
  }

  /** The selecting symbol has the user's value. */
  lemma SelectorValue(k: Kconfig, s: Symbol, t: Symbol, v: Valuation)
    requires s.Config? && t.Config? && s != t && t.stype == STristate && k.modules == YES
    requires k.defs == FragileExample(s, t).defs
    ensures Visible(k, t, v) == YES && RevDep(k, t, v) == NO && DefaultTri(k, t, v) == NO
    ensures Compute(k, t, v).curr.tri == if t in k.user then k.user[t].tri else NO
  {
    ThreeProps(Defined(None), Prompt(None), Select(None), v);
  }

  /** The selected symbol, while the selecting one is m */
  lemma SelectedValue(k: Kconfig, s: Symbol, t: Symbol, v: Valuation)
    requires s.Config? && t.Config? && s != t && s.stype == STristate && k.modules == YES && TriOf(t, v) == MOD
    requires k.defs == FragileExample(s, t).defs
    ensures Visible(k, s, v) == MOD == RevDep(k, s, v) && DefaultTri(k, s, v) == YES
    ensures Compute(k, s, v).curr.tri == if s in k.user then Apply(OrOp, Apply(AndOp, k.user[s].tri, MOD), MOD) else YES
  {
    EvalYn(v);
    ThreeProps(Defined(None), Prompt(Some(Sym(t))), Default(Sym(SYM_Y), None), v);
  }

  lemma FragileRanked(s: Symbol, t: Symbol)
    requires s.Config? && t.Config? && s != t
    ensures var k := FragileExample(s, t);
            Closed(k) && Ranked(k, map[s := 1, t := 0]) && Reads(k.defs[t]) == {} && Reads(k.defs[s]) == {t, SYM_Y}
  {
    ThreeProps(Defined(None), Prompt(None), Select(None), map[]);
    ThreeProps(Defined(None), Prompt(Some(Sym(t))), Default(Sym(SYM_Y), None), map[]);
  }

  lemma SelectorSpec(k: Kconfig, rank: map<Symbol, nat>, s: Symbol, t: Symbol)
    requires s.Config? && t.Config? && s != t && t.stype == STristate && k.modules == YES
    requires Closed(k) && Ranked(k, rank) && k.defs == FragileExample(s, t).defs
    requires t in k.user && k.user[t].tri == MOD
    ensures var o := Spec(k, rank, t); o.curr.tri == MOD && o.visible == YES && o.revDep == NO && o.write
    ensures TriOf(t, SpecValues(k, rank)) == MOD
  {
    SpecUnfolds(k, rank, t);
    SelectorValue(k, s, t, SpecValues(k, rank));
  }

  /** The value of s where s and t have user values, and where only t has */
  lemma SelectedSpec(k: Kconfig, rank: map<Symbol, nat>, s: Symbol, t: Symbol)
    requires s.Config? && t.Config? && s != t && s.stype == t.stype == STristate && k.modules == YES
    requires Closed(k) && Ranked(k, rank) && k.defs == FragileExample(s, t).defs
    requires t in k.user && k.user[t].tri == MOD && (s in k.user ==> k.user[s].tri == MOD)
    ensures var o := Spec(k, rank, s);
            o.curr.tri == (if s in k.user then MOD else YES) && o.visible == MOD == o.revDep
  {
    SelectorSpec(k, rank, s, t);
    SpecUnfolds(k, rank, s);
    SelectedValue(k, s, t, SpecValues(k, rank));
  }

  /** The minimal configuration keeps the user value of the selecting symbol only. */
  lemma FragileMinimal(s: Symbol, t: Symbol, w: map<Symbol, Outcome>)
    requires s.Config? && t.Config? && s != t && s.stype == t.stype == STristate && s in w && t in w
    requires w[s].visible == MOD == w[s].revDep
    requires w[t].curr.tri == MOD && w[t].visible == YES && w[t].revDep == NO && w[t].write
    ensures var m := Minimal(FragileExample(s, t), w);
            s !in m.user && t in m.user && m.user[t].tri == MOD && m.modules == YES
  {
    var k := FragileExample(s, t);
    SelectorValue(k, s, t, Values(w));
    TriTextInjective(MOD, NO);
    assert !Skipped(k, t, w[t], Values(w));
  }

  lemma FragileExampleLosesValue(s: Symbol, t: Symbol)
    requires s.Config? && t.Config? && s != t && s.stype == t.stype == STristate
    ensures var k, rank := FragileExample(s, t), map[s := 1, t := 0];
            && Closed(k) && Ranked(k, rank) && Ranked(Minimal(k, SpecAll(k, rank)), rank)
            && Spec(k, rank, s).curr.tri == MOD
            && Spec(Minimal(k, SpecAll(k, rank)), rank, s).curr.tri == YES
  {
    var k, rank := FragileExample(s, t), map[s := 1, t := 0];
    FragileRanked(s, t);
    SelectorSpec(k, rank, s, t);
    SelectedSpec(k, rank, s, t);
    MinimalRanked(k, SpecAll(k, rank), rank);
    FragileMinimal(s, t, SpecAll(k, rank));
    SelectedSpec(Minimal(k, SpecAll(k, rank)), rank, s, t);
  }
}
