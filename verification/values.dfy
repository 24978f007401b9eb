/** The value of a symbol, said by the places of its prompts and defaults and not by how it is calculated
    (sym_get_default_prop, sym_calc_visibility and sym_calc_value in symbol.c). */
module SymbolValues {
  import opened Exprs
  import opened Symbols

  /** The first default whose condition is not n */
  ghost predicate IsFirstDefault(props: seq<Property>, i: int, v: Valuation) {
    && 0 <= i < |props| && props[i].Default? && EvalOpt(props[i].visible, v) != NO
    && forall j :: 0 <= j < i && props[j].Default? ==> EvalOpt(props[j].visible, v) == NO
  }

  /** sym_get_default_prop returns the first default whose condition is not n, and nothing if there is none. */
  lemma {:induction false} FirstDefaultAt(props: seq<Property>, v: Valuation)
    ensures var d := FirstDefault(props, v);
            && (d.None? <==> forall i :: 0 <= i < |props| && props[i].Default? ==> EvalOpt(props[i].visible, v) == NO)
            && (d.Some? ==> exists i :: IsFirstDefault(props, i, v)
                              && d.value == (props[i].value, EvalOpt(props[i].visible, v)))
  {
    if props != [] && !(props[0].Default? && EvalOpt(props[0].visible, v) != NO) {
      var rest := props[1..];
      FirstDefaultAt(rest, v);
      if i :| IsFirstDefault(rest, i, v) && FirstDefault(rest, v).Some?
              && FirstDefault(rest, v).value == (rest[i].value, EvalOpt(rest[i].visible, v)) {
        assert forall j :: 0 < j <= i ==> props[j] == rest[j - 1];
        assert IsFirstDefault(props, i + 1, v);
      } else {
        assert forall j :: 0 < j < |props| ==> props[j] == rest[j - 1];
      }
    } else if props != [] {
      assert IsFirstDefault(props, 0, v);
    }
  }

  /** There is only one such default. */
  lemma TheFirstDefault(props: seq<Property>, v: Valuation) returns (i: int)
    ensures FirstDefault(props, v).Some? ==>
              && IsFirstDefault(props, i, v)
              && FirstDefault(props, v).value == (props[i].value, EvalOpt(props[i].visible, v))
    ensures forall j :: IsFirstDefault(props, j, v) ==> FirstDefault(props, v).Some? && j == i
  {
    FirstDefaultAt(props, v);
    i := 0;
    if FirstDefault(props, v).Some? {
      i :| IsFirstDefault(props, i, v)
           && FirstDefault(props, v).value == (props[i].value, EvalOpt(props[i].visible, v));
    }
  }

  /** Some prompt has at least this value. */
  ghost predicate Prompted(props: seq<Property>, t: Tristate, v: Valuation) {
    exists i :: 0 <= i < |props| && props[i].Prompt? && EvalOpt(props[i].visible, v) >= t
  }

  lemma {:induction false} PromptedBy(props: seq<Property>, t: Tristate, v: Valuation)
    requires t != NO
    ensures PromptTri(props, v) >= t <==> Prompted(props, t, v)
  {
    if props != [] {
      var init, last := props[..|props| - 1], props[|props| - 1];
      PromptedBy(init, t, v);
      if Prompted(init, t, v) {
        var i :| 0 <= i < |init| && init[i].Prompt? && EvalOpt(init[i].visible, v) >= t;
        assert props[i] == init[i];
      } else if Prompted(props, t, v) {
        var i :| 0 <= i < |props| && props[i].Prompt? && EvalOpt(props[i].visible, v) >= t;
        assert i == |init|;
      }
    }
  }

  /** Effectively a tristate: it is one and modules are on. */
  predicate ThreeValued(k: Kconfig, s: Symbol) { TypeOf(s) == STristate && k.modules != NO }

  /** A symbol is visible where some prompt's condition is not n; one that is no effective tristate is then fully
      visible. Its select bound is n, unless something selects it, and m only for an effective tristate or a text. */
  lemma BoundsAt(k: Kconfig, s: Symbol, v: Valuation)
    requires s in k.defs
    ensures var d, vis, rev, dir := k.defs[s], Visible(k, s, v), RevDep(k, s, v), DirDep(k, s, v);
            && (vis != NO <==> Prompted(d.props, MOD, v))
            && (vis == YES <==> Prompted(d.props, if ThreeValued(k, s) then YES else MOD, v))
            && (rev != NO <==> d.revDep.Some? && Eval(d.revDep.value, v) != NO)
            && (IsLogical(s) ==>
                  (rev == YES <==> d.revDep.Some?
                                   && Eval(d.revDep.value, v) >= if ThreeValued(k, s) then YES else MOD))
            && (dir == NO <==> d.dirDep.Some? && Eval(d.dirDep.value, v) == NO) && dir != MOD
  {
    PromptedBy(k.defs[s].props, MOD, v);
    PromptedBy(k.defs[s].props, YES, v);
  }

  /** The user's value counts. */
  ghost predicate UserCounts(k: Kconfig, s: Symbol, v: Valuation)
    requires s in k.defs
  {
    s in k.user && Prompted(k.defs[s].props, MOD, v)
  }

  /** Something gives the symbol at least t: what selects it; the user, where a prompt allows as much; or, if the
      user's value does not count, the first default whose condition is not n, where that condition allows as much. */
  ghost predicate Given(k: Kconfig, s: Symbol, v: Valuation, t: Tristate)
    requires s in k.defs
  {
    var d := k.defs[s];
    || (d.revDep.Some? && Eval(d.revDep.value, v) >= t)
    || (UserCounts(k, s, v) && k.user[s].tri >= t && Prompted(d.props, t, v))
    || (!UserCounts(k, s, v)
        && exists i :: IsFirstDefault(d.props, i, v)
                       && Eval(d.props[i].value, v) >= t && EvalOpt(d.props[i].visible, v) >= t)
  }

  /** An effective tristate has the strongest value it is given; any other is y if it is given something. */
  ghost predicate HasGiven(k: Kconfig, s: Symbol, v: Valuation, t: Tristate)
    requires s in k.defs
  {
    if ThreeValued(k, s) then (t != NO <==> Given(k, s, v, MOD)) && (t == YES <==> Given(k, s, v, YES))
    else t == if Given(k, s, v, MOD) then YES else NO
  }

  /** A logical symbol is saved if it is visible, selected, or has a default whose condition is not n. */
  ghost predicate Saved(k: Kconfig, s: Symbol, v: Valuation)
    requires s in k.defs
  {
    var d := k.defs[s];
    || Prompted(d.props, MOD, v) || (d.revDep.Some? && Eval(d.revDep.value, v) != NO)
    || exists i :: IsFirstDefault(d.props, i, v)
  }

  /** A text is the user's while a prompt is visible, or else that of the symbol the first default with a condition
      other than n names; a default that is no single symbol gives none. */
  ghost predicate TextOutcome(k: Kconfig, s: Symbol, v: Valuation, o: Outcome)
    requires s in k.defs
  {
    var d := k.defs[s];
    && o.curr.tri == NO
    && (UserCounts(k, s, v) ==> o.write && o.curr.text == k.user[s].text)
    && (!UserCounts(k, s, v) ==>
          && (forall i :: IsFirstDefault(d.props, i, v) && d.props[i].value.Sym? ==>
                o.write && o.curr.text == match d.props[i].value.sym
                                          case Const(text) => text
                                          case s => if s in v then v[s].text else "")
          && ((forall i :: IsFirstDefault(d.props, i, v) ==> !d.props[i].value.Sym?) ==>
                o.curr.text == "" && (o.write <==> Prompted(d.props, MOD, v))))
  }

  lemma GivenBy(k: Kconfig, s: Symbol, v: Valuation, t: Tristate)
    requires s in k.defs && t != NO
    ensures var d, default := k.defs[s], FirstDefault(k.defs[s].props, v);
            Given(k, s, v, t) <==>
            || (d.revDep.Some? && Eval(d.revDep.value, v) >= t)
            || (if UserCounts(k, s, v) then k.user[s].tri >= t && PromptTri(d.props, v) >= t
                else default.Some? && Eval(default.value.0, v) >= t && default.value.1 >= t)
  {
    PromptedBy(k.defs[s].props, t, v);
    var i := TheFirstDefault(k.defs[s].props, v);
  }

  /** The value of a boolean or tristate, and whether it is saved */
  lemma LogicalValue(k: Kconfig, s: Symbol, v: Valuation)
    requires s in k.defs && IsLogical(s)
    ensures HasGiven(k, s, v, Compute(k, s, v).curr.tri)
    ensures Compute(k, s, v).write <==> Saved(k, s, v)
  {
    LogicalGiven(k, s, v);
    BoundsAt(k, s, v);
    var i := TheFirstDefault(k.defs[s].props, v);
    assert FirstDefault(k.defs[s].props, v).Some? <==> exists i :: IsFirstDefault(k.defs[s].props, i, v);
  }

  lemma LogicalGiven(k: Kconfig, s: Symbol, v: Valuation)
    requires s in k.defs && IsLogical(s)
    ensures HasGiven(k, s, v, Compute(k, s, v).curr.tri)
  {
    BoundsAt(k, s, v);
    PromptedBy(k.defs[s].props, MOD, v);
    GivenBy(k, s, v, MOD);
    GivenBy(k, s, v, YES);
  }

  /** The text of a string, int or hex, and whether it is saved */
  lemma TextValue(k: Kconfig, s: Symbol, v: Valuation)
    requires s in k.defs && !IsLogical(s) && TypeOf(s) != SUnknown
    ensures TextOutcome(k, s, v, Compute(k, s, v))
  {
    BoundsAt(k, s, v);
    var i := TheFirstDefault(k.defs[s].props, v);
  }

  /** In an acyclic database every symbol is as said here, given the values of the others. */
  lemma SpecOutcome(k: Kconfig, rank: map<Symbol, nat>, s: Symbol)
    requires Ranked(k, rank) && Closed(k) && s in k.defs
    ensures var v, o := SpecValues(k, rank), Spec(k, rank, s);
            && (IsLogical(s) ==> HasGiven(k, s, v, o.curr.tri) && (o.write <==> Saved(k, s, v)))
            && (!IsLogical(s) && TypeOf(s) != SUnknown ==> TextOutcome(k, s, v, o))
            && (TypeOf(s) != SUnknown ==>
                  o.visible == Visible(k, s, v) && o.dirDep == DirDep(k, s, v) && o.revDep == RevDep(k, s, v))
            && (TypeOf(s) == SUnknown ==> o == Outcome(0, 0, 0, false, Value(0, k.defs[s].name)))
  {
    SpecUnfolds(k, rank, s);
    if IsLogical(s) {
      LogicalValue(k, s, SpecValues(k, rank));
    } else if TypeOf(s) != SUnknown {
      TextValue(k, s, SpecValues(k, rank));
    }
  }
}
