/** Setting a symbol (sym_tristate_within_range, sym_set_tristate_value in symbol.c),
    for symbols outside choices, and what the values of symbols promise. */
module SetValue {
  import opened Exprs
  import opened Symbols
  import opened Evaluators

  /** sym_tristate_within_range */
  predicate WithinRange(k: Kconfig, s: Symbol, o: Outcome, val: Tristate) {
    var stype := EffectiveType(s, k.modules);
    && o.visible != NO
    && (stype == SBoolean || stype == STristate)
    && !(stype == SBoolean && val == MOD)
    && o.visible > o.revDep
    && o.revDep <= val <= o.visible
  }

  function WithUser(k: Kconfig, s: Symbol, val: Tristate): Kconfig {
    k.(user := k.user[s := Value(val, if s in k.user then k.user[s].text else "")])
  }

  /** sym_set_tristate_value: the present value is accepted without a look at the range. */
  method SetTristateValue(t: SymbolTable, s: Symbol, val: Tristate) returns (ok: bool)
    requires s in t.st
    modifies t
    ensures ok <==> old(t.st[s].out.curr.tri) == val || WithinRange(old(t.k), s, old(t.st[s].out), val)
    ensures !ok ==> t.k == old(t.k) && t.st == old(t.st)
    ensures ok ==> t.k == WithUser(old(t.k), s, val)
    ensures ok && old(t.st[s].out.curr.tri) == val ==> t.st == old(t.st)
    ensures ok && old(t.st[s].out.curr.tri) != val ==>
              t.st.Keys == old(t.st).Keys && forall x :: x in t.st ==> !t.st[x].valid && t.st[x].out == old(t.st)[x].out
  {
    var oldval := t.st[s].out.curr.tri;
    if oldval != val && !WithinRange(t.k, s, t.st[s].out, val) {
      return false;
    }
    t.k := WithUser(t.k, s, val);
    if oldval != val {
      t.ClearAllValid();
    }
    ok := true;
  }

  lemma WithUserRanked(k: Kconfig, rank: map<Symbol, nat>, s: Symbol, val: Tristate)
    requires Ranked(k, rank) && Closed(k)
    ensures Ranked(WithUser(k, s, val), rank) && Closed(WithUser(k, s, val))
  {
    forall x, y ensures DependsOn(WithUser(k, s, val), x, y) == DependsOn(k, x, y) {
    }
  }

  lemma OwnUserOnly(k: Kconfig, s: Symbol, val: Tristate, t: Symbol, v: Valuation)
    requires t in k.defs && t != s
    ensures Compute(WithUser(k, s, val), t, v) == Compute(k, t, v)
  {
    var k' := WithUser(k, s, val);
    assert Visible(k', t, v) == Visible(k, t, v) && RevDep(k', t, v) == RevDep(k, t, v);
    assert ComputeText(k', t, v) == ComputeText(k, t, v);
    assert ComputeLogical(k', t, v) == ComputeLogical(k, t, v);
  }

  /** The calculation of the symbol that is set */
  lemma OwnUser(k: Kconfig, s: Symbol, val: Tristate, v: Valuation)
    requires s in k.defs && IsLogical(s)
    ensures var o, o' := Compute(k, s, v), Compute(WithUser(k, s, val), s, v);
            && o'.visible == o.visible == Visible(k, s, v) && o'.revDep == o.revDep == RevDep(k, s, v)
            && o'.curr.tri == (if o.visible == NO then o.curr.tri
                               else Lift(k, s, Apply(OrOp, Apply(AndOp, val, o.visible), o.revDep)))
  {
    var k' := WithUser(k, s, val);
    assert Visible(k', s, v) == Visible(k, s, v) && RevDep(k', s, v) == RevDep(k, s, v);
  }

  /** A symbol stays at or above its select bound, below its visibility once the user has set it,
      and is never m unless it is effectively a tristate. */
  predicate InBounds(k: Kconfig, s: Symbol, o: Outcome) {
    && o.revDep <= o.curr.tri
    && (s in k.user && o.visible != NO ==> o.curr.tri <= Apply(OrOp, o.visible, o.revDep))
    && (EffectiveType(s, k.modules) == SBoolean ==> o.curr.tri != MOD && o.visible != MOD && o.revDep != MOD)
  }

  lemma OwnBounds(k: Kconfig, s: Symbol, v: Valuation)
    requires s in k.defs && IsLogical(s)
    ensures InBounds(k, s, Compute(k, s, v))
  {
  }

  /** Symbols ranked below keep their values. */
  lemma {:induction false} LowerUnchanged(k: Kconfig, rank: map<Symbol, nat>, s: Symbol, val: Tristate, t: Symbol)
    requires Ranked(k, rank) && Closed(k) && s in k.defs && t in k.defs && rank[t] < rank[s]
    ensures Ranked(WithUser(k, s, val), rank)
    ensures Spec(WithUser(k, s, val), rank, t) == Spec(k, rank, t)
    decreases rank[t]
  {
    var k' := WithUser(k, s, val);
    WithUserRanked(k, rank, s, val);
    forall x | x in Reads(k.defs[t]) && x in k.defs ensures Spec(k', rank, x) == Spec(k, rank, x) {
      assert DependsOn(k, t, x);
      LowerUnchanged(k, rank, s, val, x);
    }
    SpecUnfolds(k, rank, t);
    SpecUnfolds(k', rank, t);
    assert forall x :: x in Reads(k.defs[t]) ==> DependsOn(k, t, x);
    ComputeAgrees(k, t, SpecValues(k, rank), SpecValues(k', rank));
    OwnUserOnly(k, s, val, t, SpecValues(k', rank));
  }

  /** The new value of the symbol, from the old values of the others */
  lemma AfterSet(k: Kconfig, rank: map<Symbol, nat>, s: Symbol, val: Tristate)
    requires Ranked(k, rank) && Closed(k) && s in k.defs
    ensures Ranked(WithUser(k, s, val), rank)
    ensures Spec(WithUser(k, s, val), rank, s) == Compute(WithUser(k, s, val), s, SpecValues(k, rank))
  {
    var k' := WithUser(k, s, val);
    WithUserRanked(k, rank, s, val);
    forall x | x in Reads(k.defs[s]) && x in k.defs ensures Spec(k', rank, x) == Spec(k, rank, x) {
      assert DependsOn(k, s, x);
      LowerUnchanged(k, rank, s, val, x);
    }
    SpecUnfolds(k', rank, s);
    assert forall x :: x in Reads(k.defs[s]) ==> DependsOn(k, s, x);
    ComputeAgrees(k', s, SpecValues(k, rank), SpecValues(k', rank));
  }

  /** A different value is accepted if and only if the symbol is visible above its select bound
      and recalculation yields exactly that value. */
  lemma SetYieldsValue(k: Kconfig, rank: map<Symbol, nat>, s: Symbol, val: Tristate)
    requires Ranked(k, rank) && Closed(k) && s in k.defs && IsLogical(s)
    requires val != Spec(k, rank, s).curr.tri
    ensures var o := Spec(k, rank, s);
            WithinRange(k, s, o, val) <==>
            o.visible > o.revDep && Ranked(WithUser(k, s, val), rank)
            && Spec(WithUser(k, s, val), rank, s).curr.tri == val
  {
    SpecUnfolds(k, rank, s);
    AfterSet(k, rank, s, val);
    OwnUser(k, s, val, SpecValues(k, rank));
    OwnBounds(k, s, SpecValues(k, rank));
  }

  /** Confirming the present value keeps it, unless it is a y that a default gave to a symbol
      visible as m only and not selected as y. */
  lemma ConfirmKeepsValue(k: Kconfig, rank: map<Symbol, nat>, s: Symbol)
    requires Ranked(k, rank) && Closed(k) && s in k.defs && IsLogical(s)
    ensures var o := Spec(k, rank, s);
            var k' := WithUser(k, s, o.curr.tri);
            && Ranked(k', rank)
            && (Spec(k', rank, s).curr.tri == o.curr.tri <==>
                !(o.visible == MOD && o.curr.tri == YES && o.revDep != YES))
  {
    SpecUnfolds(k, rank, s);
    AfterSet(k, rank, s, Spec(k, rank, s).curr.tri);
    OwnUser(k, s, Spec(k, rank, s).curr.tri, SpecValues(k, rank));
    OwnBounds(k, s, SpecValues(k, rank));
  }

  // ----- what values promise -----

  /** The value of every logical symbol is in bounds. */
  lemma ValueInBounds(k: Kconfig, rank: map<Symbol, nat>, s: Symbol)
    requires Ranked(k, rank) && Closed(k) && s in k.defs && IsLogical(s)
    ensures InBounds(k, s, Spec(k, rank, s))
  {
    SpecUnfolds(k, rank, s);
    OwnBounds(k, s, SpecValues(k, rank));
  }

  /** The values of an acyclic database are typed as the expression optimiser assumes. */
  lemma SpecTyped(k: Kconfig, rank: map<Symbol, nat>)
    requires Ranked(k, rank) && Closed(k)
    ensures Typed(SpecValues(k, rank))
    ensures k.modules == NO ==> TwoValued(SpecValues(k, rank))
  {
    forall s | s in k.defs
      ensures s.stype == SBoolean ==> Spec(k, rank, s).curr.tri != MOD
      ensures !IsLogical(s) ==> Spec(k, rank, s).curr.tri == NO
      ensures k.modules == NO ==> Spec(k, rank, s).curr.tri != MOD
    {
      SpecUnfolds(k, rank, s);
    }
  }
}
