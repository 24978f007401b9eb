/** Which entries menu_finalize makes children of which (menu.c). */
module Adoption {
  import opened Exprs
  import opened Transforms
  import opened Equality
  import opened Joins
  import opened Slots
  import opened Dups

  /** The condition under which an entry's prompt, or the entry, is there at all,
      as a two-valued expression: expr_eliminate_dups(expr_transform(expr_trans_compare(e, E_UNEQUAL, n))) */
  function Condition(e: Option<Expr>): Expr {
    EliminateDups(Transform(NonNo(e)))
  }

  /** The elimination test: everything the parent asks for is part of what the entry asks for. */
  predicate Eliminates(base: Option<Expr>, dep: Expr) {
    EliminateEq(Condition(Some(dep)), Condition(base)).1 == Sym(SYM_Y)
  }

  /** An entry with this condition becomes a child of the entry of s, which has condition base. */
  predicate Adopts(s: Symbol, base: Option<Expr>, dep: Option<Expr>) {
    dep.Some? && Contains(dep.value, s) && (Depends(dep.value, s) || Eliminates(base, dep.value))
  }

  /** What it takes for the operands of a conjunction to force the symbol: s, s=y, s=m or s!=n */
  predicate Needs(e: Expr, s: Symbol) {
    e == Sym(s) || e == Cmp(true, s, SYM_Y) || e == Cmp(true, s, SYM_M) || e == Cmp(false, s, SYM_N)
  }

  /** An expression depends on a symbol if and only if one of the operands of its &&-chain is s, s=y, s=m or s!=n. */
  lemma {:induction false} DependsExactly(e: Expr, s: Symbol)
    ensures Depends(e, s) <==> exists p :: Operand(AndOp, e, p) && Needs(At(AndOp, e, p), s)
  {
    if IsOp(AndOp, e) {
      DependsExactly(e.left, s);
      DependsExactly(e.right, s);
      if p :| Operand(AndOp, e.left, p) && Needs(At(AndOp, e.left, p), s) {
        assert ([L] + p)[1..] == p;
        assert Operand(AndOp, e, [L] + p);
      }
      if p :| Operand(AndOp, e.right, p) && Needs(At(AndOp, e.right, p), s) {
        assert ([R] + p)[1..] == p;
        assert Operand(AndOp, e, [R] + p);
      }
      if p :| Operand(AndOp, e, p) && Needs(At(AndOp, e, p), s) {
        assert Operand(AndOp, Child(e, p[0]), p[1..]);
      }
    } else {
      assert Operand(AndOp, e, []);
    }
  }

  /** The condition is y exactly when the expression is not n. */
  lemma ConditionExact(e: Option<Expr>, v: Valuation)
    requires Typed(v)
    requires e.Some? ==> PlainOperands(e.value) && NegationsTwoValued(e.value, v)
    ensures Eval(Condition(e), v) == Truth(e.None? || Eval(e.value, v) != NO)
  {
    NonNoExact(e, v);
    TransformExact(NonNo(e), v);
    EliminateDupsRefines(Transform(NonNo(e)), v);
  }

  /** An entry adopted by elimination is visible only if its parent's prompt is. */
  lemma EliminationImplies(base: Option<Expr>, dep: Expr, v: Valuation)
    requires Typed(v) && Eliminates(base, dep)
    requires PlainOperands(dep) && NegationsTwoValued(dep, v)
    requires base.Some? ==> PlainOperands(base.value) && NegationsTwoValued(base.value, v)
    ensures Eval(dep, v) != NO ==> base.None? || Eval(base.value, v) != NO
  {
    ConditionExact(Some(dep), v);
    ConditionExact(base, v);
    EliminateEqImplies(Condition(Some(dep)), Condition(base), v);
  }

  /** Whichever way an entry is adopted: where it is not n, the parent's symbol is not "n",
      or the parent's prompt condition is not n. */
  lemma AdoptionImplies(s: Symbol, base: Option<Expr>, dep: Option<Expr>, v: Valuation)
    requires Typed(v) && Adopts(s, base, dep) && Eval(dep.value, v) != NO
    ensures Depends(dep.value, s) ==> TextOf(s, v) != "n"
    ensures !Depends(dep.value, s)
            && PlainOperands(dep.value) && NegationsTwoValued(dep.value, v)
            && (base.Some? ==> PlainOperands(base.value) && NegationsTwoValued(base.value, v))
            ==> base.None? || Eval(base.value, v) != NO
  {
    if Depends(dep.value, s) {
      DependsForcesSymbol(dep.value, s, v);
    } else if PlainOperands(dep.value) && NegationsTwoValued(dep.value, v)
              && (base.Some? ==> PlainOperands(base.value) && NegationsTwoValued(base.value, v)) {
      EliminationImplies(base, dep.value, v);
    }
  }

  // ----- where adoption by elimination is wrong -----

  /** expr_eliminate_dups leaves alone what its first round leaves alone. */
  lemma EliminateDupsLeaves(op: Op, a: Expr, b: Expr)
    requires !a.Bin? && !b.Bin? && Join(op, a, b).None? && Join(op, b, a).None?
    ensures EliminateDups(Bin(op, a, b)) == Bin(op, a, b)
  {
    Dups1OnTwo(op, a, b);
    TwoSlots(op, a, b);
    Dups2Idle(op, Bin(op, a, b), [], []);
    assert Round(Bin(op, a, b)) == Rewrite(Bin(op, a, b), 0);
  }

  /** expr_transform of !(S!=n || T!=n), with S a boolean and T a tristate. */
  lemma NegationsTransformed(s: Symbol, t: Symbol)
    requires TypeOf(s) == SBoolean && TypeOf(t) == STristate && SYM_N != SYM_Y && SYM_N != SYM_M
    requires s != SYM_Y && s != SYM_M && s != SYM_N
    ensures Transform(Not(Cmp(false, t, SYM_N))) == Cmp(true, t, SYM_N)
    ensures Transform(Not(Bin(OrOp, Cmp(false, s, SYM_N), Cmp(false, t, SYM_N))))
         == Bin(AndOp, Not(Sym(s)), Cmp(true, t, SYM_N))
  {
    var l, r := Cmp(false, s, SYM_N), Cmp(false, t, SYM_N);
    assert Transform(r) == r;
    assert Transform(l) == Sym(s);
    assert Transform(Bin(OrOp, l, r)) == Bin(OrOp, Sym(s), r);
    assert Transform(Not(Sym(s))) == Not(Sym(s)) by {
      assert Transform(Sym(s)) == Sym(s);
    }
    assert Transform(Not(r)) == Cmp(true, t, SYM_N);
    assert PushNot(OrOp, Sym(s), r) == Bin(AndOp, Not(Sym(s)), Not(r));
    assert Transform(Bin(AndOp, Not(Sym(s)), Not(r))) == Bin(AndOp, Transform(Not(Sym(s))), Transform(Not(r)));
  }

  /** !S && !T becomes !S && T=n when it is compared with n. */
  lemma NegationsCompared(s: Symbol, t: Symbol)
    requires TypeOf(s) == SBoolean && TypeOf(t) == STristate && SYM_N != SYM_Y && SYM_N != SYM_M
    requires s != SYM_Y && s != SYM_M && s != SYM_N
    ensures Condition(Some(Bin(AndOp, Not(Sym(s)), Not(Sym(t))))) == Bin(AndOp, Not(Sym(s)), Cmp(true, t, SYM_N))
    ensures Condition(Some(Cmp(true, t, SYM_N))) == Cmp(true, t, SYM_N)
  {
    var l, r := Cmp(false, s, SYM_N), Cmp(false, t, SYM_N);
    NegationsTransformed(s, t);
    assert TransCompare(Sym(s), true, SYM_N) == Some(Cmp(true, s, SYM_N));
    assert TransCompare(Not(Sym(s)), true, SYM_N) == Some(l);
    assert TransCompare(Not(Sym(t)), true, SYM_N) == Some(r);
    assert NonNo(Some(Bin(AndOp, Not(Sym(s)), Not(Sym(t))))) == Not(Bin(OrOp, l, r));
    assert NonNo(Some(Cmp(true, t, SYM_N))) == Cmp(true, t, SYM_N);
    EliminateDupsLeaves(AndOp, Not(Sym(s)), Cmp(true, t, SYM_N));
  }

  /** The whole of T=n is part of !S && T=n. */
  lemma NegationsEliminated(s: Symbol, t: Symbol)
    requires SYM_N != SYM_Y
    ensures EliminateEq(Bin(AndOp, Not(Sym(s)), Cmp(true, t, SYM_N)), Cmp(true, t, SYM_N)).1 == Sym(SYM_Y)
  {
    var base := Cmp(true, t, SYM_N);
    assert EliminateCommon(AndOp, Not(Sym(s)), base) == (Not(Sym(s)), base);
    assert EliminateCommon(AndOp, base, base) == (Sym(SYM_Y), Sym(SYM_Y));
    assert EliminateEqPasses(Bin(AndOp, Not(Sym(s)), base), base)
        == (Bin(AndOp, Not(Sym(s)), Sym(SYM_Y)), Sym(SYM_Y));
    assert EliminateYn(Sym(SYM_Y)) == Sym(SYM_Y);
  }

  /** A bool whose prompt depends on T=n adopts by elimination an entry that depends on !S && !T. With T at m and S
      at n that entry is m, and the prompt it ends up below is n. */
  lemma EliminationMisleads(a: nat, b: nat)
    ensures var s, t := Config(a, SBoolean), Config(b, STristate);
            var base, dep := Cmp(true, t, SYM_N), Bin(AndOp, Not(Sym(s)), Not(Sym(t)));
            var v := map[s := Value(NO, ""), t := Value(MOD, "")];
            && Typed(v) && Adopts(s, Some(base), Some(dep)) && !Depends(dep, s)
            && Eval(dep, v) == MOD && Eval(base, v) == NO
  {
    var s, t := Config(a, SBoolean), Config(b, STristate);
    var base, dep := Cmp(true, t, SYM_N), Bin(AndOp, Not(Sym(s)), Not(Sym(t)));
    var v := map[s := Value(NO, ""), t := Value(MOD, "")];
    assert SYM_Y.text[0] == 'y' && SYM_M.text[0] == 'm' && SYM_N.text[0] == 'n';
    NegationsCompared(s, t);
    NegationsEliminated(s, t);
    assert Adopts(s, Some(base), Some(dep)) by {
      assert Contains(Not(Sym(s)), s);
      assert Eliminates(Some(base), dep);
    }
    assert !Depends(Not(Sym(s)), s) && !Depends(Not(Sym(t)), s);
    assert TextOf(t, v)[0] == 'm';
    assert Eval(Sym(s), v) == NO && Eval(Sym(t), v) == MOD;
    assert Eval(Not(Sym(s)), v) == YES && Eval(Not(Sym(t)), v) == MOD;
  }
}
