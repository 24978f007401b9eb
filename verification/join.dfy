/** Merging two operands of && or || into one (expr_join_or, expr_join_and in expr.c). */
module Joins {
  import opened Exprs
  import opened Equality

  /** The symbol two operands must share. A negated comparison is looked into on the first side only. */
  function FirstSymbol(e: Expr): Option<Symbol> {
    match e
    case Sym(s) => Some(s)
    case Cmp(_, s, _) => Some(s)
    case Not(Sym(s)) => Some(s)
    case Not(Cmp(_, s, _)) => Some(s)
    case _ => None
  }

  function SecondSymbol(e: Expr): Option<Symbol> {
    match e
    case Not(Cmp(_, _, _)) => None
    case _ => FirstSymbol(e)
  }

  /** Both are comparisons of the given kind, one with x and the other with y. */
  predicate Compares(a: Expr, b: Expr, equal: bool, x: Symbol, y: Symbol) {
    && a.Cmp? && b.Cmp? && a.equal == equal && b.equal == equal
    && ((a.rsym == x && b.rsym == y) || (a.rsym == y && b.rsym == x))
  }

  /** One is a bare symbol, the other a comparison of the given kind with x. */
  predicate SymbolAndCompare(a: Expr, b: Expr, equal: bool, x: Symbol) {
    || (a.Sym? && b.Cmp? && b.equal == equal && b.rsym == x)
    || (b.Sym? && a.Cmp? && a.equal == equal && a.rsym == x)
  }

  predicate Complementary(a: Expr, b: Expr) {
    || (a.Not? && a.arg.Sym? && b.Sym?)
    || (b.Not? && b.arg.Sym? && a.Sym?)
  }

  /** The rules for one logical symbol s that both operands test. */
  function JoinOrRules(s: Symbol, a: Expr, b: Expr): Option<Expr> {
    if TypeOf(s) == STristate then
      if Compares(a, b, true, SYM_Y, SYM_M) then Some(Cmp(false, s, SYM_N))
      else if Compares(a, b, true, SYM_Y, SYM_N) then Some(Cmp(false, s, SYM_M))
      else if Compares(a, b, true, SYM_M, SYM_N) then Some(Cmp(false, s, SYM_Y))
      else None
    else if Complementary(a, b) then Some(Sym(SYM_Y))
    else None
  }

  /** s='b' && s!='c' */
  function JoinConstants(s: Symbol, eq: Symbol, ne: Symbol): Option<Expr> {
    if !(eq.Const? && ne.Const?) then None
    else if eq != ne then Some(Cmp(true, s, eq))
    else Some(Sym(SYM_N))
  }

  function JoinAndRules(s: Symbol, a: Expr, b: Expr): Option<Expr> {
    if SymbolAndCompare(a, b, true, SYM_Y) then Some(Cmp(true, s, SYM_Y))
    else if SymbolAndCompare(a, b, false, SYM_N) then Some(Sym(s))
    else if SymbolAndCompare(a, b, false, SYM_M) then Some(Cmp(true, s, SYM_Y))
    else if TypeOf(s) != STristate then None
    else if a.Cmp? && b.Cmp? && a.equal && !b.equal then JoinConstants(s, a.rsym, b.rsym)
    else if a.Cmp? && b.Cmp? && !a.equal && b.equal then JoinConstants(s, b.rsym, a.rsym)
    else if Compares(a, b, false, SYM_Y, SYM_N) then Some(Cmp(true, s, SYM_M))
    else if Compares(a, b, false, SYM_Y, SYM_M) then Some(Cmp(true, s, SYM_N))
    else if Compares(a, b, false, SYM_M, SYM_N) then Some(Cmp(true, s, SYM_Y))
    else None
  }

  /** expr_join_or(a, b) or expr_join_and(a, b) */
  function Join(op: Op, a: Expr, b: Expr): (r: Option<Expr>)
    ensures r.Some? ==> Size(r.value) <= Size(a)
    ensures r.Some? && !IsOp(op, a) ==> !IsOp(op, r.value)
  {
    if ExprEq(a, b) then Some(a)
    else match (FirstSymbol(a), SecondSymbol(b))
      case (Some(s), Some(s')) =>
        if s != s' || !IsLogical(s) then None
        else if op.OrOp? then JoinOrRules(s, a, b)
        else JoinAndRules(s, a, b)
      case _ => None
  }

  lemma LogicalText(s: Symbol, v: Valuation)
    requires IsLogical(s)
    ensures TextOf(s, v) == SYM_N.text <==> TriOf(s, v) == NO
    ensures TextOf(s, v) == SYM_M.text <==> TriOf(s, v) == MOD
    ensures TextOf(s, v) == SYM_Y.text <==> TriOf(s, v) == YES
    ensures SYM_Y != SYM_M && SYM_M != SYM_N && SYM_N != SYM_Y
  {
    assert TextOf(s, v) == TriText(TriOf(s, v));
    assert SYM_Y.text[0] == 'y' && SYM_M.text[0] == 'm' && SYM_N.text[0] == 'n';
    assert forall t: string | |t| == 1 :: t == [t[0]];
  }

  lemma JoinOrRulesExact(s: Symbol, a: Expr, b: Expr, v: Valuation)
    requires Typed(v) && IsLogical(s) && FirstSymbol(a) == Some(s) == SecondSymbol(b)
    requires JoinOrRules(s, a, b).Some?
    ensures Eval(JoinOrRules(s, a, b).value, v) == Apply(OrOp, Eval(a, v), Eval(b, v))
  {
    LogicalText(s, v);
    EvalYn(v);
  }

  lemma JoinConstantsExact(s: Symbol, x: Symbol, y: Symbol, v: Valuation)
    requires Typed(v) && JoinConstants(s, x, y).Some?
    ensures Eval(JoinConstants(s, x, y).value, v)
         == Apply(AndOp, Eval(Cmp(true, s, x), v), Eval(Cmp(false, s, y), v))
  {
    EvalYn(v);
  }

  /** A comparison of a tristate with two of the three constants */
  lemma JoinUnequalExact(s: Symbol, x: Symbol, y: Symbol, z: Symbol, v: Valuation)
    requires IsLogical(s) && {x, y, z} == {SYM_Y, SYM_M, SYM_N}
    ensures Eval(Cmp(true, s, z), v) == Apply(AndOp, Eval(Cmp(false, s, x), v), Eval(Cmp(false, s, y), v))
  {
    LogicalText(s, v);
  }

  lemma JoinAndRulesExact(s: Symbol, a: Expr, b: Expr, v: Valuation)
    requires Typed(v) && IsLogical(s) && FirstSymbol(a) == Some(s) == SecondSymbol(b)
    requires JoinAndRules(s, a, b).Some?
    ensures Eval(JoinAndRules(s, a, b).value, v) == Apply(AndOp, Eval(a, v), Eval(b, v))
  {
    if a.Cmp? && b.Cmp? {
      if a.equal != b.equal {
        var x, y := if a.equal then a.rsym else b.rsym, if a.equal then b.rsym else a.rsym;
        JoinConstantsExact(s, x, y, v);
      } else {
        JoinUnequalExact(s, a.rsym, b.rsym, JoinAndRules(s, a, b).value.rsym, v);
      }
    } else {
      LogicalText(s, v);
    }
  }

  /** A joined operand has exactly the value of the two it replaces. */
  lemma JoinExact(op: Op, a: Expr, b: Expr, v: Valuation)
    requires Typed(v) && Join(op, a, b).Some?
    ensures Eval(Join(op, a, b).value, v) == Apply(op, Eval(a, v), Eval(b, v))
  {
    if ExprEq(a, b) {
      ExprEqSound(a, b, v);
    } else if op.OrOp? {
      JoinOrRulesExact(FirstSymbol(a).value, a, b, v);
    } else {
      JoinAndRulesExact(FirstSymbol(a).value, a, b, v);
    }
  }

  // ----- which operands are joined -----

  predicate Third(x: Symbol, y: Symbol, z: Symbol) { {x, y, z} == {SYM_Y, SYM_M, SYM_N} }

  /** The two operands, in either order */
  predicate Both(a: Expr, b: Expr, x: Expr, y: Expr) { (a == x && b == y) || (a == y && b == x) }

  /** s=x || s=y is s!=z for a tristate, and s || !s is y for a boolean. */
  predicate OrTable(s: Symbol, a: Expr, b: Expr, t: Expr) {
    || (TypeOf(s) == STristate && a.Cmp? && b.Cmp? && t.Cmp? && Third(a.rsym, b.rsym, t.rsym)
        && a == Cmp(true, s, a.rsym) && b == Cmp(true, s, b.rsym) && t == Cmp(false, s, t.rsym))
    || (TypeOf(s) == SBoolean && Both(a, b, Sym(s), Not(Sym(s))) && t == Sym(SYM_Y))
  }

  /** s && s=y is s=y, s && s!=n is s, and s && s!=m is s=y; for a tristate s!=x && s!=y is s=z, and
      s=x && s!=x' is s=x, or n if they are the same constant. */
  predicate AndTable(s: Symbol, a: Expr, b: Expr, t: Expr) {
    || (IsLogical(s) && Both(a, b, Sym(s), Cmp(true, s, SYM_Y)) && t == Cmp(true, s, SYM_Y))
    || (IsLogical(s) && Both(a, b, Sym(s), Cmp(false, s, SYM_N)) && t == Sym(s))
    || (IsLogical(s) && Both(a, b, Sym(s), Cmp(false, s, SYM_M)) && t == Cmp(true, s, SYM_Y))
    || (TypeOf(s) == STristate && a.Cmp? && b.Cmp? && t.Cmp? && Third(a.rsym, b.rsym, t.rsym)
        && a == Cmp(false, s, a.rsym) && b == Cmp(false, s, b.rsym) && t == Cmp(true, s, t.rsym))
    || (TypeOf(s) == STristate && (IsAndIsNot(s, a, b, t) || IsAndIsNot(s, b, a, t)))
  }

  predicate IsAndIsNot(s: Symbol, a: Expr, b: Expr, t: Expr) {
    && a.Cmp? && b.Cmp? && a.rsym.Const? && b.rsym.Const?
    && a == Cmp(true, s, a.rsym) && b == Cmp(false, s, b.rsym) && t == if a.rsym == b.rsym then Sym(SYM_N) else a
  }

  /** Operands that are not equal are joined just as these tables say. */
  lemma JoinOrExactly(a: Expr, b: Expr, t: Expr)
    requires !ExprEq(a, b)
    ensures Join(OrOp, a, b) == Some(t) <==> exists s :: OrTable(s, a, b, t)
  {
    assert SYM_Y.text[0] == 'y' && SYM_M.text[0] == 'm' && SYM_N.text[0] == 'n';
    if Join(OrOp, a, b) == Some(t) {
      assert OrTable(FirstSymbol(a).value, a, b, t);
    }
  }

  lemma JoinAndExactly(a: Expr, b: Expr, t: Expr)
    requires !ExprEq(a, b)
    ensures Join(AndOp, a, b) == Some(t) <==> exists s :: AndTable(s, a, b, t)
  {
    if s :| AndTable(s, a, b, t) {
      AndTableJoins(s, a, b, t);
    }
    if Join(AndOp, a, b) == Some(t) {
      assert SYM_Y.text[0] == 'y' && SYM_M.text[0] == 'm' && SYM_N.text[0] == 'n';
      assert AndTable(FirstSymbol(a).value, a, b, t);
    }
  }

  lemma AndTableJoins(s: Symbol, a: Expr, b: Expr, t: Expr)
    requires !ExprEq(a, b) && AndTable(s, a, b, t)
    ensures Join(AndOp, a, b) == Some(t)
  {
    assert SYM_Y.text[0] == 'y' && SYM_M.text[0] == 'm' && SYM_N.text[0] == 'n';
  }
}
