/** The normalising rewrites of expr.c: expr_transform, expr_trans_bool and expr_trans_compare. */
module Transforms {
  import opened Exprs

  // ----- expr_transform -----

  /** A negation costs twice its operand, so that pushing it inwards is progress. */
  function Weight(e: Expr): (n: nat)
    ensures n >= 1
  {
    match e
    case Sym(_) => 1
    case Cmp(_, _, _) => 2
    case Not(a) => 2 * Weight(a)
    case Bin(_, l, r) => 1 + Weight(l) + Weight(r)
  }

  /** Comparing a boolean with y, m or n is a test of the symbol itself. */
  function TransformCmp(eq: bool, l: Symbol, r: Symbol): Expr {
    if TypeOf(l) != SBoolean then Cmp(eq, l, r)
    else if r == SYM_N then (if eq then Not(Sym(l)) else Sym(l))
    else if r == SYM_M then (if eq then Sym(SYM_N) else Sym(SYM_Y))
    else if r == SYM_Y then (if eq then Sym(l) else Not(Sym(l)))
    else Cmp(eq, l, r)
  }

  /** !(a || b) is !a && !b, and !(a && b) is !a || !b. */
  function PushNot(op: Op, l: Expr, r: Expr): (e: Expr)
    ensures Weight(e) < Weight(Not(Bin(op, l, r)))
  {
    assert Weight(Not(l)) == 2 * Weight(l) && Weight(Not(r)) == 2 * Weight(r);
    Bin(Dual(op), Not(l), Not(r))
  }

  function Transform(e: Expr): (r: Expr)
    ensures Weight(r) <= Weight(e)
    decreases Weight(e)
  {
    match e
    case Sym(_) => e
    case Cmp(eq, l, r) => TransformCmp(eq, l, r)
    case Bin(op, l, r) => Bin(op, Transform(l), Transform(r))
    case Not(arg) =>
      match Transform(arg)
      case Not(a) => Transform(a)
      case Cmp(eq, l, r) => Cmp(!eq, l, r)
      case Bin(op, l, r) => Transform(PushNot(op, l, r))
      case Sym(s) =>
        if s == SYM_Y then Sym(SYM_N)
        else if s == SYM_M then Sym(SYM_M)
        else if s == SYM_N then Sym(SYM_Y)
        else Not(Sym(s))
  }

  /** Negations sit on symbols other than y, m and n, and no boolean is compared with y, m or n. */
  predicate Normal(e: Expr) {
    match e
    case Sym(_) => true
    case Not(a) => a.Sym? && a.sym != SYM_Y && a.sym != SYM_M && a.sym != SYM_N
    case Bin(_, l, r) => Normal(l) && Normal(r)
    case Cmp(_, l, r) => TypeOf(l) == SBoolean ==> r != SYM_Y && r != SYM_M && r != SYM_N
  }

  /** expr_transform changes no value, in all three values. */
  lemma {:induction false} TransformExact(e: Expr, v: Valuation)
    requires Typed(v)
    ensures Eval(Transform(e), v) == Eval(e, v)
    decreases Weight(e)
  {
    match e
    case Sym(_) =>
    case Cmp(_, _, _) =>
    case Bin(_, l, r) =>
      TransformExact(l, v);
      TransformExact(r, v);
    case Not(arg) =>
      TransformExact(arg, v);
      match Transform(arg)
      case Not(a) => TransformExact(a, v);
      case Bin(op, l, r) => TransformExact(PushNot(op, l, r), v);
      case _ =>
  }

  lemma {:induction false} TransformNormalises(e: Expr)
    ensures Normal(Transform(e))
    decreases Weight(e)
  {
    match e
    case Sym(_) =>
    case Cmp(_, _, _) =>
    case Bin(_, l, r) =>
      TransformNormalises(l);
      TransformNormalises(r);
    case Not(arg) =>
      TransformNormalises(arg);
      match Transform(arg)
      case Not(a) => TransformNormalises(a);
      case Bin(op, l, r) => TransformNormalises(PushNot(op, l, r));
      case _ =>
  }

  /** The normal expressions are exactly the ones expr_transform leaves alone. */
  lemma {:induction false} TransformFixpoints(e: Expr)
    ensures Transform(e) == e <==> Normal(e)
  {
    if Normal(e) {
      NormalIsFixpoint(e);
    }
    TransformNormalises(e);
  }

  lemma {:induction false} NormalIsFixpoint(e: Expr)
    requires Normal(e)
    ensures Transform(e) == e
  {
    if e.Bin? {
      NormalIsFixpoint(e.left);
      NormalIsFixpoint(e.right);
    }
  }

  lemma TransformIdempotent(e: Expr)
    ensures Transform(Transform(e)) == Transform(e)
  {
    TransformNormalises(e);
    NormalIsFixpoint(Transform(e));
  }

  /** e, or its negation, with negations pushed down to the symbols in one pass */
  function Pushed(e: Expr, neg: bool): Expr {
    match e
    case Sym(s) =>
      if !neg || s == SYM_M then e
      else if s == SYM_Y then Sym(SYM_N)
      else if s == SYM_N then Sym(SYM_Y)
      else Not(e)
    case Cmp(eq, l, r) => TransformCmp(eq != neg, l, r)
    case Not(a) => Pushed(a, !neg)
    case Bin(op, l, r) => Bin(if neg then Dual(op) else op, Pushed(l, neg), Pushed(r, neg))
  }

  lemma {:induction false} PushedNormal(e: Expr, neg: bool)
    ensures Normal(Pushed(e, neg)) && Transform(Pushed(e, neg)) == Pushed(e, neg)
  {
    match e
    case Sym(_) =>
    case Cmp(_, _, _) =>
    case Not(a) => PushedNormal(a, !neg);
    case Bin(_, l, r) =>
      PushedNormal(l, neg);
      PushedNormal(r, neg);
  }

  lemma {:induction false} PushedNegated(e: Expr, neg: bool)
    ensures Transform(Not(Pushed(e, neg))) == Pushed(e, !neg)
  {
    PushedNormal(e, neg);
    match e
    case Sym(s) => assert SYM_Y.text[0] == 'y' && SYM_M.text[0] == 'm' && SYM_N.text[0] == 'n';
    case Cmp(_, _, _) =>
    case Not(a) => PushedNegated(a, !neg);
    case Bin(op, l, r) =>
      PushedNegated(l, neg);
      PushedNegated(r, neg);
      PushedBin(if neg then Dual(op) else op, Pushed(l, neg), Pushed(r, neg));
  }

  lemma PushedBin(op: Op, l: Expr, r: Expr)
    requires Transform(l) == l && Transform(r) == r
    ensures Transform(Not(Bin(op, l, r))) == Bin(Dual(op), Transform(Not(l)), Transform(Not(r)))
  {
    assert Transform(Bin(op, l, r)) == Bin(op, l, r);
  }

  lemma NotOfTransformed(e: Expr)
    ensures Transform(Not(e)) == Transform(Not(Transform(e)))
  {
    TransformIdempotent(e);
  }

  /** Transforming the pieces again after each step comes to one pass that keeps the order of the operands. */
  lemma {:induction false} TransformIsOnePass(e: Expr)
    ensures Transform(e) == Pushed(e, false)
  {
    match e
    case Sym(_) =>
    case Cmp(_, _, _) =>
    case Bin(_, l, r) =>
      TransformIsOnePass(l);
      TransformIsOnePass(r);
    case Not(a) =>
      TransformIsOnePass(a);
      NotOfTransformed(a);
      PushedNegated(a, false);
  }

  // ----- expr_trans_bool -----

  function TransBool(e: Expr): Expr {
    match e
    case Not(a) => Not(TransBool(a))
    case Bin(op, l, r) => Bin(op, TransBool(l), TransBool(r))
    case Cmp(eq, l, r) =>
      if !eq && TypeOf(l) == STristate && r == SYM_N then Sym(l) else e
    case Sym(_) => e
  }

  /** On a normal expression expr_trans_bool keeps "the value is n", and never raises a value. */
  lemma {:induction false} TransBoolKeepsNo(e: Expr, v: Valuation)
    requires Normal(e)
    ensures Eval(TransBool(e), v) == NO <==> Eval(e, v) == NO
    ensures Eval(TransBool(e), v) <= Eval(e, v)
  {
    if e.Bin? {
      TransBoolKeepsNo(e.left, v);
      TransBoolKeepsNo(e.right, v);
    }
  }

  /** It is exact unless some tristate compared with n is m. */
  lemma {:induction false} TransBoolExactOnTwoValued(e: Expr, v: Valuation)
    requires TwoValued(v)
    ensures Eval(TransBool(e), v) == Eval(e, v)
  {
    match e
    case Not(a) => TransBoolExactOnTwoValued(a, v);
    case Bin(_, l, r) =>
      TransBoolExactOnTwoValued(l, v);
      TransBoolExactOnTwoValued(r, v);
    case _ =>
  }

  /** Some tristate is compared with n for being different. */
  predicate HasTest(e: Expr) {
    match e
    case Sym(_) => false
    case Not(a) => HasTest(a)
    case Bin(_, l, r) => HasTest(l) || HasTest(r)
    case Cmp(eq, l, r) => !eq && TypeOf(l) == STristate && r == SYM_N
  }

  /** It replaces all such tests, and an expression without them is left as it is. */
  lemma {:induction false} TransBoolComplete(e: Expr)
    ensures !HasTest(TransBool(e))
    ensures TransBool(e) == e <==> !HasTest(e)
  {
    match e
    case Not(a) => TransBoolComplete(a);
    case Bin(_, l, r) =>
      TransBoolComplete(l);
      TransBoolComplete(r);
    case _ =>
  }

  /** Above a negation expr_trans_bool does change "the value is n": !(A!=n) with A at m. */
  lemma TransBoolNeedsNormal(a: nat)
    ensures var s := Config(a, STristate);
            var v := map[s := Value(MOD, "")];
            var e := Not(Cmp(false, s, SYM_N));
            Typed(v) && Eval(e, v) == NO && Eval(TransBool(e), v) != NO
  {
    var s := Config(a, STristate);
    var v := map[s := Value(MOD, "")];
    assert TextOf(s, v)[0] == 'm' && TextOf(SYM_N, v)[0] == 'n';
  }

  // ----- expr_trans_compare -----

  /** expr_trans_compare(e, equal ? E_EQUAL : E_UNEQUAL, s). Against a symbol other than y and n
      the operands of && and || are not rewritten; against a symbol other than y, m and n
      a comparison yields nothing. */
  function TransCompare(e: Expr, equal: bool, s: Symbol): (r: Option<Expr>)
    ensures s == SYM_Y || s == SYM_N ==> r.Some?
  {
    match e
    case Sym(x) => Some(Cmp(equal, x, s))
    case Not(a) => TransCompare(a, !equal, s)
    case Bin(op, l, r) =>
      var joined :=
        if s == SYM_Y then Bin(op, TransCompare(l, true, s).value, TransCompare(r, true, s).value)
        else if s == SYM_N then Bin(Dual(op), TransCompare(l, true, s).value, TransCompare(r, true, s).value)
        else e;
      Some(if equal then joined else Not(joined))
    case Cmp(_, _, _) =>
      if s == SYM_Y then Some(if equal then e else Not(e))
      else if s == SYM_M then Some(Sym(if equal then SYM_N else SYM_Y))
      else if s == SYM_N then Some(if equal then Not(e) else e)
      else None
  }

  /** expr_trans_compare(e, E_UNEQUAL, &symbol_no), where a missing expression means y. */
  function NonNo(e: Option<Expr>): Expr {
    match e
    case None => Not(Sym(SYM_N))
    case Some(x) => TransCompare(x, false, SYM_N).value
  }

  /** The text of a symbol used as an operand is the text of its tristate. */
  predicate Plain(s: Symbol) { IsLogical(s) || s == SYM_Y || s == SYM_M || s == SYM_N }

  predicate PlainOperands(e: Expr) {
    match e
    case Sym(s) => Plain(s)
    case Not(a) => PlainOperands(a)
    case Bin(_, l, r) => PlainOperands(l) && PlainOperands(r)
    case Cmp(_, _, _) => true
  }

  /** Negated operands are n or y. */
  predicate NegationsTwoValued(e: Expr, v: Valuation) {
    match e
    case Not(a) => Eval(a, v) != MOD && NegationsTwoValued(a, v)
    case Bin(_, l, r) => NegationsTwoValued(l, v) && NegationsTwoValued(r, v)
    case _ => true
  }

  lemma PlainText(s: Symbol, v: Valuation)
    requires Plain(s)
    ensures TextOf(s, v) == "n" <==> TriOf(s, v) == NO
    ensures TextOf(s, v) == "y" <==> TriOf(s, v) == YES
  {
    if IsLogical(s) {
      assert TextOf(s, v) == TriText(TriOf(s, v));
      assert "n"[0] == 'n' && "y"[0] == 'y';
    } else {
      assert SYM_Y.text[0] == 'y' && SYM_M.text[0] == 'm' && SYM_N.text[0] == 'n';
    }
  }

  /** With two-valued negations the comparison with y or n is computed exactly. */
  lemma {:induction false} TransCompareExact(e: Expr, equal: bool, s: Symbol, v: Valuation)
    requires s == SYM_Y || s == SYM_N
    requires PlainOperands(e) && NegationsTwoValued(e, v)
    ensures Eval(TransCompare(e, equal, s).value, v) == Truth((Eval(e, v) == TriOf(s, v)) == equal)
  {
    assert SYM_Y.text[0] == 'y' && SYM_N.text[0] == 'n';
    match e
    case Sym(x) => PlainText(x, v);
    case Not(a) => TransCompareExact(a, !equal, s, v);
    case Bin(_, l, r) =>
      TransCompareExact(l, true, s, v);
      TransCompareExact(r, true, s, v);
    case Cmp(_, _, _) =>
  }

  /** The assumption on negations is exact: comparing !a is right if and only if a is not m. */
  lemma TransCompareNegation(a: Expr, equal: bool, s: Symbol, v: Valuation)
    requires s == SYM_Y || s == SYM_N
    requires PlainOperands(a) && NegationsTwoValued(a, v)
    ensures Eval(TransCompare(Not(a), equal, s).value, v) == Truth((Eval(Not(a), v) == TriOf(s, v)) == equal)
            <==> Eval(a, v) != MOD
  {
    assert SYM_Y.text[0] == 'y' && SYM_N.text[0] == 'n';
    TransCompareExact(a, !equal, s, v);
  }

  /** So is the assumption on operands: a symbol that is neither logical nor y, m, n has tristate n,
      and the test for non-n is right if and only if its text is "n". */
  lemma TransCompareText(x: Symbol, v: Valuation)
    requires Typed(v) && !Plain(x)
    ensures Eval(NonNo(Some(Sym(x))), v) == Truth(Eval(Sym(x), v) != NO) <==> TextOf(x, v) == "n"
  {
    assert TriOf(x, v) == NO;
  }

  lemma {:induction false} NonNoExact(e: Option<Expr>, v: Valuation)
    requires e.Some? ==> PlainOperands(e.value) && NegationsTwoValued(e.value, v)
    ensures Eval(NonNo(e), v) == Truth(e.None? || Eval(e.value, v) != NO)
  {
    assert SYM_Y.text[0] == 'y' && SYM_N.text[0] == 'n';
    if e.Some? {
      TransCompareExact(e.value, false, SYM_N, v);
    }
  }

  /** Compared with m, a symbol is compared by itself, a comparison never is m, and chains stay as they are. */
  lemma TransCompareMod(e: Expr, equal: bool, v: Valuation)
    requires !e.Not?
    ensures e.Sym? ==> TransCompare(e, equal, SYM_M) == Some(Cmp(equal, e.sym, SYM_M))
    ensures e.Cmp? ==> Eval(TransCompare(e, equal, SYM_M).value, v) == Truth((Eval(e, v) == MOD) == equal)
    ensures e.Bin? ==> TransCompare(e, equal, SYM_M) == Some(if equal then e else Not(e))
  {
    EvalYn(v);
    assert SYM_Y.text[0] == 'y' && SYM_M.text[0] == 'm' && SYM_N.text[0] == 'n';
  }
}
