/** Constant elimination and equality up to common operands
    (expr_eliminate_yn, expr_eq, expr_eliminate_eq, expr_extract_eq in expr.c). */
module Equality {
  import opened Exprs

  // ----- expr_eliminate_yn -----

  /** expr_eliminate_yn: n and y disappear from && and ||, but not below a negation. */
  function EliminateYn(e: Expr): (r: Expr)
    ensures Size(r) <= Size(e)
  {
    match e
    case Bin(op, l, r) =>
      var left, right := EliminateYn(l), EliminateYn(r);
      if left == Absorbing(op) then left
      else if left == Neutral(op) then right
      else if right == Absorbing(op) then right
      else if right == Neutral(op) then left
      else Bin(op, left, right)
    case _ => e
  }

  /** Some && or || has n or y for an operand. */
  predicate HasYn(e: Expr) {
    e.Bin? && (IsYn(e.left) || IsYn(e.right) || HasYn(e.left) || HasYn(e.right))
  }

  lemma {:induction false} EliminateYnExact(e: Expr, v: Valuation)
    ensures Eval(EliminateYn(e), v) == Eval(e, v)
  {
    if e.Bin? {
      EliminateYnExact(e.left, v);
      EliminateYnExact(e.right, v);
      EvalNeutral(e.op, Eval(e.left, v), v);
      EvalNeutral(e.op, Eval(e.right, v), v);
    }
  }

  /** It removes every such operand, changes nothing else, and shrinks the tree when there was one. */
  lemma {:induction false} EliminateYnComplete(e: Expr)
    ensures !HasYn(EliminateYn(e))
    ensures HasYn(e) ==> Size(EliminateYn(e)) < Size(e)
    ensures !HasYn(e) ==> EliminateYn(e) == e
  {
    if e.Bin? {
      EliminateYnComplete(e.left);
      EliminateYnComplete(e.right);
    }
  }

  // ----- expr_eq and __expr_eliminate_eq -----

  /** __expr_eliminate_eq: operands the two sides have in common become neutral on both. */
  function EliminateCommon(op: Op, a: Expr, b: Expr): (r: (Expr, Expr))
    ensures Size(r.0) <= Size(a) && Size(r.1) <= Size(b)
    ensures IsOp(op, r.0) <==> IsOp(op, a)
    ensures IsOp(op, r.1) <==> IsOp(op, b)
    decreases Size(a) + Size(b), if IsOp(op, a) || IsOp(op, b) then 0 else 2
  {
    if IsOp(op, a) then
      var x := EliminateCommon(op, a.left, b);
      var y := EliminateCommon(op, a.right, x.1);
      (Bin(op, x.0, y.0), y.1)
    else if IsOp(op, b) then
      var x := EliminateCommon(op, a, b.left);
      var y := EliminateCommon(op, x.0, b.right);
      (y.0, Bin(op, x.1, y.1))
    else if a == b && IsYn(a) then (a, b)
    else if !ExprEq(a, b) then (a, b)
    else (Neutral(op), Neutral(op))
  }

  predicate ExprEq(a: Expr, b: Expr)
    decreases Size(a) + Size(b), 1
  {
    match (a, b)
    case (Cmp(_, _, _), Cmp(_, _, _)) => a == b
    case (Sym(_), Sym(_)) => a == b
    case (Not(x), Not(y)) => ExprEq(x, y)
    case (Bin(op, _, _), Bin(op', _, _)) =>
      op == op' &&
      // both sides stay op-expressions, so expr_eliminate_eq runs one pass only
      var r := EliminateCommon(op, a, b);
      var x, y := EliminateYn(r.0), EliminateYn(r.1);
      x.Sym? && x == y
    case _ => false
  }

  /** Two steps that split off c1 and then c2 split off both. */
  lemma SplitTwice(op: Op, l: Tristate, l': Tristate, r: Tristate, r': Tristate,
                   b: Tristate, b': Tristate, b'': Tristate, c1: Tristate, c2: Tristate)
    requires l == Apply(op, l', c1) && b == Apply(op, b', c1)
    requires r == Apply(op, r', c2) && b' == Apply(op, b'', c2)
    ensures Apply(op, l, r) == Apply(op, Apply(op, l', r'), Apply(op, c1, c2))
    ensures b == Apply(op, b'', Apply(op, c1, c2))
  {
  }

  /** Each side is what remains of it, combined with one common part. */
  lemma {:induction false} EliminateCommonSplits(op: Op, a: Expr, b: Expr, v: Valuation) returns (c: Tristate)
    ensures Eval(a, v) == Apply(op, Eval(EliminateCommon(op, a, b).0, v), c)
    ensures Eval(b, v) == Apply(op, Eval(EliminateCommon(op, a, b).1, v), c)
    decreases Size(a) + Size(b), if IsOp(op, a) || IsOp(op, b) then 0 else 2
  {
    if IsOp(op, a) {
      var x := EliminateCommon(op, a.left, b);
      var y := EliminateCommon(op, a.right, x.1);
      var c1 := EliminateCommonSplits(op, a.left, b, v);
      var c2 := EliminateCommonSplits(op, a.right, x.1, v);
      c := Apply(op, c1, c2);
      assert EliminateCommon(op, a, b) == (Bin(op, x.0, y.0), y.1);
      SplitTwice(op, Eval(a.left, v), Eval(x.0, v), Eval(a.right, v), Eval(y.0, v),
                 Eval(b, v), Eval(x.1, v), Eval(y.1, v), c1, c2);
    } else if IsOp(op, b) {
      var x := EliminateCommon(op, a, b.left);
      var y := EliminateCommon(op, x.0, b.right);
      var c1 := EliminateCommonSplits(op, a, b.left, v);
      var c2 := EliminateCommonSplits(op, x.0, b.right, v);
      c := Apply(op, c1, c2);
      assert EliminateCommon(op, a, b) == (y.0, Bin(op, x.1, y.1));
      SplitTwice(op, Eval(b.left, v), Eval(x.1, v), Eval(b.right, v), Eval(y.1, v),
                 Eval(a, v), Eval(x.0, v), Eval(y.0, v), c1, c2);
    } else if !(a == b && IsYn(a)) && ExprEq(a, b) {
      ExprEqSound(a, b, v);
      c := Eval(a, v);
      EvalNeutral(op, c, v);
    } else {
      c := Eval(Neutral(op), v);
      EvalNeutral(op, Eval(a, v), v);
      EvalNeutral(op, Eval(b, v), v);
    }
  }

  /** If expr_eq accepts, the two expressions have the same value under every valuation. */
  lemma {:induction false} ExprEqSound(a: Expr, b: Expr, v: Valuation)
    requires ExprEq(a, b)
    ensures Eval(a, v) == Eval(b, v)
    decreases Size(a) + Size(b), 1
  {
    if a.Not? {
      ExprEqSound(a.arg, b.arg, v);
    } else if a.Bin? {
      var c := EliminateCommonSplits(a.op, a, b, v);
      var r := EliminateCommon(a.op, a, b);
      EliminateYnExact(r.0, v);
      EliminateYnExact(r.1, v);
    }
  }

  /** expr_eliminate_eq before the final constant elimination. */
  function EliminateEqPasses(a: Expr, b: Expr): (Expr, Expr) {
    var first := if a.Bin? then EliminateCommon(a.op, a, b) else (a, b);
    if first.1.Bin? && !IsOp(first.1.op, first.0)
    then EliminateCommon(first.1.op, first.0, first.1)
    else first
  }

  function EliminateEq(a: Expr, b: Expr): (Expr, Expr) {
    var r := EliminateEqPasses(a, b);
    (EliminateYn(r.0), EliminateYn(r.1))
  }

  lemma CommonImplies(op: Op, a: Expr, b: Expr, v: Valuation)
    ensures var r := EliminateCommon(op, a, b);
            Eval(r.0, v) <= Eval(r.1, v) ==> Eval(a, v) <= Eval(b, v)
  {
    var c := EliminateCommonSplits(op, a, b, v);
  }

  lemma PassesImply(a: Expr, b: Expr, v: Valuation)
    ensures var r := EliminateEqPasses(a, b);
            Eval(r.0, v) <= Eval(r.1, v) ==> Eval(a, v) <= Eval(b, v)
  {
    if a.Bin? {
      var first := EliminateCommon(a.op, a, b);
      CommonImplies(a.op, a, b, v);
      if first.1.Bin? && !IsOp(first.1.op, first.0) {
        CommonImplies(first.1.op, first.0, first.1, v);
      }
    } else if b.Bin? {
      CommonImplies(b.op, a, b, v);
    }
  }

  /** When elimination leaves the second side y, the first side was never above the second. */
  lemma EliminateEqImplies(a: Expr, b: Expr, v: Valuation)
    requires EliminateEq(a, b).1 == Sym(SYM_Y)
    ensures Eval(a, v) <= Eval(b, v)
  {
    var last := EliminateEqPasses(a, b).1;
    assert Eval(last, v) == YES by {
      EliminateYnExact(last, v);
      EvalYn(v);
    }
    PassesImply(a, b, v);
  }

  // ----- expr_extract_eq -----

  /** expr_extract_eq(op, &common, &a, &b) */
  function ExtractEq(op: Op, common: Option<Expr>, a: Expr, b: Expr): (r: (Option<Expr>, Expr, Expr))
    ensures IsOp(op, r.1) <==> IsOp(op, a)
    ensures IsOp(op, r.2) <==> IsOp(op, b)
    ensures Size(r.1) <= Size(a) && Size(r.2) <= Size(b)
    decreases Size(a) + Size(b)
  {
    if IsOp(op, a) then
      var x := ExtractEq(op, common, a.left, b);
      var y := ExtractEq(op, x.0, a.right, x.2);
      (y.0, Bin(op, x.1, y.1), y.2)
    else if IsOp(op, b) then
      var x := ExtractEq(op, common, a, b.left);
      var y := ExtractEq(op, x.0, x.1, b.right);
      (y.0, y.1, Bin(op, x.2, y.2))
    else if ExprEq(a, b) then
      (Some(if common.Some? then Bin(op, common.value, a) else a), Neutral(op), Neutral(op))
    else (common, a, b)
  }

  function EvalCommon(op: Op, common: Option<Expr>, v: Valuation): Tristate {
    if common.Some? then Eval(common.value, v) else Eval(Neutral(op), v)
  }

  /** One extraction after the other: the first side is split in two, the second side is threaded. */
  lemma ExtractTwice(op: Op, l: Tristate, l': Tristate, r: Tristate, r': Tristate,
                     b: Tristate, b': Tristate, b'': Tristate, c: Tristate, c': Tristate, c'': Tristate)
    requires Apply(op, l, c) == Apply(op, l', c') && Apply(op, b, c) == Apply(op, b', c')
    requires Apply(op, r, c') == Apply(op, r', c'') && Apply(op, b', c') == Apply(op, b'', c'')
    ensures Apply(op, Apply(op, l, r), c) == Apply(op, Apply(op, l', r'), c'')
    ensures Apply(op, b, c) == Apply(op, b'', c'')
  {
  }

  lemma ExtractLeafExact(op: Op, common: Option<Expr>, a: Expr, b: Expr, v: Valuation)
    requires !IsOp(op, a) && !IsOp(op, b)
    ensures var r := ExtractEq(op, common, a, b);
            && Apply(op, Eval(a, v), EvalCommon(op, common, v)) == Apply(op, Eval(r.1, v), EvalCommon(op, r.0, v))
            && Apply(op, Eval(b, v), EvalCommon(op, common, v)) == Apply(op, Eval(r.2, v), EvalCommon(op, r.0, v))
            && (common.Some? ==> r.0.Some?)
  {
    if ExprEq(a, b) {
      ExprEqSound(a, b, v);
      var joined := if common.Some? then Bin(op, common.value, a) else a;
      assert ExtractEq(op, common, a, b) == (Some(joined), Neutral(op), Neutral(op));
      EvalNeutral(op, Eval(joined, v), v);
      EvalNeutral(op, Eval(a, v), v);
    }
  }

  /** Extraction moves operands into the common part and loses none of their value. */
  lemma {:induction false} ExtractEqExact(op: Op, common: Option<Expr>, a: Expr, b: Expr, v: Valuation)
    ensures var r := ExtractEq(op, common, a, b);
            && Apply(op, Eval(a, v), EvalCommon(op, common, v)) == Apply(op, Eval(r.1, v), EvalCommon(op, r.0, v))
            && Apply(op, Eval(b, v), EvalCommon(op, common, v)) == Apply(op, Eval(r.2, v), EvalCommon(op, r.0, v))
            && (common.Some? ==> r.0.Some?)
    decreases Size(a) + Size(b)
  {
    var c := EvalCommon(op, common, v);
    if IsOp(op, a) {
      var x := ExtractEq(op, common, a.left, b);
      var y := ExtractEq(op, x.0, a.right, x.2);
      ExtractEqExact(op, common, a.left, b, v);
      ExtractEqExact(op, x.0, a.right, x.2, v);
      ExtractTwice(op, Eval(a.left, v), Eval(x.1, v), Eval(a.right, v), Eval(y.1, v),
                   Eval(b, v), Eval(x.2, v), Eval(y.2, v), c, EvalCommon(op, x.0, v), EvalCommon(op, y.0, v));
    } else if IsOp(op, b) {
      var x := ExtractEq(op, common, a, b.left);
      var y := ExtractEq(op, x.0, x.1, b.right);
      ExtractEqExact(op, common, a, b.left, v);
      ExtractEqExact(op, x.0, x.1, b.right, v);
      ExtractTwice(op, Eval(b.left, v), Eval(x.2, v), Eval(b.right, v), Eval(y.2, v),
                   Eval(a, v), Eval(x.1, v), Eval(y.1, v), c, EvalCommon(op, x.0, v), EvalCommon(op, y.0, v));
    } else {
      ExtractLeafExact(op, common, a, b, v);
    }
  }
}
