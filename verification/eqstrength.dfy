/** How much expr_eq accepts: every expression against itself, and, for chains of literals,
    exactly the rearrangements. */
module EqualityStrength {
  import opened Exprs
  import opened Equality
  import opened Slots

  // ----- reflexivity -----

  /** Every operand of the chain is y or n. */
  predicate AllYn(op: Op, e: Expr) {
    if IsOp(op, e) then AllYn(op, e.left) && AllYn(op, e.right) else IsYn(e)
  }

  /** What cancelling every operand leaves. */
  function Blank(op: Op, e: Expr): (r: Expr)
    ensures AllYn(op, r)
  {
    if IsOp(op, e) then Bin(op, Blank(op, e.left), Blank(op, e.right))
    else if IsYn(e) then e
    else Neutral(op)
  }

  lemma {:induction false} AllYnCollapses(op: Op, e: Expr)
    requires AllYn(op, e)
    ensures IsYn(EliminateYn(e))
  {
    if IsOp(op, e) {
      AllYnCollapses(op, e.left);
      AllYnCollapses(op, e.right);
    }
  }

  lemma {:induction false} YnCancelsNothing(op: Op, a: Expr, b: Expr)
    requires IsYn(a) || (!IsOp(op, a) && AllYn(op, b))
    ensures EliminateCommon(op, a, b) == (a, b)
  {
    if IsOp(op, b) {
      YnCancelsNothing(op, a, b.left);
      YnCancelsNothing(op, a, b.right);
    }
  }

  /** All operands to the left of the path are y or n. */
  predicate LeftDone(op: Op, e: Expr, p: Path)
    requires ChainPath(op, e, p)
  {
    p != [] ==> LeftDone(op, Child(e, p[0]), p[1..]) && (p[0] == R ==> AllYn(op, e.left))
  }

  lemma {:induction false} LeftDoneChild(op: Op, e: Expr, p: Path)
    requires ChainPath(op, e, p) && LeftDone(op, e, p) && IsOp(op, At(op, e, p))
    ensures ChainPath(op, e, p + [L]) && LeftDone(op, e, p + [L])
    ensures ChainPath(op, e, p + [R]) && (AllYn(op, At(op, e, p).left) ==> LeftDone(op, e, p + [R]))
  {
    AtChild(op, e, p, L);
    AtChild(op, e, p, R);
    if p != [] {
      assert (p + [L])[1..] == p[1..] + [L] && (p + [R])[1..] == p[1..] + [R];
      LeftDoneChild(op, Child(e, p[0]), p[1..]);
    }
  }

  lemma {:induction false} LeftDonePut(op: Op, e: Expr, p: Path, x: Expr, y: Expr)
    requires ChainPath(op, e, p) && LeftDone(op, e, p)
    ensures ChainPath(op, Put(op, e, p, x), p) && LeftDone(op, Put(op, e, p, x), p)
    ensures Put(op, Put(op, e, p, x), p, y) == Put(op, e, p, y)
  {
    if p != [] {
      LeftDonePut(op, Child(e, p[0]), p[1..], x, y);
    }
  }

  lemma {:induction false} PutChild(op: Op, e: Expr, p: Path, d: Dir, x: Expr)
    requires ChainPath(op, e, p) && IsOp(op, At(op, e, p))
    ensures ChainPath(op, e, p + [d])
    ensures var here := At(op, e, p);
            Put(op, e, p + [d], x) == Put(op, e, p, if d == L then Bin(op, x, here.right) else Bin(op, here.left, x))
  {
    AtChild(op, e, p, d);
    if p != [] {
      assert (p + [d])[1..] == p[1..] + [d];
      PutChild(op, Child(e, p[0]), p[1..], d, x);
    }
  }

  lemma {:induction false} OperandFindsItself(op: Op, a: Expr, b: Expr, p: Path)
    requires Operand(op, b, p) && LeftDone(op, b, p) && At(op, b, p) == a && ExprEq(a, a)
    ensures EliminateCommon(op, a, b) == (Blank(op, a), Put(op, b, p, Blank(op, a)))
    decreases |p|
  {
    if p != [] {
      OperandFindsItself(op, a, Child(b, p[0]), p[1..]);
      if p[0] == L {
        YnCancelsNothing(op, Blank(op, a), b.right);
      } else {
        YnCancelsNothing(op, a, b.left);
      }
    }
  }

  /** A part of a tree cancels against the tree it is part of, operand by operand. */
  lemma {:induction false} PartCancels(op: Op, a: Expr, b: Expr, p: Path)
    requires ChainPath(op, b, p) && LeftDone(op, b, p) && At(op, b, p) == a
    ensures EliminateCommon(op, a, b) == (Blank(op, a), Put(op, b, p, Blank(op, a)))
    decreases Size(a), if IsOp(op, a) then 0 else 2
  {
    if IsOp(op, a) {
      var l, r := Blank(op, a.left), Blank(op, a.right);
      AtChild(op, b, p, L);
      LeftDoneChild(op, b, p);
      PartCancels(op, a.left, b, p + [L]);
      PutChild(op, b, p, L, l);
      var c := Put(op, b, p, Bin(op, l, a.right));
      AtPut(op, b, p, Bin(op, l, a.right));
      LeftDonePut(op, b, p, Bin(op, l, a.right), Bin(op, l, r));
      AtChild(op, c, p, R);
      LeftDoneChild(op, c, p);
      PartCancels(op, a.right, c, p + [R]);
      PutChild(op, c, p, R, r);
    } else {
      ExprEqReflexive(a);
      OperandFindsItself(op, a, b, p);
    }
  }

  /** Every expression equals itself. */
  lemma {:induction false} ExprEqReflexive(e: Expr)
    ensures ExprEq(e, e)
    decreases Size(e), 1
  {
    match e
    case Not(a) => ExprEqReflexive(a);
    case Bin(op, _, _) =>
      PartCancels(op, e, e, []);
      AllYnCollapses(op, Blank(op, e));
    case _ =>
  }

  // ----- chains of literals -----

  predicate Literal(e: Expr) {
    match e
    case Not(a) => Literal(a)
    case Bin(_, _, _) => false
    case _ => true
  }

  predicate LiteralChain(op: Op, e: Expr) {
    if IsOp(op, e) then LiteralChain(op, e.left) && LiteralChain(op, e.right) else Literal(e)
  }

  /** The operands other than y and n */
  function Operands(op: Op, e: Expr): multiset<Expr> {
    if IsOp(op, e) then Operands(op, e.left) + Operands(op, e.right)
    else if IsYn(e) then multiset{}
    else multiset{e}
  }

  /** Some operand decides the value of the chain. */
  predicate Decided(op: Op, e: Expr) {
    if IsOp(op, e) then Decided(op, e.left) || Decided(op, e.right) else e == Absorbing(op)
  }

  lemma YnDiffer(op: Op)
    ensures Neutral(op) != Absorbing(op)
    ensures forall e :: IsYn(e) <==> e == Neutral(op) || e == Absorbing(op)
  {
    EvalYn(map[]);
  }

  lemma {:induction false} LiteralEq(a: Expr, b: Expr)
    requires Literal(a)
    ensures ExprEq(a, b) <==> a == b
  {
    if a.Not? && b.Not? {
      LiteralEq(a.arg, b.arg);
    }
  }

  lemma SubtractTwice(l: multiset<Expr>, r: multiset<Expr>, b: multiset<Expr>)
    ensures (l - b) + (r - (b - l)) == (l + r) - b
    ensures (b - l) - r == b - (l + r)
  {
  }

  lemma {:induction false} CancelKeepsShape(op: Op, a: Expr, b: Expr)
    requires LiteralChain(op, a) && LiteralChain(op, b)
    ensures var r := EliminateCommon(op, a, b);
            && LiteralChain(op, r.0) && LiteralChain(op, r.1)
            && Decided(op, r.0) == Decided(op, a) && Decided(op, r.1) == Decided(op, b)
    decreases Size(a) + Size(b)
  {
    if IsOp(op, a) {
      var x := EliminateCommon(op, a.left, b);
      CancelKeepsShape(op, a.left, b);
      CancelKeepsShape(op, a.right, x.1);
    } else if IsOp(op, b) {
      var x := EliminateCommon(op, a, b.left);
      CancelKeepsShape(op, a, b.left);
      CancelKeepsShape(op, x.0, b.right);
    } else {
      LiteralEq(a, b);
      YnDiffer(op);
    }
  }

  /** Cancelling is multiset subtraction, on both sides. */
  lemma {:induction false} CancelSubtracts(op: Op, a: Expr, b: Expr)
    requires LiteralChain(op, a) && LiteralChain(op, b)
    ensures var r := EliminateCommon(op, a, b);
            && Operands(op, r.0) == Operands(op, a) - Operands(op, b)
            && Operands(op, r.1) == Operands(op, b) - Operands(op, a)
    decreases Size(a) + Size(b)
  {
    if IsOp(op, a) {
      var x := EliminateCommon(op, a.left, b);
      CancelKeepsShape(op, a.left, b);
      CancelSubtracts(op, a.left, b);
      CancelSubtracts(op, a.right, x.1);
      SubtractTwice(Operands(op, a.left), Operands(op, a.right), Operands(op, b));
    } else if IsOp(op, b) {
      var x := EliminateCommon(op, a, b.left);
      CancelKeepsShape(op, a, b.left);
      CancelSubtracts(op, a, b.left);
      CancelSubtracts(op, x.0, b.right);
      SubtractTwice(Operands(op, b.left), Operands(op, b.right), Operands(op, a));
    } else {
      OperandsCancel(op, a, b);
    }
  }

  lemma OperandsCancel(op: Op, a: Expr, b: Expr)
    requires !IsOp(op, a) && !IsOp(op, b) && Literal(a) && Literal(b)
    ensures var r := EliminateCommon(op, a, b);
            && Operands(op, r.0) == Operands(op, a) - Operands(op, b)
            && Operands(op, r.1) == Operands(op, b) - Operands(op, a)
  {
    LiteralEq(a, b);
    var r := EliminateCommon(op, a, b);
    if a == b {
      assert IsYn(r.0) && r.0 == r.1;
      SelfDifference(Operands(op, a));
    } else {
      assert r == (a, b);
      if !IsYn(a) && !IsYn(b) {
        assert multiset{a} - multiset{b} == multiset{a} && multiset{b} - multiset{a} == multiset{b};
      }
    }
  }

  lemma SelfDifference(a: multiset<Expr>)
    ensures a - a == multiset{}
  {
  }

  lemma {:induction false} EliminateYnDecides(op: Op, e: Expr)
    requires LiteralChain(op, e)
    ensures EliminateYn(e) == Absorbing(op) <==> Decided(op, e)
  {
    YnDiffer(op);
    if IsOp(op, e) {
      EliminateYnDecides(op, e.left);
      EliminateYnDecides(op, e.right);
    }
  }

  lemma {:induction false} EliminateYnKeepsOperands(op: Op, e: Expr)
    requires LiteralChain(op, e) && !Decided(op, e)
    ensures Operands(op, EliminateYn(e)) == Operands(op, e)
    ensures EliminateYn(e) == Neutral(op) <==> Operands(op, e) == multiset{}
  {
    if IsOp(op, e) {
      var l, r := EliminateYn(e.left), EliminateYn(e.right);
      EliminateYnKeepsOperands(op, e.left);
      EliminateYnKeepsOperands(op, e.right);
      EliminateYnDecides(op, e.left);
      EliminateYnDecides(op, e.right);
      YnDiffer(op);
      if l != Neutral(op) && r != Neutral(op) {
        assert EliminateYn(e) == Bin(op, l, r);
      }
    } else {
      YnDiffer(op);
    }
  }

  /** Two chains of literals are equal to expr_eq if and only if both contain the deciding constant,
      or neither does and they have the same operands, in any order and association,
      up to neutral constants. */
  lemma LiteralChainsEq(op: Op, a: Expr, b: Expr)
    requires IsOp(op, a) && IsOp(op, b) && LiteralChain(op, a) && LiteralChain(op, b)
    ensures ExprEq(a, b) <==>
            Decided(op, a) == Decided(op, b) && (Decided(op, a) || Operands(op, a) == Operands(op, b))
  {
    var r := EliminateCommon(op, a, b);
    var x, y := EliminateYn(r.0), EliminateYn(r.1);
    assert ExprEq(a, b) <==> x.Sym? && x == y;
    CancelKeepsShape(op, a, b);
    EliminateYnDecides(op, r.0);
    EliminateYnDecides(op, r.1);
    if !Decided(op, a) && !Decided(op, b) {
      CancelSubtracts(op, a, b);
      EliminateYnKeepsOperands(op, r.0);
      EliminateYnKeepsOperands(op, r.1);
      EqualDifferences(Operands(op, a), Operands(op, b));
    }
  }

  lemma EqualDifferences(a: multiset<Expr>, b: multiset<Expr>)
    ensures a - b == b - a <==> a == b
    ensures a - a == multiset{}
  {
    if a - b == b - a {
      forall e ensures a[e] == b[e] {
        assert (a - b)[e] == (b - a)[e];
      }
    }
  }
}
