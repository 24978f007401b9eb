/** Slots of an expression tree. A pointer to a pointer into a tree is a path from its root;
    two such pointers are equal exactly when the paths are. */
module Slots {
  import opened Exprs

  datatype Dir = L | R
  type Path = seq<Dir>

  /** The path leads from the root through op-expressions only. */
  predicate ChainPath(op: Op, e: Expr, p: Path) {
    p == [] || (IsOp(op, e) && ChainPath(op, Child(e, p[0]), p[1..]))
  }

  function Child(e: Expr, d: Dir): Expr
    requires e.Bin?
  {
    if d == L then e.left else e.right
  }

  function At(op: Op, e: Expr, p: Path): (r: Expr)
    requires ChainPath(op, e, p)
    ensures Size(r) + |p| <= Size(e)
  {
    if p == [] then e else At(op, Child(e, p[0]), p[1..])
  }

  /** *slot = x */
  function Put(op: Op, e: Expr, p: Path, x: Expr): (r: Expr)
    requires ChainPath(op, e, p)
    ensures Size(r) == Size(e) - Size(At(op, e, p)) + Size(x)
  {
    if p == [] then x
    else if p[0] == L then Bin(op, Put(op, e.left, p[1..], x), e.right)
    else Bin(op, e.left, Put(op, e.right, p[1..], x))
  }

  /** p is an operand of the whole chain of op-expressions at the root. */
  predicate Operand(op: Op, e: Expr, p: Path) {
    ChainPath(op, e, p) && !IsOp(op, At(op, e, p))
  }

  /** The two trees agree on where the op-expressions at the root are. */
  predicate SameChain(op: Op, a: Expr, b: Expr) {
    && IsOp(op, a) == IsOp(op, b)
    && (IsOp(op, a) ==> SameChain(op, a.left, b.left) && SameChain(op, a.right, b.right))
  }

  function ChainSize(op: Op, e: Expr): nat {
    if IsOp(op, e) then 1 + ChainSize(op, e.left) + ChainSize(op, e.right) else 0
  }

  lemma {:induction false} SameChainRefl(op: Op, a: Expr)
    ensures SameChain(op, a, a)
  {
    if IsOp(op, a) {
      SameChainRefl(op, a.left);
      SameChainRefl(op, a.right);
    }
  }

  lemma {:induction false} SameChainTrans(op: Op, a: Expr, b: Expr, c: Expr)
    requires SameChain(op, a, b) && SameChain(op, b, c)
    ensures SameChain(op, a, c)
  {
    if IsOp(op, a) {
      SameChainTrans(op, a.left, b.left, c.left);
      SameChainTrans(op, a.right, b.right, c.right);
    }
  }

  lemma {:induction false} SameChainAt(op: Op, a: Expr, b: Expr, p: Path)
    requires SameChain(op, a, b) && ChainPath(op, a, p)
    ensures ChainPath(op, b, p)
    ensures SameChain(op, At(op, a, p), At(op, b, p))
    ensures ChainSize(op, At(op, a, p)) == ChainSize(op, At(op, b, p))
  {
    if p != [] {
      SameChainAt(op, Child(a, p[0]), Child(b, p[0]), p[1..]);
    } else {
      SameChainSize(op, a, b);
    }
  }

  lemma {:induction false} SameChainSize(op: Op, a: Expr, b: Expr)
    requires SameChain(op, a, b)
    ensures ChainSize(op, a) == ChainSize(op, b)
  {
    if IsOp(op, a) {
      SameChainSize(op, a.left, b.left);
      SameChainSize(op, a.right, b.right);
    }
  }

  lemma {:induction false} AtChild(op: Op, e: Expr, p: Path, d: Dir)
    requires ChainPath(op, e, p) && IsOp(op, At(op, e, p))
    ensures ChainPath(op, e, p + [d]) && At(op, e, p + [d]) == Child(At(op, e, p), d)
  {
    if p != [] {
      assert (p + [d])[1..] == p[1..] + [d];
      AtChild(op, Child(e, p[0]), p[1..], d);
    }
  }

  lemma {:induction false} AtPut(op: Op, e: Expr, p: Path, x: Expr)
    requires ChainPath(op, e, p)
    ensures ChainPath(op, Put(op, e, p, x), p) && At(op, Put(op, e, p, x), p) == x
    ensures Put(op, e, p, At(op, e, p)) == e
  {
    if p != [] {
      AtPut(op, Child(e, p[0]), p[1..], x);
    }
  }

  /** Overwriting one operand with another operand keeps the chain. */
  lemma {:induction false} PutKeepsChain(op: Op, e: Expr, p: Path, x: Expr)
    requires Operand(op, e, p) && !IsOp(op, x)
    ensures SameChain(op, e, Put(op, e, p, x))
  {
    if p == [] {
    } else if p[0] == L {
      PutKeepsChain(op, e.left, p[1..], x);
      SameChainRefl(op, e.right);
    } else {
      PutKeepsChain(op, e.right, p[1..], x);
      SameChainRefl(op, e.left);
    }
  }

  /** Different operands occupy different slots. */
  lemma {:induction false} AtPutOther(op: Op, e: Expr, p: Path, q: Path, x: Expr)
    requires Operand(op, e, p) && Operand(op, e, q) && p != q && !IsOp(op, x)
    ensures Operand(op, Put(op, e, p, x), q)
    ensures At(op, Put(op, e, p, x), q) == At(op, e, q)
  {
    assert p != [] && q != [];
    if p[0] == q[0] {
      assert p == [p[0]] + p[1..] && q == [q[0]] + q[1..];
      AtPutOther(op, Child(e, p[0]), p[1..], q[1..], x);
    }
  }

  // ----- values -----

  lemma ApplyLaws(op: Op, a: Tristate, b: Tristate, c: Tristate)
    ensures Apply(op, a, b) == Apply(op, b, a)
    ensures Apply(op, a, a) == a
    ensures Apply(op, a, Apply(op, b, c)) == Apply(op, Apply(op, a, b), c)
  {
  }

  /** An operand contributes to the chain once, wherever it stands. */
  lemma {:induction false} EvalPut(op: Op, e: Expr, p: Path, x: Expr, v: Valuation)
    requires ChainPath(op, e, p)
    ensures Eval(Put(op, e, p, x), v) == Apply(op, Eval(x, v), Eval(Put(op, e, p, Neutral(op)), v))
  {
    if p == [] {
      EvalNeutral(op, Eval(x, v), v);
    } else {
      var kid := Child(e, p[0]);
      EvalPut(op, kid, p[1..], x, v);
      var other := Eval(if p[0] == L then e.right else e.left, v);
      var rest := Eval(Put(op, kid, p[1..], Neutral(op)), v);
      ApplyLaws(op, Eval(x, v), rest, other);
      ApplyLaws(op, other, Apply(op, Eval(x, v), rest), NO);
      ApplyLaws(op, other, rest, NO);
    }
  }

  /** No chain is beyond any of its operands. */
  lemma EvalAbsorbs(op: Op, e: Expr, p: Path, v: Valuation)
    requires ChainPath(op, e, p)
    ensures Eval(e, v) == Apply(op, Eval(At(op, e, p), v), Eval(e, v))
  {
    AtPut(op, e, p, e);
    EvalPut(op, e, p, At(op, e, p), v);
    var rest := Eval(Put(op, e, p, Neutral(op)), v);
    ApplyLaws(op, Eval(At(op, e, p), v), Eval(At(op, e, p), v), rest);
  }

  /** Merging two operands into one slot and neutralising the other keeps the value. */
  lemma EvalMerge(op: Op, e: Expr, p: Path, q: Path, t: Expr, v: Valuation)
    requires Operand(op, e, p) && Operand(op, e, q) && p != q
    requires Eval(t, v) == Apply(op, Eval(At(op, e, p), v), Eval(At(op, e, q), v))
    ensures ChainPath(op, Put(op, e, p, Neutral(op)), q)
    ensures Eval(Put(op, Put(op, e, p, Neutral(op)), q, t), v) == Eval(e, v)
  {
    var a, b := At(op, e, p), At(op, e, q);
    var f := Put(op, e, p, Neutral(op));
    AtPut(op, e, p, a);
    EvalPut(op, e, p, a, v);
    AtPutOther(op, e, p, q, Neutral(op));
    AtPut(op, f, q, b);
    EvalPut(op, f, q, b, v);
    EvalPut(op, f, q, t, v);
    ApplyLaws(op, Eval(a, v), Eval(b, v), Eval(Put(op, f, q, Neutral(op)), v));
  }

  /** A more definite operand makes a more definite chain. */
  lemma {:induction false} RefinePut(op: Op, e: Expr, p: Path, x: Expr, v: Valuation)
    requires ChainPath(op, e, p) && Refines(Eval(At(op, e, p), v), Eval(x, v))
    ensures Refines(Eval(e, v), Eval(Put(op, e, p, x), v))
  {
    if p != [] {
      RefinePut(op, Child(e, p[0]), p[1..], x, v);
    }
  }

  lemma {:induction false} ExactPut(op: Op, e: Expr, p: Path, x: Expr, v: Valuation)
    requires ChainPath(op, e, p) && Eval(At(op, e, p), v) == Eval(x, v)
    ensures Eval(e, v) == Eval(Put(op, e, p, x), v)
  {
    if p != [] {
      ExactPut(op, Child(e, p[0]), p[1..], x, v);
    }
  }

  /** The step a longer path takes next. */
  lemma {:induction false} PrefixStep(op: Op, e: Expr, p: Path, p': Path)
    requires p <= p' && p != p' && ChainPath(op, e, p')
    ensures ChainPath(op, e, p) && IsOp(op, At(op, e, p))
    ensures ChainPath(op, e, p + [p'[|p|]]) && p + [p'[|p|]] <= p'
  {
    if p != [] {
      PrefixStep(op, Child(e, p[0]), p[1..], p'[1..]);
      assert (p + [p'[|p|]])[1..] == p[1..] + [p'[|p|]];
    }
  }

  function FirstOperand(op: Op, e: Expr): (p: Path)
    ensures Operand(op, e, p)
  {
    if IsOp(op, e) then [L] + FirstOperand(op, e.left) else []
  }

  /** A chain has at least two operands. */
  function OtherOperand(op: Op, e: Expr, p: Path): (q: Path)
    requires Operand(op, e, p) && p != []
    ensures Operand(op, e, q) && q != p
  {
    if p[0] == L then [R] + FirstOperand(op, e.right) else [L] + FirstOperand(op, e.left)
  }
}
