/** Removal of duplicate and contradictory operands
    (expr_eliminate_dups1, expr_eliminate_dups2, expr_eliminate_dups in expr.c). */
module Dups {
  import opened Exprs
  import opened Transforms
  import opened Equality
  import opened Joins
  import opened Slots

  /** The tree that holds the slots, and the number of rewrites counted in trans_count. */
  datatype Rewrite = Rewrite(e: Expr, count: nat)

  // ----- trans_count -----

  lemma {:induction false} HasYnAt(op: Op, e: Expr, p: Path)
    requires ChainPath(op, e, p)
    requires HasYn(At(op, e, p)) || (p != [] && IsYn(At(op, e, p)))
    ensures HasYn(e)
  {
    if p != [] && (p[1..] != [] || HasYn(At(op, e, p))) {
      HasYnAt(op, Child(e, p[0]), p[1..]);
    }
  }

  /** What a pass counts: nothing means the tree is untouched, anything leaves a constant to eliminate. */
  ghost predicate Counted(e: Expr, r: Rewrite) {
    if r.count == 0 then r.e == e else HasYn(r.e)
  }

  // ----- expr_eliminate_dups1 -----

  /** expr_eliminate_dups1(op, &slot p, &slot q), for two slots of the tree e */
  function Dups1(op: Op, e: Expr, p: Path, q: Path): (r: Rewrite)
    requires ChainPath(op, e, p) && ChainPath(op, e, q)
    ensures Size(r.e) <= Size(e) && SameChain(op, e, r.e) && Counted(e, r)
    decreases Size(e), ChainSize(op, At(op, e, p)) + ChainSize(op, At(op, e, q)), 2
  {
    SameChainRefl(op, e);
    if IsOp(op, At(op, e, p)) then
      AtChild(op, e, p, L); AtChild(op, e, p, R);
      var x := Dups1(op, e, p + [L], q);
      SameChainAt(op, e, x.e, p + [R]); SameChainAt(op, e, x.e, q);
      var y := Dups1(op, x.e, p + [R], q);
      SameChainTrans(op, e, x.e, y.e);
      Rewrite(y.e, x.count + y.count)
    else if IsOp(op, At(op, e, q)) then
      AtChild(op, e, q, L); AtChild(op, e, q, R);
      var x := Dups1(op, e, p, q + [L]);
      SameChainAt(op, e, x.e, q + [R]); SameChainAt(op, e, x.e, p);
      var y := Dups1(op, x.e, p, q + [R]);
      SameChainTrans(op, e, x.e, y.e);
      Rewrite(y.e, x.count + y.count)
    else if p == q then Rewrite(e, 0)
    else JoinAt(op, e, p, q)
  }

  /** The switches at the end of expr_eliminate_dups1 */
  function JoinAt(op: Op, e: Expr, p: Path, q: Path): (r: Rewrite)
    requires Operand(op, e, p) && Operand(op, e, q) && p != q
    ensures Size(r.e) <= Size(e) && SameChain(op, e, r.e) && Counted(e, r)
    decreases Size(e), 0, 1
  {
    var inner := DupsInside(op, e, p);
    SameChainAt(op, e, inner.e, p); SameChainAt(op, e, inner.e, q);
    match Join(op, At(op, inner.e, p), At(op, inner.e, q))
    case None => inner
    case Some(t) =>
      var r := Merge(op, inner.e, p, q, t);
      SameChainTrans(op, e, inner.e, r);
      Rewrite(r, inner.count + 1)
  }

  /** expr_eliminate_dups1(e1->type, &e1, &e1), for the operand e1 at p */
  function DupsInside(op: Op, e: Expr, p: Path): (r: Rewrite)
    requires Operand(op, e, p) && p != []
    ensures Size(r.e) <= Size(e) && SameChain(op, e, r.e) && Counted(e, r)
    decreases Size(e), 0, 0
  {
    var x := At(op, e, p);
    if x.Bin? then
      var inner := Dups1(x.op, x, [], []);
      PutKeepsChain(op, e, p, inner.e);
      AtPut(op, e, p, inner.e);
      assert inner.count > 0 ==> HasYn(Put(op, e, p, inner.e)) by {
        if inner.count > 0 {
          HasYnAt(op, Put(op, e, p, inner.e), p);
        }
      }
      Rewrite(Put(op, e, p, inner.e), inner.count)
    else
      SameChainRefl(op, e);
      Rewrite(e, 0)
  }

  /** e1 becomes neutral, e2 becomes t */
  function Merge(op: Op, e: Expr, p: Path, q: Path, t: Expr): (r: Expr)
    requires Operand(op, e, p) && Operand(op, e, q) && p != q
    requires !IsOp(op, t) && Size(t) <= Size(At(op, e, p))
    ensures Size(r) <= Size(e) && SameChain(op, e, r) && HasYn(r)
  {
    var f := Put(op, e, p, Neutral(op));
    PutKeepsChain(op, e, p, Neutral(op));
    AtPutOther(op, e, p, q, Neutral(op));
    PutKeepsChain(op, f, q, t);
    SameChainTrans(op, e, f, Put(op, f, q, t));
    AtPut(op, e, p, Neutral(op));
    SameChainAt(op, e, f, p); AtPutOther(op, f, q, p, t);
    HasYnAt(op, Put(op, f, q, t), p);
    Put(op, f, q, t)
  }

  /** Of two operands that are joined, the first slot becomes neutral and the second holds what they are joined to; all
      other operands stay where they are. */
  lemma MergeAt(op: Op, e: Expr, p: Path, q: Path, t: Expr)
    requires Operand(op, e, p) && Operand(op, e, q) && p != q
    requires !IsOp(op, t) && Size(t) <= Size(At(op, e, p))
    ensures var r := Merge(op, e, p, q, t);
            && Operand(op, r, p) && At(op, r, p) == Neutral(op) && Operand(op, r, q) && At(op, r, q) == t
            && forall o :: Operand(op, e, o) && o != p && o != q ==> Operand(op, r, o) && At(op, r, o) == At(op, e, o)
  {
    var f := Put(op, e, p, Neutral(op));
    AtPut(op, e, p, Neutral(op));
    AtPutOther(op, e, p, q, Neutral(op));
    AtPut(op, f, q, t);
    AtPutOther(op, f, q, p, t);
    forall o | Operand(op, e, o) && o != p && o != q
      ensures Operand(op, Merge(op, e, p, q, t), o) && At(op, Merge(op, e, p, q, t), o) == At(op, e, o)
    {
      AtPutOther(op, e, p, o, Neutral(op));
      AtPutOther(op, f, q, o, t);
    }
  }

  // ----- expr_eliminate_dups2 -----

  /** The operands of the negation of x all occur in y, so x && y, or x || y, is decided. */
  predicate Cancels(x: Expr, y: Expr)
    requires x.Bin?
  {
    var op := Dual(x.op);
    var r := ExtractEq(op, None, Transform(Not(x)), y);
    (if r.0.Some? then EliminateYn(r.1) else r.1) == Neutral(op)
  }

  /** expr_eliminate_dups2(op, &slot p, &slot q). There is no return after the second descent,
      so an operand is also held against every whole sub-chain, even one it is part of. */
  function Dups2(op: Op, e: Expr, p: Path, q: Path): (r: Rewrite)
    requires ChainPath(op, e, p) && ChainPath(op, e, q)
    ensures Size(r.e) <= Size(e) && SameChain(op, e, r.e) && Counted(e, r)
    decreases Size(e), ChainSize(op, At(op, e, p)) + ChainSize(op, At(op, e, q)), 2
  {
    SameChainRefl(op, e);
    if IsOp(op, At(op, e, p)) then
      AtChild(op, e, p, L); AtChild(op, e, p, R);
      var x := Dups2(op, e, p + [L], q);
      SameChainAt(op, e, x.e, p + [R]); SameChainAt(op, e, x.e, q);
      var y := Dups2(op, x.e, p + [R], q);
      SameChainTrans(op, e, x.e, y.e);
      Rewrite(y.e, x.count + y.count)
    else
      var x := Dups2Second(op, e, p, q);
      SameChainAt(op, e, x.e, p); SameChainAt(op, e, x.e, q);
      if p == q then x
      else
        var y := CancelAt(op, x.e, p, q);
        SameChainTrans(op, e, x.e, y.e);
        Rewrite(y.e, x.count + y.count)
  }

  /** The descent into the second slot */
  function Dups2Second(op: Op, e: Expr, p: Path, q: Path): (r: Rewrite)
    requires Operand(op, e, p) && ChainPath(op, e, q)
    ensures Size(r.e) <= Size(e) && SameChain(op, e, r.e) && Counted(e, r)
    decreases Size(e), ChainSize(op, At(op, e, p)) + ChainSize(op, At(op, e, q)), 1
  {
    SameChainRefl(op, e);
    if IsOp(op, At(op, e, q)) then
      AtChild(op, e, q, L); AtChild(op, e, q, R);
      var x := Dups2(op, e, p, q + [L]);
      SameChainAt(op, e, x.e, q + [R]); SameChainAt(op, e, x.e, p);
      var y := Dups2(op, x.e, p, q + [R]);
      SameChainTrans(op, e, x.e, y.e);
      Rewrite(y.e, x.count + y.count)
    else Rewrite(e, 0)
  }

  /** The switch at the end of expr_eliminate_dups2 */
  function CancelAt(op: Op, e: Expr, p: Path, q: Path): (r: Rewrite)
    requires Operand(op, e, p) && ChainPath(op, e, q) && p != q
    ensures Size(r.e) <= Size(e) && SameChain(op, e, r.e) && Counted(e, r)
    decreases Size(e), 0, 0
  {
    SameChainRefl(op, e);
    var x := At(op, e, p);
    if x.Bin? then
      assert p != [];
      var inner := Dups2(x.op, x, [], []);
      var f := Put(op, e, p, inner.e);
      AtPut(op, e, p, inner.e);
      PutKeepsChain(op, e, p, inner.e);
      SameChainAt(op, e, f, q);
      if Cancels(inner.e, At(op, f, q)) then
        PutKeepsChain(op, f, p, Neutral(x.op));
        SameChainTrans(op, e, f, Put(op, f, p, Neutral(x.op)));
        AtPut(op, f, p, Neutral(x.op));
        HasYnAt(op, Put(op, f, p, Neutral(x.op)), p);
        Rewrite(Put(op, f, p, Neutral(x.op)), inner.count + 1)
      else
        assert inner.count > 0 ==> HasYn(f) by {
          if inner.count > 0 {
            HasYnAt(op, f, p);
          }
        }
        Rewrite(f, inner.count)
    else Rewrite(e, 0)
  }

  // ----- values -----

  /** expr_eliminate_dups1 changes no value, in all three values. */
  lemma {:induction false} Dups1Exact(op: Op, e: Expr, p: Path, q: Path, v: Valuation)
    requires Typed(v) && ChainPath(op, e, p) && ChainPath(op, e, q)
    ensures Eval(Dups1(op, e, p, q).e, v) == Eval(e, v)
    decreases Size(e), ChainSize(op, At(op, e, p)) + ChainSize(op, At(op, e, q)), 2
  {
    if IsOp(op, At(op, e, p)) {
      AtChild(op, e, p, L); AtChild(op, e, p, R);
      var x := Dups1(op, e, p + [L], q);
      SameChainAt(op, e, x.e, p + [R]); SameChainAt(op, e, x.e, q);
      Dups1Exact(op, e, p + [L], q, v);
      Dups1Exact(op, x.e, p + [R], q, v);
    } else if IsOp(op, At(op, e, q)) {
      AtChild(op, e, q, L); AtChild(op, e, q, R);
      var x := Dups1(op, e, p, q + [L]);
      SameChainAt(op, e, x.e, q + [R]); SameChainAt(op, e, x.e, p);
      Dups1Exact(op, e, p, q + [L], v);
      Dups1Exact(op, x.e, p, q + [R], v);
    } else if p != q {
      JoinAtExact(op, e, p, q, v);
    }
  }

  lemma {:induction false} JoinAtExact(op: Op, e: Expr, p: Path, q: Path, v: Valuation)
    requires Typed(v) && Operand(op, e, p) && Operand(op, e, q) && p != q
    ensures Eval(JoinAt(op, e, p, q).e, v) == Eval(e, v)
    decreases Size(e), 0, 1
  {
    var inner := DupsInside(op, e, p);
    SameChainAt(op, e, inner.e, p); SameChainAt(op, e, inner.e, q);
    DupsInsideExact(op, e, p, v);
    var a, b := At(op, inner.e, p), At(op, inner.e, q);
    if Join(op, a, b).Some? {
      JoinExact(op, a, b, v);
      EvalMerge(op, inner.e, p, q, Join(op, a, b).value, v);
    }
  }

  lemma {:induction false} DupsInsideExact(op: Op, e: Expr, p: Path, v: Valuation)
    requires Typed(v) && Operand(op, e, p) && p != []
    ensures Eval(DupsInside(op, e, p).e, v) == Eval(e, v)
    decreases Size(e), 0, 0
  {
    var x := At(op, e, p);
    if x.Bin? {
      Dups1Exact(x.op, x, [], [], v);
      ExactPut(op, e, p, Dups1(x.op, x, [], []).e, v);
    }
  }

  /** If x cancels against y, then x && y (x || y, for an && x) is either m or already decided. */
  lemma CancelsDecides(x: Expr, y: Expr, v: Valuation)
    requires Typed(v) && x.Bin? && Cancels(x, y)
    ensures Refines(Apply(Dual(x.op), Eval(x, v), Eval(y, v)), Eval(Neutral(x.op), v))
  {
    var op := Dual(x.op);
    var not := Transform(Not(x));
    var r := ExtractEq(op, None, not, y);
    TransformExact(Not(x), v);
    ExtractEqExact(op, None, not, y, v);
    EliminateYnExact(r.1, v);
    EvalYn(v);
    assert Eval(r.1, v) == Eval(Neutral(op), v);
    EvalNeutral(op, Eval(not, v), v);
    EvalNeutral(op, Eval(y, v), v);
    EvalNeutral(op, EvalCommon(op, r.0, v), v);
    assert Eval(not, v) == EvalCommon(op, r.0, v);
    assert Eval(y, v) == Apply(op, Eval(r.2, v), Eval(not, v));
  }

  /** expr_eliminate_dups2 never changes n or y; only an m may move. */
  lemma {:induction false} Dups2Refines(op: Op, e: Expr, p: Path, q: Path, v: Valuation)
    requires Typed(v) && ChainPath(op, e, p) && ChainPath(op, e, q)
    ensures Refines(Eval(e, v), Eval(Dups2(op, e, p, q).e, v))
    decreases Size(e), ChainSize(op, At(op, e, p)) + ChainSize(op, At(op, e, q)), 2
  {
    if IsOp(op, At(op, e, p)) {
      AtChild(op, e, p, L); AtChild(op, e, p, R);
      var x := Dups2(op, e, p + [L], q);
      SameChainAt(op, e, x.e, p + [R]); SameChainAt(op, e, x.e, q);
      Dups2Refines(op, e, p + [L], q, v);
      Dups2Refines(op, x.e, p + [R], q, v);
    } else {
      var x := Dups2Second(op, e, p, q);
      SameChainAt(op, e, x.e, p); SameChainAt(op, e, x.e, q);
      Dups2SecondRefines(op, e, p, q, v);
      if p != q {
        CancelAtRefines(op, x.e, p, q, v);
      }
    }
  }

  lemma {:induction false} Dups2SecondRefines(op: Op, e: Expr, p: Path, q: Path, v: Valuation)
    requires Typed(v) && Operand(op, e, p) && ChainPath(op, e, q)
    ensures Refines(Eval(e, v), Eval(Dups2Second(op, e, p, q).e, v))
    decreases Size(e), ChainSize(op, At(op, e, p)) + ChainSize(op, At(op, e, q)), 1
  {
    if IsOp(op, At(op, e, q)) {
      AtChild(op, e, q, L); AtChild(op, e, q, R);
      var x := Dups2(op, e, p, q + [L]);
      SameChainAt(op, e, x.e, q + [R]); SameChainAt(op, e, x.e, p);
      Dups2Refines(op, e, p, q + [L], v);
      Dups2Refines(op, x.e, p, q + [R], v);
    }
  }

  lemma {:induction false} CancelAtRefines(op: Op, e: Expr, p: Path, q: Path, v: Valuation)
    requires Typed(v) && Operand(op, e, p) && ChainPath(op, e, q) && p != q
    ensures Refines(Eval(e, v), Eval(CancelAt(op, e, p, q).e, v))
    decreases Size(e), 0, 0
  {
    var x := At(op, e, p);
    if x.Bin? {
      var inner := Dups2(x.op, x, [], []);
      var f := Put(op, e, p, inner.e);
      Dups2Refines(x.op, x, [], [], v);
      RefinePut(op, e, p, inner.e, v);
      AtPut(op, e, p, inner.e);
      PutKeepsChain(op, e, p, inner.e);
      SameChainAt(op, e, f, q);
      if Cancels(inner.e, At(op, f, q)) {
        CancelRefines(op, f, p, q, v);
      }
    }
  }

  lemma CancelRefines(op: Op, e: Expr, p: Path, q: Path, v: Valuation)
    requires Typed(v) && Operand(op, e, p) && ChainPath(op, e, q)
    requires At(op, e, p).Bin? && Cancels(At(op, e, p), At(op, e, q))
    ensures Refines(Eval(e, v), Eval(Put(op, e, p, Absorbing(op)), v))
  {
    var x, y := At(op, e, p), At(op, e, q);
    CancelsDecides(x, y, v);
    EvalAbsorbs(op, e, p, v);
    EvalAbsorbs(op, e, q, v);
    ApplyLaws(op, Eval(x, v), Eval(y, v), Eval(e, v));
    EvalPut(op, e, p, Absorbing(op), v);
    EvalNeutral(op, Eval(Put(op, e, p, Neutral(op)), v), v);
    EvalYn(v);
  }

  // ----- expr_eliminate_dups -----

  /** One round of the loop before constants are eliminated. */
  function Round(e: Expr): (r: Rewrite)
    ensures Size(r.e) <= Size(e) && Counted(e, r)
  {
    if e.Bin? then
      var x := Dups1(e.op, e, [], []);
      var y := Dups2(x.e.op, x.e, [], []);
      Rewrite(y.e, x.count + y.count)
    else Rewrite(e, 0)
  }

  function EliminateDups(e: Expr): Expr
    decreases Size(e)
  {
    var r := Round(e);
    if r.count == 0 then r.e
    else
      EliminateYnComplete(r.e);
      EliminateDups(EliminateYn(r.e))
  }

  /** expr_eliminate_dups never changes a value of n or y, under any three-valued valuation. */
  lemma {:induction false} EliminateDupsRefines(e: Expr, v: Valuation)
    requires Typed(v)
    ensures Refines(Eval(e, v), Eval(EliminateDups(e), v))
    decreases Size(e)
  {
    var r := Round(e);
    if e.Bin? {
      var x := Dups1(e.op, e, [], []);
      Dups1Exact(e.op, e, [], [], v);
      Dups2Refines(x.e.op, x.e, [], [], v);
    }
    if r.count > 0 {
      EliminateYnComplete(r.e);
      EliminateYnExact(r.e, v);
      EliminateDupsRefines(EliminateYn(r.e), v);
    }
  }

  /** So it is exact when every symbol is n or y and the constant m does not occur. */
  lemma EliminateDupsExactOnTwoValued(e: Expr, v: Valuation)
    requires Typed(v) && TwoValued(v) && !HasMod(e)
    ensures Eval(EliminateDups(e), v) == Eval(e, v)
  {
    EliminateDupsRefines(e, v);
    TwoValuedEval(e, v);
  }

  /** The constant m is an operand somewhere. */
  predicate HasMod(e: Expr) {
    match e
    case Sym(s) => s == SYM_M
    case Not(a) => HasMod(a)
    case Bin(_, l, r) => HasMod(l) || HasMod(r)
    case Cmp(_, _, _) => false
  }

  lemma {:induction false} TwoValuedEval(e: Expr, v: Valuation)
    requires TwoValued(v) && !HasMod(e)
    ensures Eval(e, v) != MOD
  {
    match e
    case Sym(_) =>
    case Cmp(_, _, _) =>
    case Not(a) => TwoValuedEval(a, v);
    case Bin(_, l, r) =>
      TwoValuedEval(l, v);
      TwoValuedEval(r, v);
  }

  // ----- nothing is left to remove -----

  /** No operand of the chain can be joined with another or cancels against a part of the chain. */
  ghost predicate Settled(op: Op, e: Expr) {
    && (forall p, q :: Operand(op, e, p) && Operand(op, e, q) && p != q ==>
          Join(op, At(op, e, p), At(op, e, q)).None?)
    && (forall p, q :: Operand(op, e, p) && ChainPath(op, e, q) && p != q && At(op, e, p).Bin? ==>
          !Cancels(At(op, e, p), At(op, e, q)))
  }

  /** ... nor in any chain nested in it as an operand, an operand of an operand, and so on. */
  ghost predicate Irreducible(e: Expr)
    decreases Size(e)
  {
    e.Bin? ==>
      && Settled(e.op, e)
      && forall p :: Operand(e.op, e, p) ==> Irreducible(At(e.op, e, p))
  }

  lemma Dups1QuietFirst(op: Op, e: Expr, p: Path, q: Path, d: Dir)
    requires ChainPath(op, e, p) && ChainPath(op, e, q) && IsOp(op, At(op, e, p))
    requires Dups1(op, e, p, q).count == 0
    ensures ChainPath(op, e, p + [d]) && Dups1(op, e, p + [d], q).count == 0
  {
    AtChild(op, e, p, L);
    AtChild(op, e, p, R);
    assert Dups1(op, e, p + [L], q) == Rewrite(e, 0);
  }

  lemma Dups1QuietSecond(op: Op, e: Expr, p: Path, q: Path, d: Dir)
    requires Operand(op, e, p) && ChainPath(op, e, q) && IsOp(op, At(op, e, q))
    requires Dups1(op, e, p, q).count == 0
    ensures ChainPath(op, e, q + [d]) && Dups1(op, e, p, q + [d]).count == 0
  {
    AtChild(op, e, q, L);
    AtChild(op, e, q, R);
    assert Dups1(op, e, p, q + [L]) == Rewrite(e, 0);
  }

  lemma JoinAtQuiet(op: Op, e: Expr, p: Path, q: Path)
    requires Operand(op, e, p) && Operand(op, e, q) && p != q && JoinAt(op, e, p, q).count == 0
    ensures Join(op, At(op, e, p), At(op, e, q)).None?
    ensures var x := At(op, e, p); x.Bin? ==> Dups1(x.op, x, [], []).count == 0
  {
    assert DupsInside(op, e, p) == Rewrite(e, 0);
  }

  /** A pass that counts nothing has tried every pair of operands, and every operand on its own. */
  lemma {:induction false} Dups1TriesAll(op: Op, e: Expr, p: Path, q: Path, p': Path, q': Path)
    requires ChainPath(op, e, p) && ChainPath(op, e, q) && p <= p' && q <= q'
    requires Operand(op, e, p') && Operand(op, e, q') && p' != q'
    requires Dups1(op, e, p, q).count == 0
    ensures Join(op, At(op, e, p'), At(op, e, q')).None?
    ensures var x := At(op, e, p'); x.Bin? ==> Dups1(x.op, x, [], []).count == 0
    decreases |p'| - |p| + |q'| - |q|
  {
    if p != p' {
      PrefixStep(op, e, p, p');
      Dups1QuietFirst(op, e, p, q, p'[|p|]);
      Dups1TriesAll(op, e, p + [p'[|p|]], q, p', q');
    } else if q != q' {
      PrefixStep(op, e, q, q');
      Dups1QuietSecond(op, e, p, q, q'[|q|]);
      Dups1TriesAll(op, e, p, q + [q'[|q|]], p', q');
    } else {
      JoinAtQuiet(op, e, p, q);
    }
  }

  lemma Dups2QuietFirst(op: Op, e: Expr, p: Path, q: Path, d: Dir)
    requires ChainPath(op, e, p) && ChainPath(op, e, q) && IsOp(op, At(op, e, p))
    requires Dups2(op, e, p, q).count == 0
    ensures ChainPath(op, e, p + [d]) && Dups2(op, e, p + [d], q).count == 0
  {
    AtChild(op, e, p, L);
    AtChild(op, e, p, R);
    assert Dups2(op, e, p + [L], q) == Rewrite(e, 0);
  }

  lemma Dups2QuietSecond(op: Op, e: Expr, p: Path, q: Path, d: Dir)
    requires Operand(op, e, p) && ChainPath(op, e, q) && IsOp(op, At(op, e, q))
    requires Dups2(op, e, p, q).count == 0
    ensures ChainPath(op, e, q + [d]) && Dups2(op, e, p, q + [d]).count == 0
  {
    AtChild(op, e, q, L);
    AtChild(op, e, q, R);
    assert Dups2Second(op, e, p, q) == Rewrite(e, 0);
    assert Dups2(op, e, p, q + [L]) == Rewrite(e, 0);
  }

  lemma Dups2QuietHere(op: Op, e: Expr, p: Path, q: Path)
    requires Operand(op, e, p) && ChainPath(op, e, q) && p != q && At(op, e, p).Bin?
    requires Dups2(op, e, p, q).count == 0
    ensures !Cancels(At(op, e, p), At(op, e, q))
    ensures var x := At(op, e, p); Dups2(x.op, x, [], []).count == 0
  {
    assert Dups2Second(op, e, p, q) == Rewrite(e, 0);
    assert CancelAt(op, e, p, q).count == 0;
    AtPut(op, e, p, e);
  }

  lemma {:induction false} Dups2TriesAll(op: Op, e: Expr, p: Path, q: Path, p': Path, q': Path)
    requires ChainPath(op, e, p) && ChainPath(op, e, q) && p <= p' && q <= q'
    requires Operand(op, e, p') && ChainPath(op, e, q') && p' != q' && At(op, e, p').Bin?
    requires Dups2(op, e, p, q).count == 0
    ensures !Cancels(At(op, e, p'), At(op, e, q'))
    ensures var x := At(op, e, p'); Dups2(x.op, x, [], []).count == 0
    decreases |p'| - |p| + |q'| - |q|
  {
    if p != p' {
      PrefixStep(op, e, p, p');
      Dups2QuietFirst(op, e, p, q, p'[|p|]);
      Dups2TriesAll(op, e, p + [p'[|p|]], q, p', q');
    } else if q != q' {
      PrefixStep(op, e, q, q');
      Dups2QuietSecond(op, e, p, q, q'[|q|]);
      Dups2TriesAll(op, e, p, q + [q'[|q|]], p', q');
    } else {
      Dups2QuietHere(op, e, p, q);
    }
  }

  lemma {:induction false} QuietMeansIrreducible(e: Expr)
    requires Round(e).count == 0
    ensures Irreducible(e)
    decreases Size(e)
  {
    if e.Bin? {
      forall p, q | Operand(e.op, e, p) && Operand(e.op, e, q) && p != q
        ensures Join(e.op, At(e.op, e, p), At(e.op, e, q)).None?
      {
        Dups1TriesAll(e.op, e, [], [], p, q);
      }
      forall p, q | Operand(e.op, e, p) && ChainPath(e.op, e, q) && p != q && At(e.op, e, p).Bin?
        ensures !Cancels(At(e.op, e, p), At(e.op, e, q))
      {
        Dups2TriesAll(e.op, e, [], [], p, q);
      }
      forall p | Operand(e.op, e, p)
        ensures Irreducible(At(e.op, e, p))
      {
        var x := At(e.op, e, p);
        if x.Bin? {
          var q := OtherOperand(e.op, e, p);
          Dups1TriesAll(e.op, e, [], [], p, q);
          Dups2TriesAll(e.op, e, [], [], p, q);
        }
        QuietMeansIrreducible(x);
      }
    }
  }

  /** What expr_eliminate_dups returns has nothing left that one of its rewrites could remove. */
  lemma {:induction false} EliminateDupsComplete(e: Expr)
    ensures Irreducible(EliminateDups(e))
    decreases Size(e)
  {
    var r := Round(e);
    if r.count == 0 {
      QuietMeansIrreducible(e);
    } else {
      EliminateYnComplete(r.e);
      EliminateDupsComplete(EliminateYn(r.e));
    }
  }

  /** Each pass leaves a chain alone whose operands it leaves alone and cannot join or cancel. */
  lemma {:induction false} Dups1Leaves(op: Op, e: Expr, p: Path, q: Path)
    requires ChainPath(op, e, p) && ChainPath(op, e, q)
    requires IsOp(op, e) && Settled(op, e)
    requires forall p' :: Operand(op, e, p') && At(op, e, p').Bin? ==>
               var x := At(op, e, p'); Dups1(x.op, x, [], []) == Rewrite(x, 0)
    ensures Dups1(op, e, p, q) == Rewrite(e, 0)
    decreases ChainSize(op, At(op, e, p)) + ChainSize(op, At(op, e, q))
  {
    if IsOp(op, At(op, e, p)) {
      AtChild(op, e, p, L);
      AtChild(op, e, p, R);
      Dups1Leaves(op, e, p + [L], q);
      Dups1Leaves(op, e, p + [R], q);
    } else if IsOp(op, At(op, e, q)) {
      AtChild(op, e, q, L);
      AtChild(op, e, q, R);
      Dups1Leaves(op, e, p, q + [L]);
      Dups1Leaves(op, e, p, q + [R]);
    } else if p != q {
      AtPut(op, e, p, e);
      assert DupsInside(op, e, p) == Rewrite(e, 0);
    }
  }

  lemma {:induction false} Dups2Leaves(op: Op, e: Expr, p: Path, q: Path)
    requires ChainPath(op, e, p) && ChainPath(op, e, q)
    requires IsOp(op, e) && Settled(op, e)
    requires forall p' :: Operand(op, e, p') && At(op, e, p').Bin? ==>
               var x := At(op, e, p'); Dups2(x.op, x, [], []) == Rewrite(x, 0)
    ensures Dups2(op, e, p, q) == Rewrite(e, 0)
    decreases ChainSize(op, At(op, e, p)) + ChainSize(op, At(op, e, q))
  {
    if IsOp(op, At(op, e, p)) {
      AtChild(op, e, p, L);
      AtChild(op, e, p, R);
      Dups2Leaves(op, e, p + [L], q);
      Dups2Leaves(op, e, p + [R], q);
    } else {
      if IsOp(op, At(op, e, q)) {
        AtChild(op, e, q, L);
        AtChild(op, e, q, R);
        Dups2Leaves(op, e, p, q + [L]);
        Dups2Leaves(op, e, p, q + [R]);
      }
      assert Dups2Second(op, e, p, q) == Rewrite(e, 0);
      if p != q {
        AtPut(op, e, p, e);
        assert CancelAt(op, e, p, q) == Rewrite(e, 0);
      }
    }
  }

  lemma {:induction false} IrreducibleLeft(e: Expr)
    requires e.Bin? && Irreducible(e)
    ensures Dups1(e.op, e, [], []) == Rewrite(e, 0) == Dups2(e.op, e, [], [])
    decreases Size(e)
  {
    forall p | Operand(e.op, e, p) && At(e.op, e, p).Bin?
      ensures var x := At(e.op, e, p); Dups1(x.op, x, [], []) == Rewrite(x, 0) == Dups2(x.op, x, [], [])
    {
      IrreducibleLeft(At(e.op, e, p));
    }
    Dups1Leaves(e.op, e, [], []);
    Dups2Leaves(e.op, e, [], []);
  }

  /** The expressions expr_eliminate_dups leaves alone are exactly those in which nothing can be joined or cancelled. */
  lemma EliminateDupsFixpoints(e: Expr)
    ensures EliminateDups(e) == e <==> Irreducible(e)
  {
    EliminateDupsComplete(e);
    if Irreducible(e) && e.Bin? {
      IrreducibleLeft(e);
    }
  }

  // ----- where m does move -----

  /** (A || n) && !A */
  function Contradiction(a: Symbol): Expr {
    Bin(AndOp, Bin(OrOp, Sym(a), Sym(SYM_N)), Not(Sym(a)))
  }

  lemma ContradictionCancels(a: Symbol)
    requires a.Config?
    ensures Cancels(Contradiction(a).left, Contradiction(a).right)
  {
    var x, y := Contradiction(a).left, Contradiction(a).right;
    EvalYn(map[]);
    assert Transform(Not(Sym(a))) == Not(Sym(a)) && Transform(Not(Sym(SYM_N))) == Sym(SYM_Y);
    assert Transform(x) == x;
    assert Transform(Not(x)) == Bin(AndOp, y, Sym(SYM_Y));
    assert ExprEq(Sym(a), Sym(a)) && ExprEq(Sym(SYM_Y), Sym(SYM_Y));
    assert ExtractEq(AndOp, None, y, y) == (Some(y), Sym(SYM_Y), Sym(SYM_Y));
  }

  lemma TwoSlots(op: Op, a: Expr, b: Expr)
    requires !IsOp(op, a) && !IsOp(op, b)
    ensures var e := Bin(op, a, b);
            && Operand(op, e, [L]) && At(op, e, [L]) == a && (forall x :: Put(op, e, [L], x) == Bin(op, x, b))
            && Operand(op, e, [R]) && At(op, e, [R]) == b
            && (forall p :: Operand(op, e, p) ==> p == [L] || p == [R])
  {
    var e := Bin(op, a, b);
    assert [L][1..] == [] == [R][1..] && [L][0] == L && [R][0] == R;
    assert ChainPath(op, Child(e, L), []) && ChainPath(op, Child(e, R), []);
    forall p | Operand(op, e, p) ensures p == [L] || p == [R] {
      assert IsOp(op, e) && p != [] && ChainPath(op, Child(e, p[0]), p[1..]);
      assert p[1..] == [] && p == [p[0]] + p[1..];
    }
  }

  lemma {:induction false} Dups1Idle(op: Op, e: Expr, p: Path, q: Path)
    requires ChainPath(op, e, p) && ChainPath(op, e, q)
    requires forall p', q' :: Operand(op, e, p') && Operand(op, e, q') && p' != q' ==>
               JoinAt(op, e, p', q') == Rewrite(e, 0)
    ensures Dups1(op, e, p, q) == Rewrite(e, 0)
    decreases ChainSize(op, At(op, e, p)) + ChainSize(op, At(op, e, q))
  {
    if IsOp(op, At(op, e, p)) {
      AtChild(op, e, p, L);
      AtChild(op, e, p, R);
      Dups1Idle(op, e, p + [L], q);
      Dups1Idle(op, e, p + [R], q);
    } else if IsOp(op, At(op, e, q)) {
      AtChild(op, e, q, L);
      AtChild(op, e, q, R);
      Dups1Idle(op, e, p, q + [L]);
      Dups1Idle(op, e, p, q + [R]);
    }
  }

  lemma {:induction false} Dups2Idle(op: Op, e: Expr, p: Path, q: Path)
    requires ChainPath(op, e, p) && ChainPath(op, e, q)
    requires forall p' :: Operand(op, e, p') ==> !At(op, e, p').Bin?
    ensures Dups2(op, e, p, q) == Rewrite(e, 0)
    decreases ChainSize(op, At(op, e, p)) + ChainSize(op, At(op, e, q))
  {
    if IsOp(op, At(op, e, p)) {
      AtChild(op, e, p, L);
      AtChild(op, e, p, R);
      Dups2Idle(op, e, p + [L], q);
      Dups2Idle(op, e, p + [R], q);
    } else {
      if IsOp(op, At(op, e, q)) {
        AtChild(op, e, q, L);
        AtChild(op, e, q, R);
        Dups2Idle(op, e, p, q + [L]);
        Dups2Idle(op, e, p, q + [R]);
      }
      assert Dups2Second(op, e, p, q) == Rewrite(e, 0);
    }
  }

  /** Two operands that neither join nor simplify inside survive the first pass. */
  lemma Dups1OnTwo(op: Op, a: Expr, b: Expr)
    requires !IsOp(op, a) && !IsOp(op, b) && Join(op, a, b).None? && Join(op, b, a).None?
    requires a.Bin? ==> Dups1(a.op, a, [], []).count == 0
    requires b.Bin? ==> Dups1(b.op, b, [], []).count == 0
    ensures Dups1(op, Bin(op, a, b), [], []) == Rewrite(Bin(op, a, b), 0)
  {
    var e := Bin(op, a, b);
    TwoSlots(op, a, b);
    forall p', q' | Operand(op, e, p') && Operand(op, e, q') && p' != q'
      ensures JoinAt(op, e, p', q') == Rewrite(e, 0)
    {
      AtPut(op, e, p', a);
      assert DupsInside(op, e, p') == Rewrite(e, 0);
    }
    Dups1Idle(op, e, [], []);
  }

  /** When the first operand cancels against the second, the second pass rewrites just that. */
  lemma Dups2OnTwo(op: Op, a: Expr, b: Expr)
    requires !IsOp(op, a) && a.Bin? && !b.Bin? && Dups2(a.op, a, [], []).count == 0 && Cancels(a, b)
    ensures Dups2(op, Bin(op, a, b), [], []) == Rewrite(Bin(op, Neutral(a.op), b), 1)
  {
    var e, f := Bin(op, a, b), Bin(op, Neutral(a.op), b);
    TwoSlots(op, a, b);
    TwoSlots(op, Neutral(a.op), b);
    assert [] + [L] == [L] && [] + [R] == [R];
    assert Dups2Second(op, e, [L], [L]) == Rewrite(e, 0) == Dups2Second(op, e, [L], [R]);
    assert CancelAt(op, e, [L], [R]) == Rewrite(f, 1);
    assert Dups2(op, e, [L], [R]) == Rewrite(f, 1);
    Dups2Idle(op, f, [L], [R]);
    Dups2Idle(op, f, [R], []);
    assert Dups2Second(op, e, [L], []) == Rewrite(f, 1);
    assert CancelAt(op, f, [L], []) == Rewrite(f, 0);
    assert Dups2(op, e, [L], []) == Rewrite(f, 1);
  }

  lemma ContradictionRound(a: Symbol)
    requires a.Config?
    ensures Round(Contradiction(a)) == Rewrite(Bin(AndOp, Sym(SYM_N), Not(Sym(a))), 1)
  {
    var x, y := Contradiction(a).left, Contradiction(a).right;
    assert !ExprEq(x, y) && !ExprEq(y, x);
    Dups1OnTwo(OrOp, Sym(a), Sym(SYM_N));
    TwoSlots(OrOp, Sym(a), Sym(SYM_N));
    Dups2Idle(OrOp, x, [], []);
    ContradictionCancels(a);
    Dups1OnTwo(AndOp, x, y);
    Dups2OnTwo(AndOp, x, y);
  }

  /** The contradiction becomes n, even when A is m and the contradiction is m. */
  lemma ContradictionBecomesNo(a: nat)
    ensures var s := Config(a, STristate);
            var v := map[s := Value(MOD, "")];
            Typed(v) && Eval(Contradiction(s), v) == MOD && EliminateDups(Contradiction(s)) == Sym(SYM_N)
  {
    var s := Config(a, STristate);
    var v := map[s := Value(MOD, "")];
    EvalYn(v);
    ContradictionRound(s);
    assert Eval(Sym(s), v) == MOD;
    assert EliminateYn(Bin(AndOp, Sym(SYM_N), Not(Sym(s)))) == Sym(SYM_N);
    assert EliminateDups(Sym(SYM_N)) == Sym(SYM_N);
  }
}
