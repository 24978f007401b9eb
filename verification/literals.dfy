/** What the rewrites do with conjunctions and disjunctions of literals: which operands are taken out, which chains
    cancel, and which entries are adopted by elimination. */
module LiteralChains {
  import opened Exprs
  import opened Transforms
  import opened Equality
  import opened EqualityStrength
  import opened Slots
  import opened Joins
  import opened Dups
  import opened Adoption

  // ----- expr_extract_eq -----

  /** The operands other than the neutral constant */
  function Weighty(op: Op, e: Expr): multiset<Expr> {
    if IsOp(op, e) then Weighty(op, e.left) + Weighty(op, e.right)
    else if e == Neutral(op) then multiset{}
    else multiset{e}
  }

  function WeightyOpt(op: Op, e: Option<Expr>): multiset<Expr> {
    if e.Some? then Weighty(op, e.value) else multiset{}
  }

  lemma IntersectTwice(l: multiset<Expr>, r: multiset<Expr>, b: multiset<Expr>)
    ensures l * b + r * (b - l) == (l + r) * b
  {
  }

  lemma SelfCommon(a: multiset<Expr>, c: multiset<Expr>)
    ensures a - a == multiset{} && a * a == a && c + multiset{} == c && multiset{} + a == a
  {
  }

  lemma NoneCommon(x: multiset<Expr>, y: multiset<Expr>, c: multiset<Expr>)
    requires x * y == multiset{}
    ensures x - y == x && y - x == y && c + x * y == c
  {
    forall e ensures (x - y)[e] == x[e] && (y - x)[e] == y[e] {
      assert (x * y)[e] == 0;
    }
  }

  lemma DifferentLeaves(op: Op, a: Expr, b: Expr)
    requires !IsOp(op, a) && !IsOp(op, b) && a != b
    ensures Weighty(op, a) * Weighty(op, b) == multiset{}
  {
  }

  /** What is left of the two sides is what they do not have in common; common' is common and what they have. */
  ghost predicate Extracted(op: Op, a: Expr, b: Expr, r1: Expr, r2: Expr) {
    && LiteralChain(op, r1) && LiteralChain(op, r2)
    && Weighty(op, r1) == Weighty(op, a) - Weighty(op, b) && Weighty(op, r2) == Weighty(op, b) - Weighty(op, a)
  }

  lemma ExtractLeaf(op: Op, common: Option<Expr>, a: Expr, b: Expr)
    requires !IsOp(op, a) && !IsOp(op, b) && Literal(a) && Literal(b)
    ensures var r := ExtractEq(op, common, a, b);
            && Extracted(op, a, b, r.1, r.2)
            && WeightyOpt(op, r.0) == WeightyOpt(op, common) + Weighty(op, a) * Weighty(op, b)
  {
    LiteralEq(a, b);
    if a == b {
      SelfCommon(Weighty(op, a), WeightyOpt(op, common));
    } else {
      DifferentLeaves(op, a, b);
      NoneCommon(Weighty(op, a), Weighty(op, b), WeightyOpt(op, common));
    }
  }

  lemma ExtractedTwice(al: multiset<Expr>, ar: multiset<Expr>, b: multiset<Expr>, c: multiset<Expr>)
    ensures (al - b) + (ar - (b - al)) == (al + ar) - b && (b - al) - ar == b - (al + ar)
    ensures (c + al * b) + ar * (b - al) == c + (al + ar) * b
    ensures (c + b * al) + (b - al) * ar == c + b * (al + ar)
  {
    SubtractTwice(al, ar, b);
    IntersectTwice(al, ar, b);
    assert al * b == b * al && (b - al) * ar == ar * (b - al) && b * (al + ar) == (al + ar) * b;
  }

  /** Extraction takes out of both sides exactly the operands they have in common. */
  lemma {:induction false} ExtractSubtracts(op: Op, common: Option<Expr>, a: Expr, b: Expr)
    requires LiteralChain(op, a) && LiteralChain(op, b)
    ensures var r := ExtractEq(op, common, a, b);
            && Extracted(op, a, b, r.1, r.2)
            && WeightyOpt(op, r.0) == WeightyOpt(op, common) + Weighty(op, a) * Weighty(op, b)
    decreases Size(a) + Size(b)
  {
    if IsOp(op, a) {
      var x := ExtractEq(op, common, a.left, b);
      ExtractSubtracts(op, common, a.left, b);
      ExtractSubtracts(op, x.0, a.right, x.2);
      var y := ExtractEq(op, x.0, a.right, x.2);
      assert ExtractEq(op, common, a, b) == (y.0, Bin(op, x.1, y.1), y.2);
      ExtractedTwice(Weighty(op, a.left), Weighty(op, a.right), Weighty(op, b), WeightyOpt(op, common));
    } else if IsOp(op, b) {
      var x := ExtractEq(op, common, a, b.left);
      ExtractSubtracts(op, common, a, b.left);
      ExtractSubtracts(op, x.0, x.1, b.right);
      var y := ExtractEq(op, x.0, x.1, b.right);
      assert ExtractEq(op, common, a, b) == (y.0, y.1, Bin(op, x.2, y.2));
      ExtractedTwice(Weighty(op, b.left), Weighty(op, b.right), Weighty(op, a), WeightyOpt(op, common));
    } else {
      ExtractLeaf(op, common, a, b);
    }
  }

  // ----- expr_eliminate_dups2 -----

  lemma {:induction false} NeutralOnly(op: Op, e: Expr)
    requires LiteralChain(op, e)
    ensures EliminateYn(e) == Neutral(op) <==> Weighty(op, e) == multiset{}
  {
    if IsOp(op, e) {
      NeutralOnly(op, e.left);
      NeutralOnly(op, e.right);
      YnDiffer(op);
    }
  }

  /** A chain x && ... cancels against a chain y1 || ..., or the other way round, if and only if the negation of each of
      its operands is among y1, ... (as often as it occurs). */
  lemma CancelsExactly(x: Expr, y: Expr)
    requires x.Bin? && LiteralChain(Dual(x.op), Pushed(x, true)) && LiteralChain(Dual(x.op), y)
    requires Weighty(Dual(x.op), Pushed(x, true)) != multiset{}
    ensures Cancels(x, y) <==> Weighty(Dual(x.op), Pushed(x, true)) <= Weighty(Dual(x.op), y)
  {
    var op, n := Dual(x.op), Pushed(x, true);
    TransformIsOnePass(Not(x));
    var r := ExtractEq(op, None, n, y);
    ExtractSubtracts(op, None, n, y);
    NeutralOnly(op, r.1);
    var a, b := Weighty(op, n), Weighty(op, y);
    NothingLeft(a, b);
    if a <= b {
      assert a * b == a;
      assert r.0.Some?;
    }
  }

  // ----- adoption by elimination -----

  /** The elimination test on conjunctions of literals: what the parent asks is without n, and all its operands are
      among those of the entry. A single literal is only held against a conjunction. */
  lemma EliminatesExactly(base: Option<Expr>, dep: Expr)
    requires LiteralChain(AndOp, Condition(base)) && LiteralChain(AndOp, Condition(Some(dep)))
    ensures Eliminates(base, dep) <==>
            var a, b := Condition(Some(dep)), Condition(base);
            if a.Bin? || b.Bin? then !Decided(AndOp, b) && Operands(AndOp, b) <= Operands(AndOp, a)
            else b == Sym(SYM_Y)
  {
    var a, b := Condition(Some(dep)), Condition(base);
    if a.Bin? || b.Bin? {
      CancelKeepsShape(AndOp, a, b);
      assert EliminateEqPasses(a, b) == EliminateCommon(AndOp, a, b);
      LeftOver(a, b);
    }
  }

  /** Nothing but y remains of b. */
  lemma LeftOver(a: Expr, b: Expr)
    requires LiteralChain(AndOp, a) && LiteralChain(AndOp, b)
    ensures EliminateYn(EliminateCommon(AndOp, a, b).1) == Sym(SYM_Y) <==>
            !Decided(AndOp, b) && Operands(AndOp, b) <= Operands(AndOp, a)
  {
    var r := EliminateCommon(AndOp, a, b);
    CancelSubtracts(AndOp, a, b);
    CancelKeepsShape(AndOp, a, b);
    EliminateYnDecides(AndOp, r.1);
    YnDiffer(AndOp);
    if !Decided(AndOp, b) {
      EliminateYnKeepsOperands(AndOp, r.1);
    }
    NothingLeft(Operands(AndOp, b), Operands(AndOp, a));
  }

  lemma NothingLeft(x: multiset<Expr>, y: multiset<Expr>)
    ensures x - y == multiset{} <==> x <= y
  {
    if x - y == multiset{} {
      forall e ensures x[e] <= y[e] {
        assert (x - y)[e] == 0;
      }
    }
  }

  lemma {:induction false} CommonWithYes(op: Op, a: Expr)
    ensures EliminateCommon(op, a, Sym(SYM_Y)).1 == Sym(SYM_Y)
    decreases Size(a)
  {
    if IsOp(op, a) {
      CommonWithYes(op, a.left);
      CommonWithYes(op, a.right);
    }
  }

  /** An entry whose prompt is missing, or has no condition, adopts every entry that mentions its symbol. */
  lemma AdoptsWithoutPrompt(s: Symbol, dep: Expr)
    ensures Adopts(s, None, Some(dep)) <==> Contains(dep, s)
  {
    var a := Condition(Some(dep));
    assert Condition(None) == Sym(SYM_Y) by {
      TransformIsOnePass(Not(Sym(SYM_N)));
      assert SYM_Y.text[0] == 'y' && SYM_M.text[0] == 'm' && SYM_N.text[0] == 'n';
    }
    if a.Bin? {
      CommonWithYes(a.op, a);
    }
  }

  /** Booleans, negated or not */
  predicate BooleanLiteral(e: Expr) {
    (e.Sym? && TypeOf(e.sym) == SBoolean) || (e.Not? && e.arg.Sym? && TypeOf(e.arg.sym) == SBoolean)
  }

  predicate BooleanConjunction(e: Expr) {
    if IsOp(AndOp, e) then BooleanConjunction(e.left) && BooleanConjunction(e.right) else BooleanLiteral(e)
  }

  /** Comparing such a conjunction with n gives its negation, */
  lemma {:induction false} ComparedWithNo(e: Expr)
    requires BooleanConjunction(e)
    ensures Pushed(TransCompare(e, true, SYM_N).value, true) == e
    ensures Pushed(TransCompare(e, false, SYM_N).value, false) == e
    ensures LiteralChain(AndOp, e) && !Decided(AndOp, e)
  {
    assert SYM_Y.text[0] == 'y' && SYM_M.text[0] == 'm' && SYM_N.text[0] == 'n';
    if IsOp(AndOp, e) {
      ComparedWithNo(e.left);
      ComparedWithNo(e.right);
    }
  }

  /** so the test compares it as it is. */
  lemma ConditionOfConjunction(e: Expr)
    requires BooleanConjunction(e) && Irreducible(e)
    ensures Condition(Some(e)) == e
  {
    ComparedWithNo(e);
    TransformIsOnePass(NonNo(Some(e)));
    EliminateDupsFixpoints(e);
  }

  /** Of conjunctions of booleans from which duplicates have been removed, an entry that mentions the symbol but does
      not need it is adopted if and only if the parent's prompt condition consists of operands of the entry's. */
  lemma AdoptsExactly(s: Symbol, base: Expr, dep: Expr)
    requires BooleanConjunction(base) && Irreducible(base) && BooleanConjunction(dep) && Irreducible(dep)
    ensures Adopts(s, Some(base), Some(dep)) <==>
            Contains(dep, s) &&
            ((exists p :: Operand(AndOp, dep, p) && Needs(At(AndOp, dep, p), s))
             || ((dep.Bin? || base.Bin?) && Operands(AndOp, base) <= Operands(AndOp, dep)))
  {
    ConditionOfConjunction(base);
    ConditionOfConjunction(dep);
    ComparedWithNo(base);
    ComparedWithNo(dep);
    EliminatesExactly(Some(base), dep);
    DependsExactly(dep, s);
  }
}
