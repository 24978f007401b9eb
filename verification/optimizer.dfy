/** expr_eliminate_dups as it runs: the tree is overwritten through its slots,
    and a counter says whether a round found anything. */
module Optimizers {
  import opened Exprs
  import opened Equality
  import opened Joins
  import opened Slots
  import opened Dups

  /** A tree under rewriting, with the global trans_count. */
  class Optimizer {
    var root: Expr
    var transCount: nat

    constructor (e: Expr)
      ensures root == e && transCount == 0
    {
      root, transCount := e, 0;
    }

    method EliminateDups1(op: Op, p: Path, q: Path)
      requires ChainPath(op, root, p) && ChainPath(op, root, q)
      modifies this
      ensures root == Dups1(op, old(root), p, q).e
      ensures transCount == old(transCount) + Dups1(op, old(root), p, q).count
      decreases Size(root), ChainSize(op, At(op, root, p)) + ChainSize(op, At(op, root, q)), 2
    {
      if IsOp(op, At(op, root, p)) {
        AtChild(op, root, p, L);
        AtChild(op, root, p, R);
        ghost var before := root;
        EliminateDups1(op, p + [L], q);
        SameChainAt(op, before, root, p + [R]);
        SameChainAt(op, before, root, q);
        EliminateDups1(op, p + [R], q);
        return;
      }
      if IsOp(op, At(op, root, q)) {
        AtChild(op, root, q, L);
        AtChild(op, root, q, R);
        ghost var before := root;
        EliminateDups1(op, p, q + [L]);
        SameChainAt(op, before, root, q + [R]);
        SameChainAt(op, before, root, p);
        EliminateDups1(op, p, q + [R]);
        return;
      }
      if p != q {
        JoinOperands(op, p, q);
      }
    }

    /** The switches at the end of expr_eliminate_dups1 */
    method JoinOperands(op: Op, p: Path, q: Path)
      requires Operand(op, root, p) && Operand(op, root, q) && p != q
      modifies this
      ensures root == JoinAt(op, old(root), p, q).e
      ensures transCount == old(transCount) + JoinAt(op, old(root), p, q).count
      decreases Size(root), 0, 0
    {
      var e1 := At(op, root, p);
      ghost var inside := DupsInside(op, root, p);
      SameChainAt(op, root, inside.e, p);
      SameChainAt(op, root, inside.e, q);
      if e1.Bin? {
        var inner := new Optimizer(e1);
        inner.EliminateDups1(e1.op, [], []);
        root := Put(op, root, p, inner.root);
        transCount := transCount + inner.transCount;
      }
      assert root == inside.e;
      var joined := Join(op, At(op, root, p), At(op, root, q));
      if joined.Some? {
        root := Merge(op, root, p, q, joined.value);
        transCount := transCount + 1;
      }
    }

    method EliminateDups2(op: Op, p: Path, q: Path)
      requires ChainPath(op, root, p) && ChainPath(op, root, q)
      modifies this
      ensures root == Dups2(op, old(root), p, q).e
      ensures transCount == old(transCount) + Dups2(op, old(root), p, q).count
      decreases Size(root), ChainSize(op, At(op, root, p)) + ChainSize(op, At(op, root, q)), 2
    {
      ghost var before := root;
      if IsOp(op, At(op, root, p)) {
        AtChild(op, root, p, L);
        AtChild(op, root, p, R);
        EliminateDups2(op, p + [L], q);
        SameChainAt(op, before, root, p + [R]);
        SameChainAt(op, before, root, q);
        EliminateDups2(op, p + [R], q);
        return;
      }
      Descend2(op, p, q);
      if p == q {
        return;
      }
      SameChainAt(op, before, root, p);
      SameChainAt(op, before, root, q);
      Cancel(op, p, q);
    }

    /** The descent of expr_eliminate_dups2 into its second slot, which does not return */
    method Descend2(op: Op, p: Path, q: Path)
      requires Operand(op, root, p) && ChainPath(op, root, q)
      modifies this
      ensures root == Dups2Second(op, old(root), p, q).e
      ensures transCount == old(transCount) + Dups2Second(op, old(root), p, q).count
      decreases Size(root), ChainSize(op, At(op, root, p)) + ChainSize(op, At(op, root, q)), 1
    {
      if IsOp(op, At(op, root, q)) {
        ghost var before := root;
        AtChild(op, root, q, L);
        AtChild(op, root, q, R);
        EliminateDups2(op, p, q + [L]);
        SameChainAt(op, before, root, q + [R]);
        SameChainAt(op, before, root, p);
        EliminateDups2(op, p, q + [R]);
      }
    }

    /** The switch at the end of expr_eliminate_dups2 */
    method Cancel(op: Op, p: Path, q: Path)
      requires Operand(op, root, p) && ChainPath(op, root, q) && p != q
      modifies this
      ensures root == CancelAt(op, old(root), p, q).e
      ensures transCount == old(transCount) + CancelAt(op, old(root), p, q).count
      decreases Size(root), 0, 0
    {
      var e1 := At(op, root, p);
      if e1.Bin? {
        assert p != [];
        ghost var before := root;
        var inner := new Optimizer(e1);
        inner.EliminateDups2(e1.op, [], []);
        AtPut(op, root, p, inner.root);
        PutKeepsChain(op, root, p, inner.root);
        root := Put(op, root, p, inner.root);
        transCount := transCount + inner.transCount;
        SameChainAt(op, before, root, q);
        if Cancels(At(op, root, p), At(op, root, q)) {
          root := Put(op, root, p, Neutral(e1.op));
          transCount := transCount + 1;
        }
      }
    }

    /** expr_eliminate_dups: repeat until a round counts nothing. The caller's count survives. */
    method EliminateDuplicates()
      modifies this
      ensures root == EliminateDups(old(root))
      ensures transCount == old(transCount)
    {
      var oldCount := transCount;
      while true
        invariant EliminateDups(root) == EliminateDups(old(root))
        decreases Size(root)
      {
        transCount := 0;
        ghost var round := Round(root);
        if root.Bin? {
          EliminateDups1(root.op, [], []);
          EliminateDups2(root.op, [], []);
        }
        assert root == round.e && transCount == round.count;
        if transCount == 0 {
          break;
        }
        EliminateYnComplete(root);
        root := EliminateYn(root);
      }
      transCount := oldCount;
    }
  }
}
