/** What the conditions that menu_finalize leaves in the tree mean (menu.c). */
module MenuConditions {
  import opened Exprs
  import opened Transforms
  import opened Equality
  import opened Joins
  import opened Slots
  import opened Dups
  import opened Symbols
  import opened MenuLinks
  import opened Narrowing

  // ----- negations stay on symbols -----

  lemma {:induction false} NormalAt(op: Op, e: Expr, p: Path)
    requires ChainPath(op, e, p) && Normal(e)
    ensures Normal(At(op, e, p))
  {
    if p != [] {
      NormalAt(op, Child(e, p[0]), p[1..]);
    }
  }

  lemma {:induction false} NormalPut(op: Op, e: Expr, p: Path, x: Expr)
    requires ChainPath(op, e, p) && Normal(e) && Normal(x)
    ensures Normal(Put(op, e, p, x))
  {
    if p != [] {
      NormalPut(op, Child(e, p[0]), p[1..], x);
    }
  }

  lemma {:induction false} EliminateYnNormal(e: Expr)
    requires Normal(e)
    ensures Normal(EliminateYn(e))
  {
    if e.Bin? {
      EliminateYnNormal(e.left);
      EliminateYnNormal(e.right);
    }
  }

  lemma JoinNormal(op: Op, a: Expr, b: Expr)
    requires Normal(a) && Normal(b) && Join(op, a, b).Some?
    ensures Normal(Join(op, a, b).value)
  {
  }

  lemma {:induction false} Dups1Normal(op: Op, e: Expr, p: Path, q: Path)
    requires ChainPath(op, e, p) && ChainPath(op, e, q) && Normal(e)
    ensures Normal(Dups1(op, e, p, q).e)
    decreases Size(e), ChainSize(op, At(op, e, p)) + ChainSize(op, At(op, e, q)), 2
  {
    if IsOp(op, At(op, e, p)) {
      AtChild(op, e, p, L); AtChild(op, e, p, R);
      var x := Dups1(op, e, p + [L], q);
      SameChainAt(op, e, x.e, p + [R]); SameChainAt(op, e, x.e, q);
      Dups1Normal(op, e, p + [L], q);
      Dups1Normal(op, x.e, p + [R], q);
    } else if IsOp(op, At(op, e, q)) {
      AtChild(op, e, q, L); AtChild(op, e, q, R);
      var x := Dups1(op, e, p, q + [L]);
      SameChainAt(op, e, x.e, q + [R]); SameChainAt(op, e, x.e, p);
      Dups1Normal(op, e, p, q + [L]);
      Dups1Normal(op, x.e, p, q + [R]);
    } else if p != q {
      JoinAtNormal(op, e, p, q);
    }
  }

  lemma {:induction false} JoinAtNormal(op: Op, e: Expr, p: Path, q: Path)
    requires Operand(op, e, p) && Operand(op, e, q) && p != q && Normal(e)
    ensures Normal(JoinAt(op, e, p, q).e)
    decreases Size(e), 0, 1
  {
    var inner := DupsInside(op, e, p);
    SameChainAt(op, e, inner.e, p); SameChainAt(op, e, inner.e, q);
    DupsInsideNormal(op, e, p);
    var a, b := At(op, inner.e, p), At(op, inner.e, q);
    NormalAt(op, inner.e, p);
    NormalAt(op, inner.e, q);
    if Join(op, a, b).Some? {
      JoinNormal(op, a, b);
      NormalPut(op, inner.e, p, Neutral(op));
      AtPutOther(op, inner.e, p, q, Neutral(op));
      NormalPut(op, Put(op, inner.e, p, Neutral(op)), q, Join(op, a, b).value);
    }
  }

  lemma {:induction false} DupsInsideNormal(op: Op, e: Expr, p: Path)
    requires Operand(op, e, p) && p != [] && Normal(e)
    ensures Normal(DupsInside(op, e, p).e)
    decreases Size(e), 0, 0
  {
    var x := At(op, e, p);
    NormalAt(op, e, p);
    if x.Bin? {
      Dups1Normal(x.op, x, [], []);
      NormalPut(op, e, p, Dups1(x.op, x, [], []).e);
    }
  }

  lemma {:induction false} Dups2Normal(op: Op, e: Expr, p: Path, q: Path)
    requires ChainPath(op, e, p) && ChainPath(op, e, q) && Normal(e)
    ensures Normal(Dups2(op, e, p, q).e)
    decreases Size(e), ChainSize(op, At(op, e, p)) + ChainSize(op, At(op, e, q)), 2
  {
    if IsOp(op, At(op, e, p)) {
      AtChild(op, e, p, L); AtChild(op, e, p, R);
      var x := Dups2(op, e, p + [L], q);
      SameChainAt(op, e, x.e, p + [R]); SameChainAt(op, e, x.e, q);
      Dups2Normal(op, e, p + [L], q);
      Dups2Normal(op, x.e, p + [R], q);
    } else {
      var x := Dups2Second(op, e, p, q);
      SameChainAt(op, e, x.e, p); SameChainAt(op, e, x.e, q);
      Dups2SecondNormal(op, e, p, q);
      if p != q {
        CancelAtNormal(op, x.e, p, q);
      }
    }
  }

  lemma {:induction false} Dups2SecondNormal(op: Op, e: Expr, p: Path, q: Path)
    requires Operand(op, e, p) && ChainPath(op, e, q) && Normal(e)
    ensures Normal(Dups2Second(op, e, p, q).e)
    decreases Size(e), ChainSize(op, At(op, e, p)) + ChainSize(op, At(op, e, q)), 1
  {
    if IsOp(op, At(op, e, q)) {
      AtChild(op, e, q, L); AtChild(op, e, q, R);
      var x := Dups2(op, e, p, q + [L]);
      SameChainAt(op, e, x.e, q + [R]); SameChainAt(op, e, x.e, p);
      Dups2Normal(op, e, p, q + [L]);
      Dups2Normal(op, x.e, p, q + [R]);
    }
  }

  lemma {:induction false} CancelAtNormal(op: Op, e: Expr, p: Path, q: Path)
    requires Operand(op, e, p) && ChainPath(op, e, q) && p != q && Normal(e)
    ensures Normal(CancelAt(op, e, p, q).e)
    decreases Size(e), 0, 0
  {
    var x := At(op, e, p);
    NormalAt(op, e, p);
    if x.Bin? {
      var inner := Dups2(x.op, x, [], []);
      var f := Put(op, e, p, inner.e);
      Dups2Normal(x.op, x, [], []);
      NormalPut(op, e, p, inner.e);
      PutKeepsChain(op, e, p, inner.e);
      SameChainAt(op, e, f, p);
      NormalPut(op, f, p, Neutral(x.op));
    }
  }

  /** expr_eliminate_dups keeps negations on symbols. */
  lemma {:induction false} EliminateDupsNormal(e: Expr)
    requires Normal(e)
    ensures Normal(EliminateDups(e))
    decreases Size(e)
  {
    var r := Round(e);
    if e.Bin? {
      var x := Dups1(e.op, e, [], []);
      Dups1Normal(e.op, e, [], []);
      Dups2Normal(x.e.op, x.e, [], []);
    }
    if r.count > 0 {
      EliminateYnComplete(r.e);
      EliminateYnNormal(r.e);
      EliminateDupsNormal(EliminateYn(r.e));
    }
  }

  lemma {:induction false} TransBoolNormal(e: Expr)
    requires Normal(e)
    ensures Normal(TransBool(e))
  {
    if e.Bin? {
      TransBoolNormal(e.left);
      TransBoolNormal(e.right);
    }
  }

  predicate NormalOpt(e: Option<Expr>) { e.Some? ==> Normal(e.value) }

  /** Conditions that are handed down are normal, and hand down normal conditions. */
  lemma NarrowNormal(sym: Option<Symbol>, above: Option<Expr>, own: Option<Expr>)
    requires NormalOpt(above)
    ensures NormalOpt(Narrow(above, own)) && NormalOpt(NarrowProp(sym, above, own))
  {
    var e := AllocAnd(above, TransformOpt(own));
    if own.Some? {
      TransformNormalises(own.value);
    }
    if e.Some? {
      EliminateDupsNormal(e.value);
      TransBoolNormal(EliminateDups(e.value));
    }
  }

  /** The prompt of a symbol that is no tristate is shown as y once its condition is not n: the last
      rewrite of the condition does not change when that is. */
  lemma PromptLiftUnchanged(sym: Option<Symbol>, above: Option<Expr>, own: Option<Expr>, v: Valuation)
    requires NormalOpt(above)
    ensures EvalOpt(NarrowProp(sym, above, own), v) == NO <==> EvalOpt(Narrow(above, own), v) == NO
    ensures sym.Some? && TypeOf(sym.value) == STristate ==> NarrowProp(sym, above, own) == Narrow(above, own)
  {
    NarrowNormal(sym, above, own);
    var e := Narrow(above, own);
    if e.Some? {
      TransBoolKeepsNo(e.value, v);
    }
  }

  /** A narrowed condition has nothing left in it that could be joined or cancelled, and narrowing it again by nothing
      does not change it. */
  lemma NarrowReduced(above: Option<Expr>, own: Option<Expr>)
    requires above.Some? || own.Some?
    ensures var e := Narrow(above, own); e.Some? && Irreducible(e.value) && Narrow(e, None) == e
  {
    var e := Narrow(above, own).value;
    EliminateDupsComplete(AllocAnd(above, TransformOpt(own)).value);
    EliminateDupsFixpoints(e);
  }

  /** Where nothing can be joined or cancelled, it is what is above, and what the entry says itself after it. */
  lemma NarrowPlain(above: Expr, own: Expr)
    requires Irreducible(Bin(AndOp, above, Transform(own)))
    ensures Narrow(Some(above), Some(own)) == Some(Bin(AndOp, above, Transform(own)))
  {
    EliminateDupsFixpoints(Bin(AndOp, above, Transform(own)));
  }

  /** Every entry has its conditions from the entry on whose list it was: its own dependency narrowed by the condition
      of that entry's prompt, or by that entry's dependency if it has none; and its own prompt's narrowed by that. */
  lemma {:induction false} ConditionsFromOwner(syms: map<Entry, Symbol>, prompts: set<Entry>, c: Conditions,
                                               d: Conditions, h: Links, x: Entry, f: Forest, head: Ptr, m: Entry)
    requires Chain(h, f, head, To(x), Null) && m in Nodes(f)
    requires AllNarrowed(syms, prompts, Asks(prompts, d, x), c, d, f)
    ensures h.Parent(m).To?
    ensures var p := h.Parent(m).e;
            && d.Dep(m) == Narrow(if p in prompts then d.Visible(p) else d.Dep(p), c.Dep(m))
            && d.Visible(m) == NarrowProp(if m in syms then Some(syms[m]) else None, d.Dep(m), c.Visible(m))
    decreases f
  {
    if m in Nodes(f.kids) {
      ConditionsFromOwner(syms, prompts, c, d, h, f.m, f.kids, h.List(f.m), m);
    } else if m in Nodes(f.rest) {
      ConditionsFromOwner(syms, prompts, c, d, h, x, f.rest, h.Next(f.m), m);
    }
  }

  // ----- the meaning of a condition -----

  /** A narrowed condition is the conjunction of what is above and the entry's own, wherever that is n or y. */
  lemma NarrowRefines(above: Option<Expr>, own: Option<Expr>, v: Valuation)
    requires Typed(v)
    ensures Refines(Apply(AndOp, EvalOpt(above, v), EvalOpt(own, v)), EvalOpt(Narrow(above, own), v))
  {
    if own.Some? {
      TransformExact(own.value, v);
    }
    var e := AllocAnd(above, TransformOpt(own));
    if e.Some? {
      EliminateDupsRefines(e.value, v);
    }
  }

  lemma NarrowPropExact(sym: Option<Symbol>, above: Option<Expr>, own: Option<Expr>, v: Valuation)
    requires Typed(v) && TwoValued(v)
    requires Apply(AndOp, EvalOpt(above, v), EvalOpt(own, v)) != MOD
    ensures EvalOpt(NarrowProp(sym, above, own), v) == Apply(AndOp, EvalOpt(above, v), EvalOpt(own, v))
  {
    NarrowRefines(above, own, v);
    var e := Narrow(above, own);
    if e.Some? {
      TransBoolExactOnTwoValued(e.value, v);
    }
  }

  /** No condition of these entries mentions the constant m as an operand. */
  ghost predicate ModFree(c: Conditions, f: Forest) {
    forall m :: m in Nodes(f) ==> (c.Dep(m).Some? ==> !HasMod(c.Dep(m).value))
                                  && (c.Visible(m).Some? ==> !HasMod(c.Visible(m).value))
  }

  /** Every entry depends on what it says itself and on what the entries above it ask: their prompts' conditions,
      or their own dependencies if they have no prompt. t is what the entries above the list ask. */
  ghost predicate InForce(prompts: set<Entry>, c: Conditions, d: Conditions, f: Forest, t: Tristate, v: Valuation)
    decreases f
  {
    match f
    case Nil => true
    case Cons(m, k, r) =>
      var dep := Apply(AndOp, t, EvalOpt(c.Dep(m), v));
      var visible := Apply(AndOp, dep, EvalOpt(c.Visible(m), v));
      && EvalOpt(d.Dep(m), v) == dep && EvalOpt(d.Visible(m), v) == visible
      && InForce(prompts, c, d, k, if m in prompts then visible else dep, v)
      && InForce(prompts, c, d, r, t, v)
  }

  /** The conditions in the finished tree say exactly what the conditions in the file say, for symbols
      that are n or y: each entry needs its own condition and those of all entries above it. */
  lemma {:induction false} ConditionsExact(syms: map<Entry, Symbol>, prompts: set<Entry>, above: Option<Expr>,
                                           c: Conditions, d: Conditions, f: Forest, v: Valuation)
    requires Typed(v) && TwoValued(v) && ModFree(c, f) && EvalOpt(above, v) != MOD
    requires AllNarrowed(syms, prompts, above, c, d, f)
    ensures InForce(prompts, c, d, f, EvalOpt(above, v), v)
    decreases f
  {
    if f.Cons? {
      var m := f.m;
      OptTwoValued(c.Dep(m), v);
      OptTwoValued(c.Visible(m), v);
      NarrowRefines(above, c.Dep(m), v);
      NarrowPropExact(SymOf(syms, m), d.Dep(m), c.Visible(m), v);
      ConditionsExact(syms, prompts, Asks(prompts, d, m), c, d, f.kids, v);
      ConditionsExact(syms, prompts, above, c, d, f.rest, v);
    }
  }

  lemma OptTwoValued(e: Option<Expr>, v: Valuation)
    requires TwoValued(v) && (e.Some? ==> !HasMod(e.value))
    ensures EvalOpt(e, v) != MOD
  {
    if e.Some? {
      TwoValuedEval(e.value, v);
    }
  }

  // ----- the meaning in all three values -----

  /** May the last rewrite of a prompt's condition lower it? Only for symbols that are no tristate. */
  predicate Lowers(sym: Option<Symbol>) { sym.Some? && TypeOf(sym.value) != STristate }

  /** A condition for which t is the conjunction it stands for: n wherever t is n, and wherever t is n or y
      the same as t, if nothing above it was lowered. */
  predicate StandsFor(e: Option<Expr>, t: Tristate, exact: bool, v: Valuation) {
    && NormalOpt(e)
    && (t == NO ==> EvalOpt(e, v) == NO)
    && (exact ==> Refines(t, EvalOpt(e, v)))
  }

  /** As InForce, for symbols that may be m */
  ghost predicate InForceAtMost(syms: map<Entry, Symbol>, prompts: set<Entry>, c: Conditions, d: Conditions, f: Forest,
                                t: Tristate, exact: bool, v: Valuation)
    decreases f
  {
    match f
    case Nil => true
    case Cons(m, k, r) =>
      var dep := Apply(AndOp, t, EvalOpt(c.Dep(m), v));
      var visible := Apply(AndOp, dep, EvalOpt(c.Visible(m), v));
      var visibleExact := exact && !Lowers(SymOf(syms, m));
      && StandsFor(d.Dep(m), dep, exact, v) && StandsFor(d.Visible(m), visible, visibleExact, v)
      && (if m in prompts then InForceAtMost(syms, prompts, c, d, k, visible, visibleExact, v)
          else InForceAtMost(syms, prompts, c, d, k, dep, exact, v))
      && InForceAtMost(syms, prompts, c, d, r, t, exact, v)
  }

  lemma NarrowStandsFor(above: Option<Expr>, own: Option<Expr>, t: Tristate, exact: bool, v: Valuation)
    requires Typed(v) && StandsFor(above, t, exact, v)
    ensures StandsFor(Narrow(above, own), Apply(AndOp, t, EvalOpt(own, v)), exact, v)
  {
    NarrowNormal(None, above, own);
    NarrowRefines(above, own, v);
  }

  lemma NarrowPropStandsFor(sym: Option<Symbol>, above: Option<Expr>, own: Option<Expr>, t: Tristate, exact: bool,
                            v: Valuation)
    requires Typed(v) && StandsFor(above, t, exact, v)
    ensures StandsFor(NarrowProp(sym, above, own), Apply(AndOp, t, EvalOpt(own, v)), exact && !Lowers(sym), v)
  {
    NarrowStandsFor(above, own, t, exact, v);
    NarrowNormal(sym, above, own);
    PromptLiftUnchanged(sym, above, own, v);
  }

  /** Whatever value symbols have: an entry's conditions in the finished tree are n wherever its own condition or
      one above it is n, and exactly as strong as their conjunction wherever that is n or y, unless the prompt of a
      symbol that is no tristate is above. All conditions have their negations on symbols. */
  lemma {:induction false} ConditionsHold(syms: map<Entry, Symbol>, prompts: set<Entry>, above: Option<Expr>,
                                          c: Conditions, d: Conditions, f: Forest,
                                          t: Tristate, exact: bool, v: Valuation)
    requires Typed(v) && StandsFor(above, t, exact, v)
    requires AllNarrowed(syms, prompts, above, c, d, f)
    ensures InForceAtMost(syms, prompts, c, d, f, t, exact, v)
    decreases f
  {
    if f.Cons? {
      var m := f.m;
      var dep := Apply(AndOp, t, EvalOpt(c.Dep(m), v));
      NarrowStandsFor(above, c.Dep(m), t, exact, v);
      NarrowPropStandsFor(SymOf(syms, m), d.Dep(m), c.Visible(m), dep, exact, v);
      if m in prompts {
        var visible := Apply(AndOp, dep, EvalOpt(c.Visible(m), v));
        ConditionsHold(syms, prompts, d.Visible(m), c, d, f.kids, visible, exact && !Lowers(SymOf(syms, m)), v);
      } else {
        ConditionsHold(syms, prompts, d.Dep(m), c, d, f.kids, dep, exact, v);
      }
      ConditionsHold(syms, prompts, above, c, d, f.rest, t, exact, v);
    }
  }

  /** So it is for the whole tree, above which there is no condition. */
  lemma ConditionsHoldBelowRoot(syms: map<Entry, Symbol>, prompts: set<Entry>, c: Conditions, d: Conditions, f: Forest,
                                v: Valuation)
    requires Typed(v) && AllNarrowed(syms, prompts, None, c, d, f)
    ensures InForceAtMost(syms, prompts, c, d, f, YES, true, v)
  {
    ConditionsHold(syms, prompts, None, c, d, f, YES, true, v);
  }

  /** Where a condition is lowered: the prompt of a boolean that depends on T!=n, with T at m. */
  lemma PromptLowered(a: nat, b: nat)
    ensures var t, s := Config(a, STristate), Config(b, SBoolean);
            var v := map[t := Value(MOD, "")];
            var dep := Some(Cmp(false, t, SYM_N));
            && Typed(v) && EvalOpt(dep, v) == YES && EvalOpt(Narrow(dep, None), v) == YES
            && EvalOpt(NarrowProp(Some(s), dep, None), v) == MOD
  {
    var t := Config(a, STristate);
    var v := map[t := Value(MOD, "")];
    assert TextOf(t, v)[0] == 'm' && TextOf(SYM_N, v)[0] == 'n';
    assert EliminateDups(Cmp(false, t, SYM_N)) == Cmp(false, t, SYM_N);
  }

  // ----- the visibility of symbols -----

  /** The prompts before and after expr_trans_bool */
  function Lowered(props: seq<Property>): seq<Property> {
    if props == [] then []
    else Lowered(props[..|props| - 1]) + [match props[|props| - 1]
      case Prompt(Some(e)) => Prompt(Some(TransBool(e)))
      case p => p]
  }

  lemma {:induction false} LoweredPrompts(props: seq<Property>, v: Valuation)
    requires forall i :: 0 <= i < |props| && props[i].Prompt? ==> NormalOpt(props[i].visible)
    ensures PromptTri(Lowered(props), v) == NO <==> PromptTri(props, v) == NO
  {
    if props != [] {
      var last := props[|props| - 1];
      LoweredPrompts(props[..|props| - 1], v);
      assert Lowered(props)[..|Lowered(props)| - 1] == Lowered(props[..|props| - 1]);
      if last.Prompt? && last.visible.Some? {
        TransBoolKeepsNo(last.visible.value, v);
      }
    }
  }

  /** A symbol that is no tristate is as visible as it would be without the last rewrite of its prompts' conditions:
      the lift from m to y makes up for it. */
  lemma VisibilityUnchanged(k: Kconfig, s: Symbol, v: Valuation)
    requires s in k.defs && TypeOf(s) != STristate
    requires var p := k.defs[s].props; forall i :: 0 <= i < |p| && p[i].Prompt? ==> NormalOpt(p[i].visible)
    ensures var k' := k.(defs := k.defs[s := k.defs[s].(props := Lowered(k.defs[s].props))]);
            Visible(k', s, v) == Visible(k, s, v)
  {
    LoweredPrompts(k.defs[s].props, v);
  }
}
