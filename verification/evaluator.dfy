/** The memoising evaluator of symbol.c and expr.c: sym_calc_value, sym_calc_visibility,
    sym_get_default_prop and expr_calc_value, which fill in each other's symbols as they go. */
module Evaluators {
  import opened Exprs
  import opened Symbols

  /** SYMBOL_VALID and what the calculation stores */
  datatype Fields = Fields(valid: bool, out: Outcome)
  type Table = map<Symbol, Fields>

  /** An acyclic database: a rank of its symbols, and its solution. */
  datatype Goal = Goal(rank: map<Symbol, nat>, w: map<Symbol, Outcome>)

  /** Without a goal, that is on a database with a cycle, nothing is claimed about values. */
  ghost predicate GoalOk(k: Kconfig, goal: Option<Goal>) {
    goal.Some? ==> Ranked(k, goal.value.rank) && IsSolution(k, goal.value.w)
  }

  /** Valid symbols are never calculated again. */
  ghost predicate Kept(a: Table, b: Table) {
    a.Keys == b.Keys && forall s {:trigger b[s]} :: s in a && a[s].valid ==> b[s] == a[s]
  }

  /** The same, except for what is stored in one symbol under calculation */
  ghost predicate KeptBut(s: Symbol, a: Table, b: Table) {
    && a.Keys == b.Keys && (s in a ==> b[s].valid == a[s].valid)
    && forall t {:trigger b[t]} :: t in a && t != s && a[t].valid ==> b[t] == a[t]
  }

  /** How many symbols are not valid yet */
  function Todo(st: Table): nat {
    |set s | s in st && !st[s].valid|
  }

  /** A symbol without a type gets nothing but a value. */
  predicate Matches(s: Symbol, a: Outcome, b: Outcome) {
    a.curr == b.curr && (TypeOf(s) != SUnknown ==> a == b)
  }

  /** Valid symbols are right, except those under calculation. */
  ghost predicate Agrees(goal: Option<Goal>, st: Table, stack: set<Symbol>) {
    goal.Some? ==>
      forall s {:trigger st[s]} :: s in st && st[s].valid && s !in stack ==>
        s in goal.value.w && Matches(s, st[s].out, goal.value.w[s])
  }

  /** The symbols may be calculated while those on the stack are. */
  ghost predicate Below(k: Kconfig, goal: Option<Goal>, syms: set<Symbol>, stack: set<Symbol>) {
    && (forall s :: s in syms && s.Config? ==> s in k.defs)
    && (goal.Some? ==>
          forall s, t {:trigger s in syms, t in stack} :: s in syms && s.Config? && t in stack ==>
            s in goal.value.rank && t in goal.value.rank && goal.value.rank[s] < goal.value.rank[t])
  }

  ghost predicate Sound(k: Kconfig, goal: Option<Goal>) {
    Closed(k) && GoalOk(k, goal)
  }

  ghost predicate Inv(k: Kconfig, goal: Option<Goal>, st: Table, stack: set<Symbol>) {
    st.Keys == k.defs.Keys && Agrees(goal, st, stack)
  }

  class SymbolTable {
    var k: Kconfig
    var st: Table

    constructor (k: Kconfig)
      ensures this.k == k && st.Keys == k.defs.Keys && forall s :: s in st ==> !st[s].valid
    {
      this.k := k;
      st := map s | s in k.defs :: Fields(false, Outcome(NO, NO, NO, false, Value(NO, "")));
    }

    /** expr_calc_value */
    method CalcExpr(e: Expr, ghost goal: Option<Goal>, ghost stack: set<Symbol>) returns (r: Tristate)
      requires Sound(k, goal) && Inv(k, goal, st, stack) && Below(k, goal, SymbolsOf(e), stack)
      modifies this`st
      ensures Inv(k, goal, st, stack) && Kept(old(st), st)
      ensures goal.Some? ==> r == Eval(e, Values(goal.value.w))
      decreases Todo(st), 1, e
    {
      match e
      case Sym(s) =>
        CalcValue(s, goal, stack);
        r := if s.Const? then TriOf(s, map[]) else st[s].out.curr.tri;
      case Not(a) =>
        var x := CalcExpr(a, goal, stack);
        r := Neg(x);
      case Bin(op, a, b) =>
        var x := CalcExpr(a, goal, stack);
        TodoShrinks(old(st), st);
        var y := CalcExpr(b, goal, stack);
        r := Apply(op, x, y);
      case Cmp(eq, a, b) =>
        r := CalcCompare(eq, a, b, goal, stack);
    }

    /** The E_EQUAL and E_UNEQUAL cases of expr_calc_value */
    method CalcCompare(eq: bool, a: Symbol, b: Symbol, ghost goal: Option<Goal>, ghost stack: set<Symbol>)
      returns (r: Tristate)
      requires Sound(k, goal) && Inv(k, goal, st, stack) && Below(k, goal, {a, b}, stack)
      modifies this`st
      ensures Inv(k, goal, st, stack) && Kept(old(st), st)
      ensures goal.Some? ==> r == Eval(Cmp(eq, a, b), Values(goal.value.w))
      decreases Todo(st), 0, 1
    {
      CalcValue(a, goal, stack);
      TodoShrinks(old(st), st);
      CalcValue(b, goal, stack);
      assert goal.Some? ==>
          StringValue(a) == TextOf(a, Values(goal.value.w)) && StringValue(b) == TextOf(b, Values(goal.value.w));
      r := Truth((StringValue(a) == StringValue(b)) == eq);
    }

    /** sym_get_string_value */
    function StringValue(s: Symbol): string
      reads this
      requires s.Config? ==> s in st
    {
      if s.Const? then s.text
      else if IsLogical(s) then TriText(st[s].out.curr.tri)
      else st[s].out.curr.text
    }

    method CalcOpt(e: Option<Expr>, ghost goal: Option<Goal>, ghost stack: set<Symbol>) returns (r: Tristate)
      requires Sound(k, goal) && Inv(k, goal, st, stack) && Below(k, goal, SymbolsOfOpt(e), stack)
      modifies this`st
      ensures Inv(k, goal, st, stack) && Kept(old(st), st)
      ensures goal.Some? ==> r == EvalOpt(e, Values(goal.value.w))
      decreases Todo(st), 2
    {
      r := YES;
      if e.Some? {
        r := CalcExpr(e.value, goal, stack);
      }
    }

    /** The loop of sym_calc_visibility over the prompts */
    method CalcPrompts(s: Symbol, ghost goal: Option<Goal>, ghost stack: set<Symbol>) returns (tri: Tristate)
      requires Sound(k, goal) && Inv(k, goal, st, stack) && s in k.defs
      requires Below(k, goal, ReadByProps(k.defs[s].props), stack)
      modifies this`st
      ensures Inv(k, goal, st, stack) && Kept(old(st), st)
      ensures goal.Some? ==> tri == PromptTri(k.defs[s].props, Values(goal.value.w))
      decreases Todo(st), 3
    {
      var props := k.defs[s].props;
      tri := NO;
      for i := 0 to |props|
        invariant Inv(k, goal, st, stack) && Kept(old(st), st)
        invariant goal.Some? ==> tri == PromptTri(props[..i], Values(goal.value.w))
      {
        assert props[..i + 1][..i] == props[..i];
        if props[i].Prompt? {
          TodoShrinks(old(st), st);
          ReadByPropsHas(props, i);
          var t := CalcOpt(props[i].visible, goal, stack);
          tri := Apply(OrOp, tri, t);
        }
      }
      assert props[..|props|] == props;
    }

    /** sym_get_default_prop */
    method CalcDefault(s: Symbol, ghost goal: Option<Goal>, ghost stack: set<Symbol>)
      returns (r: Option<(Expr, Tristate)>)
      requires Sound(k, goal) && Inv(k, goal, st, stack) && s in k.defs
      requires Below(k, goal, ReadByProps(k.defs[s].props), stack)
      modifies this`st
      ensures Inv(k, goal, st, stack) && Kept(old(st), st)
      ensures goal.Some? ==> r == FirstDefault(k.defs[s].props, Values(goal.value.w))
      ensures r.Some? ==> SymbolsOf(r.value.0) <= ReadByProps(k.defs[s].props)
      decreases Todo(st), 3
    {
      var props := k.defs[s].props;
      r := None;
      for i := 0 to |props|
        invariant Inv(k, goal, st, stack) && Kept(old(st), st)
        invariant goal.Some? ==>
                    FirstDefault(props, Values(goal.value.w)) == FirstDefault(props[i..], Values(goal.value.w))
        invariant r.None?
      {
        assert props[i..][1..] == props[i + 1..];
        if props[i].Default? {
          TodoShrinks(old(st), st);
          ReadByPropsHas(props, i);
          var t := CalcOpt(props[i].visible, goal, stack);
          if t != NO {
            r := Some((props[i].value, t));
            return;
          }
        }
      }
      assert props[|props|..] == [];
    }

    /** The three parts of sym_calc_visibility, each storing one field of the symbol */
    method UpdateVisible(s: Symbol, ghost goal: Option<Goal>, ghost stack: set<Symbol>)
      requires Sound(k, goal) && Inv(k, goal, st, stack) && s in k.defs && st[s].valid && s in stack
      requires Below(k, goal, Reads(k.defs[s]), stack)
      modifies this`st
      ensures Inv(k, goal, st, stack) && KeptBut(s, old(st), st)
      ensures st[s].out == old(st[s].out).(visible := st[s].out.visible)
      ensures goal.Some? ==> st[s].out.visible == Visible(k, s, Values(goal.value.w))
      decreases Todo(st), 4
    {
      var tri := CalcPrompts(s, goal, stack);
      if tri == MOD && EffectiveType(s, k.modules) != STristate {
        tri := YES;
      }
      Store(s, st[s].out.(visible := tri), goal, stack);
    }

    method UpdateDirDep(s: Symbol, ghost goal: Option<Goal>, ghost stack: set<Symbol>)
      requires Sound(k, goal) && Inv(k, goal, st, stack) && s in k.defs && st[s].valid && s in stack
      requires Below(k, goal, Reads(k.defs[s]), stack)
      modifies this`st
      ensures Inv(k, goal, st, stack) && KeptBut(s, old(st), st)
      ensures st[s].out == old(st[s].out).(dirDep := st[s].out.dirDep)
      ensures goal.Some? ==> st[s].out.dirDep == DirDep(k, s, Values(goal.value.w))
      decreases Todo(st), 4
    {
      var tri := CalcOpt(k.defs[s].dirDep, goal, stack);
      if tri == MOD {
        tri := YES;
      }
      Store(s, st[s].out.(dirDep := tri), goal, stack);
    }

    method UpdateRevDep(s: Symbol, ghost goal: Option<Goal>, ghost stack: set<Symbol>)
      requires Sound(k, goal) && Inv(k, goal, st, stack) && s in k.defs && st[s].valid && s in stack
      requires Below(k, goal, Reads(k.defs[s]), stack)
      modifies this`st
      ensures Inv(k, goal, st, stack) && KeptBut(s, old(st), st)
      ensures st[s].out == old(st[s].out).(revDep := st[s].out.revDep)
      ensures goal.Some? ==> st[s].out.revDep == RevDep(k, s, Values(goal.value.w))
      decreases Todo(st), 4
    {
      var tri := NO;
      if k.defs[s].revDep.Some? {
        tri := CalcExpr(k.defs[s].revDep.value, goal, stack);
      }
      if tri == MOD && EffectiveType(s, k.modules) == SBoolean {
        tri := YES;
      }
      Store(s, st[s].out.(revDep := tri), goal, stack);
    }

    /** sym_calc_visibility */
    method CalcVisibility(s: Symbol, ghost goal: Option<Goal>, ghost stack: set<Symbol>)
      requires Sound(k, goal) && Inv(k, goal, st, stack) && s in k.defs && st[s].valid && s in stack
      requires Below(k, goal, Reads(k.defs[s]), stack)
      modifies this`st
      ensures Inv(k, goal, st, stack) && KeptBut(s, old(st), st)
      ensures st[s].out.write == old(st[s].out.write)
      ensures goal.Some? ==> VisibilityDone(s, Values(goal.value.w))
      decreases Todo(st), 5
    {
      UpdateVisible(s, goal, stack);
      KeptButShrinks(s, old(st), st);
      UpdateDirDep(s, goal, stack);
      KeptButShrinks(s, old(st), st);
      UpdateRevDep(s, goal, stack);
    }

    /** Assign to the fields of a symbol under calculation. */
    method Store(s: Symbol, out: Outcome, ghost goal: Option<Goal>, ghost stack: set<Symbol>)
      requires Inv(k, goal, st, stack) && s in st && st[s].valid && s in stack
      modifies this`st
      ensures st == old(st)[s := Fields(true, out)] && Inv(k, goal, st, stack) && Todo(st) == Todo(old(st))
    {
      st := st[s := Fields(true, out)];
      assert (set t | t in st && !st[t].valid) == (set t | t in old(st) && !old(st)[t].valid);
    }

    /** The S_BOOLEAN and S_TRISTATE cases of sym_calc_value */
    method CalcLogical(s: Symbol, ghost goal: Option<Goal>, ghost stack: set<Symbol>)
      requires Sound(k, goal) && Inv(k, goal, st, stack) && s in k.defs && st[s].valid && s in stack
      requires Below(k, goal, Reads(k.defs[s]), stack) && !st[s].out.write
      requires goal.Some? ==> VisibilityDone(s, Values(goal.value.w))
      modifies this`st
      ensures Inv(k, goal, st, stack) && KeptBut(s, old(st), st)
      ensures goal.Some? ==> st[s].out == ComputeLogical(k, s, Values(goal.value.w))
      decreases Todo(st), 5
    {
      var newval: Tristate := NO;
      var out := st[s].out;
      var write := out.visible != NO;
      if out.visible != NO && s in k.user {
        newval := Apply(AndOp, k.user[s].tri, out.visible);
      } else {
        if out.revDep != NO {
          write := true;
        }
        var default := CalcDefault(s, goal, stack);
        if default.Some? {
          write := true;
          TodoShrinks(old(st), st);
          newval := CalcExpr(default.value.0, goal, stack);
          newval := Apply(AndOp, newval, default.value.1);
        }
      }
      newval := Apply(OrOp, newval, out.revDep);
      if newval == MOD && EffectiveType(s, k.modules) == SBoolean {
        newval := YES;
      }
      Store(s, out.(write := write, curr := Value(newval, "n")), goal, stack);
    }

    /** The S_STRING, S_INT and S_HEX cases of sym_calc_value */
    method CalcText(s: Symbol, ghost goal: Option<Goal>, ghost stack: set<Symbol>)
      requires Sound(k, goal) && Inv(k, goal, st, stack) && s in k.defs && st[s].valid && s in stack
      requires Below(k, goal, Reads(k.defs[s]), stack) && !st[s].out.write
      requires goal.Some? ==> VisibilityDone(s, Values(goal.value.w))
      modifies this`st
      ensures Inv(k, goal, st, stack) && KeptBut(s, old(st), st)
      ensures goal.Some? ==> st[s].out == ComputeText(k, s, Values(goal.value.w))
      decreases Todo(st), 5
    {
      var newval := "";
      var out := st[s].out;
      var write := out.visible != NO;
      if out.visible != NO && s in k.user {
        newval := k.user[s].text;
      } else {
        var default := CalcDefault(s, goal, stack);
        if default.Some? && default.value.0.Sym? {
          write := true;
          var ds := default.value.0.sym;
          TodoShrinks(old(st), st);
          CalcValue(ds, goal, stack);
          newval := if ds.Const? then ds.text else st[ds].out.curr.text;
        }
      }
      Store(s, out.(write := write, curr := Value(NO, newval)), goal, stack);
    }

    ghost predicate VisibilityDone(s: Symbol, v: Valuation)
      reads this
      requires s in k.defs && s in st
    {
      && st[s].out.visible == Visible(k, s, v)
      && st[s].out.dirDep == DirDep(k, s, v)
      && st[s].out.revDep == RevDep(k, s, v)
    }

    /** Clear SYMBOL_WRITE, find out what may be set, and leave a default for recursive calls. */
    method Prepare(s: Symbol, ghost goal: Option<Goal>, ghost stack: set<Symbol>)
      requires Sound(k, goal) && Inv(k, goal, st, stack) && s in k.defs && st[s].valid && s in stack
      requires Below(k, goal, Reads(k.defs[s]), stack)
      modifies this`st
      ensures Inv(k, goal, st, stack) && KeptBut(s, old(st), st) && !st[s].out.write
      ensures goal.Some? ==> VisibilityDone(s, Values(goal.value.w))
      decreases Todo(st), 6
    {
      Store(s, st[s].out.(write := false), goal, stack);
      CalcVisibility(s, goal, stack);
      Store(s, st[s].out.(curr := Value(NO, if IsLogical(s) then "n" else "")), goal, stack);
    }

    /** sym_calc_value once the symbol is marked SYMBOL_VALID */
    method Recalculate(s: Symbol, ghost goal: Option<Goal>, ghost stack: set<Symbol>)
      requires Sound(k, goal) && Inv(k, goal, st, stack) && s in k.defs && st[s].valid && s in stack
      requires Below(k, goal, Reads(k.defs[s]), stack)
      modifies this`st
      ensures Inv(k, goal, st, stack) && KeptBut(s, old(st), st)
      ensures goal.Some? ==> Matches(s, st[s].out, Compute(k, s, Values(goal.value.w)))
      decreases Todo(st), 7
    {
      if TypeOf(s) == SUnknown {
        Store(s, st[s].out.(curr := Value(NO, k.defs[s].name)), goal, stack);
        return;
      }
      Prepare(s, goal, stack);
      KeptButShrinks(s, old(st), st);
      if IsLogical(s) {
        CalcLogical(s, goal, stack);
      } else {
        CalcText(s, goal, stack);
      }
    }

    /** sym_calc_value: fill in a symbol and, on the way, the symbols it reads. */
    method CalcValue(s: Symbol, ghost goal: Option<Goal>, ghost stack: set<Symbol>)
      requires Sound(k, goal) && Inv(k, goal, st, stack) && Below(k, goal, {s}, stack)
      modifies this`st
      ensures Inv(k, goal, st, stack) && Kept(old(st), st)
      ensures s.Config? ==> st[s].valid
      ensures s.Config? && goal.Some? ==> st[s].out.curr == goal.value.w[s].curr
      decreases Todo(st), 0, 0
    {
      if s.Const? || st[s].valid {
        return;
      }
      st := st[s := st[s].(valid := true)];
      Marked(s, old(st), st);
      ReadsBelow(k, goal, s, stack);
      Recalculate(s, goal, stack + {s});
      Finished(k, goal, s, st, stack);
    }

    /** sym_clear_all_valid, without the calculation of the modules symbol */
    method ClearAllValid()
      modifies this`st
      ensures st.Keys == old(st).Keys && forall x :: x in st ==> !st[x].valid && st[x].out == old(st)[x].out
    {
      st := map x | x in st :: st[x].(valid := false);
    }

    /** sym_calc_value for symbols in any order, as when a configuration is written: on an acyclic database
        all of them end up with what the recursive definition gives them. */
    method CalcAll(order: seq<Symbol>, ghost goal: Option<Goal>)
      requires Sound(k, goal) && Inv(k, goal, st, {}) && forall s :: s in order ==> s in k.defs
      modifies this`st
      ensures Inv(k, goal, st, {}) && Kept(old(st), st)
      ensures forall s :: s in order ==> st[s].valid
      ensures goal.Some? ==>
                forall s :: s in order ==> st[s].out.curr == goal.value.w[s].curr
                                           && (TypeOf(s) != SUnknown ==> st[s].out == goal.value.w[s])
    {
      for i := 0 to |order|
        invariant Inv(k, goal, st, {}) && Kept(old(st), st)
        invariant forall s :: s in order[..i] ==> st[s].valid
      {
        ghost var before := st;
        CalcValue(order[i], goal, {});
        assert Kept(before, st);
        assert order[..i + 1] == order[..i] + [order[i]];
      }
      assert order[..|order|] == order;
      assert forall s :: s in order ==> s in st && st[s].valid;
    }
  }

  /** A symbol that got the value the solution gives it may leave the stack. */
  lemma Finished(k: Kconfig, goal: Option<Goal>, s: Symbol, st: Table, stack: set<Symbol>)
    requires Sound(k, goal) && Inv(k, goal, st, stack + {s}) && s in k.defs
    requires goal.Some? ==> Matches(s, st[s].out, Compute(k, s, Values(goal.value.w)))
    ensures Inv(k, goal, st, stack)
    ensures goal.Some? ==> st[s].out.curr == goal.value.w[s].curr
  {
  }

  lemma Marked(s: Symbol, a: Table, b: Table)
    requires s in a && !a[s].valid && b == a[s := a[s].(valid := true)]
    ensures Todo(b) < Todo(a)
  {
    assert (set t | t in a && !a[t].valid) == (set t | t in b && !b[t].valid) + {s};
  }

  /** What a symbol reads may be calculated while the symbol is. */
  lemma ReadsBelow(k: Kconfig, goal: Option<Goal>, s: Symbol, stack: set<Symbol>)
    requires Sound(k, goal) && Below(k, goal, {s}, stack) && s in k.defs
    ensures Below(k, goal, Reads(k.defs[s]), stack + {s})
  {
    forall t | t in Reads(k.defs[s]) && t.Config? ensures t in k.defs {
      assert DependsOn(k, s, t);
    }
    if goal.Some? {
      forall t, u | t in Reads(k.defs[s]) && t.Config? && u in stack + {s}
        ensures u in goal.value.rank && goal.value.rank[t] < goal.value.rank[u]
      {
        assert DependsOn(k, s, t);
      }
    }
  }

  lemma TodoShrinks(a: Table, b: Table)
    requires Kept(a, b)
    ensures Todo(b) <= Todo(a)
  {
    SubsetSize((set s | s in b && !b[s].valid), (set s | s in a && !a[s].valid));
  }

  lemma KeptButShrinks(s: Symbol, a: Table, b: Table)
    requires KeptBut(s, a, b)
    ensures Todo(b) <= Todo(a)
  {
    SubsetSize((set t | t in b && !b[t].valid), (set t | t in a && !a[t].valid));
  }
}
