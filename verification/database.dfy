/** What a database that menu_finalize has prepared is like: where a symbol has its direct dependency from
    (menu_add_entry and menu_finalize in menu.c). */
module Databases {
  import opened Exprs
  import opened Transforms
  import opened Equality
  import opened Dups
  import opened Symbols
  import opened CheckDeps
  import opened MenuLinks
  import opened Narrowing

  /** A direct dependency is the narrowed condition of some menu entry of the symbol, and that entry's P_SYMBOL
      property, which has no condition of its own, was narrowed by it. */
  ghost predicate FromEntry(s: Symbol, d: Definition, above: Option<Expr>, own: Option<Expr>) {
    && d.dirDep == Narrow(above, own)
    && Defined(NarrowProp(Some(s), d.dirDep, None)) in d.props
  }

  ghost predicate Finalized(k: Kconfig) {
    forall s {:trigger k.defs[s]} :: s in k.defs && k.defs[s].dirDep.Some? ==>
      exists above, own :: FromEntry(s, k.defs[s], above, own)
  }

  // ----- narrowing by nothing changes nothing but the form -----

  /** A second expr_eliminate_dups changes nothing. */
  lemma EliminateDupsIdempotent(e: Expr)
    ensures EliminateDups(EliminateDups(e)) == EliminateDups(e)
  {
    EliminateDupsComplete(e);
    EliminateDupsFixpoints(EliminateDups(e));
  }

  /** expr_trans_bool drops no symbol other than the constant n. */
  lemma {:induction false} TransBoolKeepsSymbols(e: Expr, t: Symbol)
    requires Contains(e, t) && t != SYM_N
    ensures Contains(TransBool(e), t)
  {
    match e
    case Not(a) => TransBoolKeepsSymbols(a, t);
    case Bin(_, l, r) =>
      if Contains(l, t) {
        TransBoolKeepsSymbols(l, t);
      } else {
        TransBoolKeepsSymbols(r, t);
      }
    case _ =>
  }

  /** Every symbol in a narrowed condition is also in the condition of the P_SYMBOL property narrowed by it. */
  lemma PlaceMentionsAll(s: Symbol, above: Option<Expr>, own: Option<Expr>, t: Symbol)
    requires t != SYM_N && t in SymbolsOfOpt(Narrow(above, own))
    ensures t in SymbolsOfOpt(NarrowProp(Some(s), Narrow(above, own), None))
  {
    var dep := Narrow(above, own).value;
    EliminateDupsIdempotent(AllocAnd(above, TransformOpt(own)).value);
    assert Narrow(Some(dep), None) == Some(dep);
    TransBoolKeepsSymbols(dep, t);
  }

  /** So the search for recursive dependencies follows direct dependencies too. */
  lemma FinalizedIsFollowed(k: Kconfig)
    requires Closed(k) && Finalized(k)
    ensures DirDepFollowed(k)
  {
    forall s, t | s in k.defs && t in k.defs && t in SymbolsOfOpt(k.defs[s].dirDep) ensures Edge(k, s, t) {
      var d := k.defs[s];
      var above, own :| FromEntry(s, d, above, own);
      PlaceMentionsAll(s, above, own, t);
      var i :| 0 <= i < |d.props| && d.props[i] == Defined(NarrowProp(Some(s), d.dirDep, None));
      CheckedByPropsHas(d.props, i);
    }
  }

  // ----- the finished menu tree gives such a database -----

  /** dir_dep.expr is the dependency of one of the symbol's menu entries, each of which has a P_SYMBOL property. */
  ghost predicate TakenFromTree(k: Kconfig, syms: map<Entry, Symbol>, d: Conditions, f: Forest) {
    forall s {:trigger k.defs[s]} :: s in k.defs && k.defs[s].dirDep.Some? ==>
      exists m {:trigger d.Dep(m)} :: m in Nodes(f) && SymOf(syms, m) == Some(s) && k.defs[s].dirDep == d.Dep(m)
                  && Defined(NarrowProp(Some(s), d.Dep(m), None)) in k.defs[s].props
  }

  lemma {:induction false} DepIsNarrowed(syms: map<Entry, Symbol>, prompts: set<Entry>, above: Option<Expr>,
                                         c: Conditions, d: Conditions, f: Forest, m: Entry) returns (a: Option<Expr>)
    requires AllNarrowed(syms, prompts, above, c, d, f) && m in Nodes(f)
    ensures d.Dep(m) == Narrow(a, c.Dep(m))
    decreases f
  {
    a := above;
    if m in Nodes(f.kids) {
      a := DepIsNarrowed(syms, prompts, Asks(prompts, d, f.m), c, d, f.kids, m);
    } else if m in Nodes(f.rest) {
      a := DepIsNarrowed(syms, prompts, above, c, d, f.rest, m);
    }
  }

  /** What FinalizeTree leaves in the tree makes the database finalized. */
  lemma TreeGivesFinalized(k: Kconfig, syms: map<Entry, Symbol>, prompts: set<Entry>, above: Option<Expr>,
                           c: Conditions, d: Conditions, f: Forest)
    requires AllNarrowed(syms, prompts, above, c, d, f) && TakenFromTree(k, syms, d, f)
    ensures Finalized(k)
  {
    forall s {:trigger k.defs[s]} | s in k.defs && k.defs[s].dirDep.Some?
      ensures exists above, own :: FromEntry(s, k.defs[s], above, own)
    {
      var m :| m in Nodes(f) && SymOf(syms, m) == Some(s) && k.defs[s].dirDep == d.Dep(m)
               && Defined(NarrowProp(Some(s), d.Dep(m), None)) in k.defs[s].props;
      var a := DepIsNarrowed(syms, prompts, above, c, d, f, m);
      assert FromEntry(s, k.defs[s], a, c.Dep(m));
    }
  }
}
