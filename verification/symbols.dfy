/** What a configuration database says about each symbol, and the value every symbol should have
    (symbol.c, for symbols outside choices and without range properties). */
module Symbols {
  import opened Exprs

  /** Only prompts and defaults matter for values; the cycle check also follows the others. Defined is P_SYMBOL,
      which every menu entry of a symbol adds to it. */
  datatype Property =
    | Prompt(visible: Option<Expr>)
    | Default(value: Expr, visible: Option<Expr>)
    | Select(visible: Option<Expr>)
    | OtherProp(visible: Option<Expr>)
    | Defined(visible: Option<Expr>)

  datatype Definition = Definition(
    name: string,
    props: seq<Property>,
    dirDep: Option<Expr>,
    revDep: Option<Expr>)

  /** The symbol table, the user's values (def[S_DEF_USER], present when SYMBOL_DEF_USER is set)
      and the value of the modules symbol. */
  datatype Kconfig = Kconfig(defs: map<Symbol, Definition>, user: map<Symbol, Value>, modules: Tristate)

  lemma {:induction false} SubsetSize<T>(a: set<T>, b: set<T>)
    requires a <= b
    ensures |a| <= |b|
  {
    if a != {} {
      var x :| x in a;
      SubsetSize(a - {x}, b - {x});
    }
  }

  // ----- which symbols are read -----

  function SymbolsOf(e: Expr): (r: set<Symbol>)
    ensures forall s :: s in r <==> Contains(e, s)
  {
    match e
    case Sym(s) => {s}
    case Not(a) => SymbolsOf(a)
    case Bin(_, l, r) => SymbolsOf(l) + SymbolsOf(r)
    case Cmp(_, a, b) => {a, b}
  }

  function SymbolsOfOpt(e: Option<Expr>): set<Symbol> {
    if e.Some? then SymbolsOf(e.value) else {}
  }

  function ReadByProps(props: seq<Property>): set<Symbol> {
    if props == [] then {}
    else ReadByProps(props[1..]) + match props[0]
      case Prompt(e) => SymbolsOfOpt(e)
      case Default(x, e) => SymbolsOf(x) + SymbolsOfOpt(e)
      case _ => {}
  }

  /** Everything the calculation of a symbol may read */
  function Reads(d: Definition): set<Symbol> {
    ReadByProps(d.props) + SymbolsOfOpt(d.dirDep) + SymbolsOfOpt(d.revDep)
  }

  predicate DependsOn(k: Kconfig, s: Symbol, t: Symbol) {
    s in k.defs && t in Reads(k.defs[s])
  }

  /** Symbols that are mentioned exist. */
  ghost predicate Closed(k: Kconfig) {
    && (forall s :: s in k.defs ==> s.Config?)
    && (forall s, t {:trigger DependsOn(k, s, t)} :: DependsOn(k, s, t) && t.Config? ==> t in k.defs)
  }

  /** The dependencies the calculation follows have no cycle. */
  ghost predicate Ranked(k: Kconfig, rank: map<Symbol, nat>) {
    && rank.Keys == k.defs.Keys
    && forall s, t {:trigger DependsOn(k, s, t)} :: DependsOn(k, s, t) && t in k.defs ==> rank[t] < rank[s]
  }

  // ----- one symbol, given the values of the symbols it reads -----

  /** A missing expression is y. */
  function EvalOpt(e: Option<Expr>, v: Valuation): Tristate {
    if e.Some? then Eval(e.value, v) else YES
  }

  /** sym_get_type: without modules a tristate is a boolean. */
  function EffectiveType(s: Symbol, modules: Tristate): SymType {
    if TypeOf(s) == STristate && modules == NO then SBoolean else TypeOf(s)
  }

  /** The strongest of the prompts' conditions */
  function PromptTri(props: seq<Property>, v: Valuation): Tristate {
    if props == [] then NO
    else
      var rest := PromptTri(props[..|props| - 1], v);
      var last := props[|props| - 1];
      if last.Prompt? then Apply(OrOp, rest, EvalOpt(last.visible, v)) else rest
  }

  /** The first default whose condition is not n, with its condition (sym_get_default_prop) */
  function FirstDefault(props: seq<Property>, v: Valuation): Option<(Expr, Tristate)> {
    if props == [] then None
    else if props[0].Default? && EvalOpt(props[0].visible, v) != NO
    then Some((props[0].value, EvalOpt(props[0].visible, v)))
    else FirstDefault(props[1..], v)
  }

  /** What the calculation leaves in a symbol: visible, dir_dep.tri, rev_dep.tri, SYMBOL_WRITE and curr */
  datatype Outcome = Outcome(visible: Tristate, dirDep: Tristate, revDep: Tristate, write: bool, curr: Value)

  function Visible(k: Kconfig, s: Symbol, v: Valuation): Tristate
    requires s in k.defs
  {
    var t := PromptTri(k.defs[s].props, v);
    if t == MOD && EffectiveType(s, k.modules) != STristate then YES else t
  }

  function DirDep(k: Kconfig, s: Symbol, v: Valuation): Tristate
    requires s in k.defs
  {
    var t := EvalOpt(k.defs[s].dirDep, v);
    if t == MOD then YES else t
  }

  function RevDep(k: Kconfig, s: Symbol, v: Valuation): Tristate
    requires s in k.defs
  {
    var t := if k.defs[s].revDep.Some? then Eval(k.defs[s].revDep.value, v) else NO;
    if t == MOD && EffectiveType(s, k.modules) == SBoolean then YES else t
  }

  /** A boolean is never m. */
  function Lift(k: Kconfig, s: Symbol, t: Tristate): Tristate {
    if t == MOD && EffectiveType(s, k.modules) == SBoolean then YES else t
  }

  function ComputeLogical(k: Kconfig, s: Symbol, v: Valuation): Outcome
    requires s in k.defs
  {
    var vis, dir, rev := Visible(k, s, v), DirDep(k, s, v), RevDep(k, s, v);
    var fromUser := vis != NO && s in k.user;
    var default := FirstDefault(k.defs[s].props, v);
    var base :=
      if fromUser then Apply(AndOp, k.user[s].tri, vis)
      else if default.Some? then Apply(AndOp, Eval(default.value.0, v), default.value.1)
      else NO;
    Outcome(vis, dir, rev,
            vis != NO || rev != NO || default.Some?,
            Value(Lift(k, s, Apply(OrOp, base, rev)), "n"))
  }

  /** curr.val of a symbol */
  function RawText(s: Symbol, v: Valuation): string {
    if s.Const? then s.text else if s in v then v[s].text else ""
  }

  function ComputeText(k: Kconfig, s: Symbol, v: Valuation): Outcome
    requires s in k.defs
  {
    var vis := Visible(k, s, v);
    var fromUser := vis != NO && s in k.user;
    var default := FirstDefault(k.defs[s].props, v);
    var fromDefault := !fromUser && default.Some? && default.value.0.Sym?;
    Outcome(vis, DirDep(k, s, v), RevDep(k, s, v),
            vis != NO || fromDefault,
            Value(NO, if fromUser then k.user[s].text
                      else if fromDefault then RawText(default.value.0.sym, v) else ""))
  }

  /** The value of one symbol, given the values of the others. */
  function Compute(k: Kconfig, s: Symbol, v: Valuation): Outcome
    requires s in k.defs
  {
    match TypeOf(s)
    case SUnknown => Outcome(NO, NO, NO, false, Value(NO, k.defs[s].name))
    case SBoolean => ComputeLogical(k, s, v)
    case STristate => ComputeLogical(k, s, v)
    case _ => ComputeText(k, s, v)
  }

  // ----- all symbols at once -----

  function Values(w: map<Symbol, Outcome>): Valuation {
    map s | s in w :: w[s].curr
  }

  /** Every symbol has the value that the values of the others give it. */
  ghost predicate IsSolution(k: Kconfig, w: map<Symbol, Outcome>) {
    && w.Keys == k.defs.Keys
    && forall s {:trigger Compute(k, s, Values(w))} :: s in k.defs ==> w[s] == Compute(k, s, Values(w))
  }

  /** The value by recursion over an acyclic database */
  function Spec(k: Kconfig, rank: map<Symbol, nat>, s: Symbol): Outcome
    requires s in k.defs && Ranked(k, rank)
    decreases rank[s]
  {
    Compute(k, s, map t | t in Reads(k.defs[s]) && t in k.defs :: assert DependsOn(k, s, t); Spec(k, rank, t).curr)
  }

  function SpecAll(k: Kconfig, rank: map<Symbol, nat>): map<Symbol, Outcome>
    requires Ranked(k, rank)
  {
    map s | s in k.defs :: Spec(k, rank, s)
  }

  function SpecValues(k: Kconfig, rank: map<Symbol, nat>): Valuation
    requires Ranked(k, rank)
  {
    Values(SpecAll(k, rank))
  }

  ghost predicate AgreeOn(syms: set<Symbol>, v: Valuation, w: Valuation) {
    forall s :: s in syms && s.Config? ==> (s in v <==> s in w) && (s in v ==> v[s] == w[s])
  }

  lemma EvalAgrees(e: Expr, v: Valuation, w: Valuation)
    requires AgreeOn(SymbolsOf(e), v, w)
    ensures Eval(e, v) == Eval(e, w)
  {
    EvalReadsMentioned(e, v, w);
  }

  lemma EvalOptAgrees(e: Option<Expr>, v: Valuation, w: Valuation)
    requires AgreeOn(SymbolsOfOpt(e), v, w)
    ensures EvalOpt(e, v) == EvalOpt(e, w)
  {
    if e.Some? {
      EvalAgrees(e.value, v, w);
    }
  }

  lemma {:induction false} ReadByPropsHas(props: seq<Property>, i: nat)
    requires i < |props|
    ensures props[i].Prompt? || props[i].Default? ==> SymbolsOfOpt(props[i].visible) <= ReadByProps(props)
    ensures props[i].Default? ==> SymbolsOf(props[i].value) <= ReadByProps(props)
  {
    if i > 0 {
      ReadByPropsHas(props[1..], i - 1);
    }
  }

  lemma {:induction false} PromptTriAgrees(props: seq<Property>, n: nat, v: Valuation, w: Valuation)
    requires n <= |props| && AgreeOn(ReadByProps(props), v, w)
    ensures PromptTri(props[..n], v) == PromptTri(props[..n], w)
  {
    if n > 0 {
      PromptTriAgrees(props, n - 1, v, w);
      assert props[..n][..n - 1] == props[..n - 1];
      ReadByPropsHas(props, n - 1);
      if props[n - 1].Prompt? {
        EvalOptAgrees(props[n - 1].visible, v, w);
      }
    }
  }

  lemma {:induction false} FirstDefaultAgrees(props: seq<Property>, v: Valuation, w: Valuation)
    requires AgreeOn(ReadByProps(props), v, w)
    ensures FirstDefault(props, v) == FirstDefault(props, w)
    ensures var d := FirstDefault(props, v); d.Some? ==> SymbolsOf(d.value.0) <= ReadByProps(props)
  {
    if props != [] {
      ReadByPropsHas(props, 0);
      if props[0].Default? {
        EvalOptAgrees(props[0].visible, v, w);
      }
      FirstDefaultAgrees(props[1..], v, w);
    }
  }

  lemma DepsAgree(k: Kconfig, s: Symbol, v: Valuation, w: Valuation)
    requires s in k.defs && AgreeOn(Reads(k.defs[s]), v, w)
    ensures Visible(k, s, v) == Visible(k, s, w)
    ensures DirDep(k, s, v) == DirDep(k, s, w) && RevDep(k, s, v) == RevDep(k, s, w)
  {
    var d := k.defs[s];
    assert d.props[..|d.props|] == d.props;
    PromptTriAgrees(d.props, |d.props|, v, w);
    EvalOptAgrees(d.dirDep, v, w);
    EvalOptAgrees(d.revDep, v, w);
  }

  lemma DefaultAgrees(k: Kconfig, s: Symbol, v: Valuation, w: Valuation)
    requires s in k.defs && AgreeOn(Reads(k.defs[s]), v, w)
    ensures var d := FirstDefault(k.defs[s].props, v);
            && d == FirstDefault(k.defs[s].props, w)
            && (d.Some? ==> Eval(d.value.0, v) == Eval(d.value.0, w)
                            && (d.value.0.Sym? ==> RawText(d.value.0.sym, v) == RawText(d.value.0.sym, w)))
  {
    FirstDefaultAgrees(k.defs[s].props, v, w);
    var d := FirstDefault(k.defs[s].props, v);
    if d.Some? {
      EvalAgrees(d.value.0, v, w);
    }
  }

  /** The value of a symbol depends on the symbols it reads only. */
  lemma ComputeAgrees(k: Kconfig, s: Symbol, v: Valuation, w: Valuation)
    requires s in k.defs && AgreeOn(Reads(k.defs[s]), v, w)
    ensures Compute(k, s, v) == Compute(k, s, w)
  {
    DepsAgree(k, s, v, w);
    DefaultAgrees(k, s, v, w);
  }

  lemma SpecUnfolds(k: Kconfig, rank: map<Symbol, nat>, s: Symbol)
    requires s in k.defs && Ranked(k, rank) && Closed(k)
    ensures Spec(k, rank, s) == Compute(k, s, SpecValues(k, rank))
  {
    var v := map t | t in Reads(k.defs[s]) && t in k.defs :: Spec(k, rank, t).curr;
    assert forall t :: t in Reads(k.defs[s]) ==> DependsOn(k, s, t);
    ComputeAgrees(k, s, v, SpecValues(k, rank));
  }

  /** An acyclic database has exactly one solution. */
  lemma SpecSolves(k: Kconfig, rank: map<Symbol, nat>)
    requires Ranked(k, rank) && Closed(k)
    ensures IsSolution(k, SpecAll(k, rank))
  {
    forall s | s in k.defs ensures SpecAll(k, rank)[s] == Compute(k, s, SpecValues(k, rank)) {
      SpecUnfolds(k, rank, s);
    }
  }

  lemma {:induction false} SolutionUnique(k: Kconfig, rank: map<Symbol, nat>, w: map<Symbol, Outcome>, s: Symbol)
    requires Ranked(k, rank) && Closed(k) && IsSolution(k, w) && s in k.defs
    ensures w[s] == Spec(k, rank, s)
    decreases rank[s]
  {
    forall t | t in Reads(k.defs[s]) && t in k.defs ensures w[t] == Spec(k, rank, t) {
      assert DependsOn(k, s, t);
      SolutionUnique(k, rank, w, t);
    }
    SpecUnfolds(k, rank, s);
    assert forall t :: t in Reads(k.defs[s]) ==> DependsOn(k, s, t);
    ComputeAgrees(k, s, Values(w), SpecValues(k, rank));
  }
}
