/** The search for recursive dependencies (sym_check_deps, sym_check_sym_deps, sym_check_expr_deps,
    dep_stack_insert, dep_stack_remove in symbol.c), for symbols outside choices. */
module CheckDeps {
  import opened Exprs
  import opened Symbols

  function FollowedBy(p: Property): set<Symbol> {
    match p
    case Prompt(e) => SymbolsOfOpt(e)
    case Default(x, e) => SymbolsOfOpt(e) + SymbolsOf(x)
    case OtherProp(e) => SymbolsOfOpt(e)
    case Defined(e) => SymbolsOfOpt(e)
    case Select(_) => {}
  }

  function CheckedByProps(props: seq<Property>): set<Symbol> {
    if props == [] then {} else FollowedBy(props[0]) + CheckedByProps(props[1..])
  }

  /** Everything the search follows from a symbol; dir_dep.expr itself is not among it. */
  function Follows(k: Kconfig, s: Symbol): set<Symbol> {
    if s in k.defs then CheckedByProps(k.defs[s].props) + SymbolsOfOpt(k.defs[s].revDep) else {}
  }

  predicate Edge(k: Kconfig, s: Symbol, t: Symbol) { t in Follows(k, s) }

  ghost predicate IsPath(k: Kconfig, p: seq<Symbol>) {
    |p| > 1 ==> Edge(k, p[|p| - 2], p[|p| - 1]) && IsPath(k, p[..|p| - 1])
  }

  ghost predicate IsCycle(k: Kconfig, p: seq<Symbol>) {
    p != [] && IsPath(k, p) && Edge(k, p[|p| - 1], p[0])
  }

  ghost predicate HasCycle(k: Kconfig) {
    exists p :: IsCycle(k, p)
  }

  /** Symbols the search is done with, each after everything it follows. */
  ghost predicate Ordered(k: Kconfig, rank: map<Symbol, nat>) {
    forall s, t {:trigger Edge(k, s, t)} :: s in rank && Edge(k, s, t) ==> t in rank && rank[t] < rank[s]
  }

  lemma {:induction false} PathDescends(k: Kconfig, rank: map<Symbol, nat>, p: seq<Symbol>)
    requires Ordered(k, rank) && p != [] && IsPath(k, p) && p[0] in rank
    ensures p[|p| - 1] in rank && rank[p[|p| - 1]] <= rank[p[0]]
  {
    if |p| > 1 {
      PathDescends(k, rank, p[..|p| - 1]);
    }
  }

  /** Whatever lies on a path of two or more symbols is defined, except possibly its end. */
  lemma {:induction false} PathStarts(k: Kconfig, p: seq<Symbol>)
    requires IsPath(k, p) && |p| > 1
    ensures p[0] in k.defs
  {
    if |p| > 2 {
      PathStarts(k, p[..|p| - 1]);
    }
  }

  lemma {:induction false} PathSuffix(k: Kconfig, p: seq<Symbol>, i: nat)
    requires IsPath(k, p) && i <= |p|
    ensures IsPath(k, p[i..])
  {
    if |p[i..]| > 1 {
      PathSuffix(k, p[..|p| - 1], i);
      assert p[i..][..|p[i..]| - 1] == p[..|p| - 1][i..];
    }
  }

  lemma OrderedMeansAcyclic(k: Kconfig, rank: map<Symbol, nat>)
    requires Ordered(k, rank) && k.defs.Keys <= rank.Keys
    ensures !HasCycle(k)
  {
    forall p ensures !IsCycle(k, p) {
      if IsCycle(k, p) {
        if |p| > 1 {
          PathStarts(k, p);
        }
        PathDescends(k, rank, p);
      }
    }
  }

  lemma {:induction false} CheckedByPropsHas(props: seq<Property>, i: nat)
    requires i < |props|
    ensures FollowedBy(props[i]) <= CheckedByProps(props)
  {
    if i > 0 {
      CheckedByPropsHas(props[1..], i - 1);
    }
  }

  ghost predicate FollowedUpTo(props: seq<Property>, n: nat, done: set<Symbol>)
    requires n <= |props|
  {
    forall i :: 0 <= i < n ==> FollowedBy(props[i]) <= done
  }

  lemma FollowedGrows(props: seq<Property>, n: nat, a: set<Symbol>, b: set<Symbol>)
    requires n < |props| && FollowedUpTo(props, n, a) && a <= b && FollowedBy(props[n]) <= b
    ensures FollowedUpTo(props, n + 1, b)
  {
  }

  lemma {:induction false} CheckedByAll(props: seq<Property>, done: set<Symbol>)
    requires FollowedUpTo(props, |props|, done)
    ensures CheckedByProps(props) <= done
  {
    if props != [] {
      CheckedByAll(props[1..], done);
    }
  }

  function FollowsAll(k: Kconfig, syms: set<Symbol>): set<Symbol> {
    set s, t | s in syms && t in Follows(k, s) :: t
  }

  /** All symbols there are: the defined ones and the constants they mention */
  function Universe(k: Kconfig): set<Symbol> {
    k.defs.Keys + FollowsAll(k, k.defs.Keys)
  }

  lemma UniverseClosed(k: Kconfig)
    ensures ClosedUnder(k, Universe(k))
  {
  }

  /** The search stays among these symbols. */
  ghost predicate ClosedUnder(k: Kconfig, u: set<Symbol>) {
    forall s {:trigger Follows(k, s)} :: s in u ==> Follows(k, s) <= u
  }

  /** The symbols on the stack, and one that is about to be pushed or has just been popped, carry CHECK. */
  ghost predicate StackOk(k: Kconfig, check: set<Symbol>, checked: set<Symbol>, stack: seq<Symbol>,
                          moving: set<Symbol>) {
    check == (set s | s in stack) + moving && check <= checked && IsPath(k, stack)
  }

  /** While nothing is reported: finished symbols are ranked in the order they were finished. */
  ghost predicate DoneOk(k: Kconfig, finished: set<Symbol>, rank: map<Symbol, nat>, clock: nat) {
    Ordered(k, rank) && rank.Keys == finished && forall s {:trigger rank[s]} :: s in rank ==> rank[s] < clock
  }

  lemma StackPush(k: Kconfig, check: set<Symbol>, checked: set<Symbol>, stack: seq<Symbol>, s: Symbol)
    requires StackOk(k, check, checked, stack, {s})
    requires stack != [] ==> Edge(k, stack[|stack| - 1], s)
    ensures StackOk(k, check, checked, stack + [s], {})
  {
    assert (stack + [s])[..|stack|] == stack;
  }

  lemma StackPop(k: Kconfig, check: set<Symbol>, checked: set<Symbol>, stack: seq<Symbol>, s: Symbol)
    requires StackOk(k, check, checked, stack + [s], {})
    ensures StackOk(k, check, checked, stack, {s})
  {
    var p := stack + [s];
    assert forall x :: x in p <==> x in stack || x == s;
    assert p[..|p| - 1] == stack;
  }

  lemma StackStart(k: Kconfig, u: set<Symbol>, check: set<Symbol>, checked: set<Symbol>, stack: seq<Symbol>, s: Symbol)
    requires StackOk(k, check, checked, stack, {}) && s !in checked && s in u
    ensures StackOk(k, check + {s}, checked + {s}, stack, {s}) && s !in stack
    ensures (checked + {s}) - (check + {s}) == checked - check
    ensures Left(u, checked + {s}) < Left(u, checked)
  {
    assert u - checked == (u - (checked + {s})) + {s};
  }

  lemma StackFinish(k: Kconfig, check: set<Symbol>, checked: set<Symbol>, stack: seq<Symbol>, s: Symbol)
    requires StackOk(k, check, checked, stack, {s}) && s !in stack
    ensures StackOk(k, check - {s}, checked, stack, {})
    ensures checked - (check - {s}) == (checked - check) + {s}
  {
  }

  lemma Finish(k: Kconfig, finished: set<Symbol>, rank: map<Symbol, nat>, clock: nat, s: Symbol)
    requires DoneOk(k, finished, rank, clock) && s !in finished && Follows(k, s) <= rank.Keys
    ensures DoneOk(k, finished + {s}, rank[s := clock], clock + 1)
  {
  }

  /** How many symbols have not been looked at */
  function Left(u: set<Symbol>, checked: set<Symbol>): nat {
    |u - checked|
  }

  lemma LeftShrinks(u: set<Symbol>, a: set<Symbol>, b: set<Symbol>)
    requires a <= b
    ensures Left(u, b) <= Left(u, a)
  {
    SubsetSize(u - b, u - a);
  }

  class Checker {
    const k: Kconfig
    ghost const u: set<Symbol>
    /** SYMBOL_CHECK, SYMBOL_CHECKED, the chain from check_top, and the calls of sym_check_print_recursive */
    var check: set<Symbol>
    var checked: set<Symbol>
    var stack: seq<Symbol>
    var reports: nat
    /** While nothing is reported: finished symbols in the order they were finished. */
    ghost var rank: map<Symbol, nat>
    ghost var clock: nat

    constructor (k: Kconfig)
      ensures this.k == k && u == Universe(k) && check == checked == {} && stack == []
      ensures reports == 0 && rank == map[] && clock == 0
    {
      this.k, u := k, Universe(k);
      check, checked, stack, reports, rank, clock := {}, {}, [], 0, map[], 0;
    }

    ghost predicate Inv(moving: set<Symbol>)
      reads this
    {
      && StackOk(k, check, checked, stack, moving) && checked <= u && ClosedUnder(k, u)
      && (if reports > 0 then HasCycle(k) else DoneOk(k, checked - check, rank, clock))
    }

    /** What every call keeps: the stack and the CHECK flags come back as they were. */
    twostate predicate Kept()
      reads this
    {
      && Inv({}) && stack == old(stack) && check == old(check)
      && old(checked) <= checked && old(reports) <= reports
      && (reports == 0 ==> old(rank).Keys <= rank.Keys)
    }

    /** sym_check_expr_deps */
    method CheckExpr(e: Expr) returns (r: Option<Symbol>)
      requires Inv({}) && stack != [] && SymbolsOf(e) <= Follows(k, stack[|stack| - 1]) * u
      modifies this
      ensures Kept()
      ensures r.Some? ==> reports > 0 && r.value in check
      ensures reports == 0 ==> r.None? && SymbolsOf(e) <= rank.Keys
      decreases Left(u, checked), 1, e
    {
      match e
      case Sym(s) => r := CheckSymbol(s);
      case Not(a) => r := CheckExpr(a);
      case Bin(_, a, b) =>
        r := CheckExpr(a);
        if r.None? {
          LeftShrinks(u, old(checked), checked);
          r := CheckExpr(b);
        }
      case Cmp(_, a, b) =>
        r := CheckPair(a, b);
    }

    /** The E_EQUAL and E_UNEQUAL cases of sym_check_expr_deps */
    method CheckPair(a: Symbol, b: Symbol) returns (r: Option<Symbol>)
      requires Inv({}) && stack != [] && {a, b} <= Follows(k, stack[|stack| - 1]) * u
      modifies this
      ensures Kept()
      ensures r.Some? ==> reports > 0 && r.value in check
      ensures reports == 0 ==> r.None? && {a, b} <= rank.Keys
      decreases Left(u, checked), 0, 2
    {
      r := CheckSymbol(a);
      if r.None? {
        LeftShrinks(u, old(checked), checked);
        r := CheckSymbol(b);
      }
    }

    method CheckOpt(e: Option<Expr>) returns (r: Option<Symbol>)
      requires Inv({}) && stack != [] && SymbolsOfOpt(e) <= Follows(k, stack[|stack| - 1]) * u
      modifies this
      ensures Kept()
      ensures r.Some? ==> reports > 0 && r.value in check
      ensures reports == 0 ==> r.None? && SymbolsOfOpt(e) <= rank.Keys
      decreases Left(u, checked), 2
    {
      r := None;
      if e.Some? {
        r := CheckExpr(e.value);
      }
    }

    /** The loop of sym_check_sym_deps over the properties */
    method CheckProps(s: Symbol) returns (r: Option<Symbol>)
      requires Inv({}) && stack != [] && stack[|stack| - 1] == s && s in u && s in k.defs
      modifies this
      ensures Kept()
      ensures r.Some? ==> reports > 0 && r.value in check
      ensures reports == 0 ==> r.None? && CheckedByProps(k.defs[s].props) <= rank.Keys
      decreases Left(u, checked), 4
    {
      var props := k.defs[s].props;
      for i := 0 to |props|
        invariant Kept()
        invariant reports == 0 ==> FollowedUpTo(props, i, rank.Keys)
      {
        CheckedByPropsHas(props, i);
        LeftShrinks(u, old(checked), checked);
        ghost var before := rank.Keys;
        r := CheckProp(props[i]);
        if r.Some? {
          return;
        }
        if reports == 0 {
          FollowedGrows(props, i, before, rank.Keys);
        }
      }
      if reports == 0 {
        CheckedByAll(props, rank.Keys);
      }
      r := None;
    }

    method CheckProp(p: Property) returns (r: Option<Symbol>)
      requires Inv({}) && stack != [] && FollowedBy(p) <= Follows(k, stack[|stack| - 1]) * u
      modifies this
      ensures Kept()
      ensures r.Some? ==> reports > 0 && r.value in check
      ensures reports == 0 ==> r.None? && FollowedBy(p) <= rank.Keys
      decreases Left(u, checked), 3
    {
      if p.Select? {
        return None;
      }
      r := CheckOpt(p.visible);
      if r.Some? || !p.Default? {
        return;
      }
      LeftShrinks(u, old(checked), checked);
      r := CheckExpr(p.value);
    }

    method CheckBody(s: Symbol) returns (r: Option<Symbol>)
      requires Inv({}) && stack != [] && stack[|stack| - 1] == s && s in u
      modifies this
      ensures Kept()
      ensures r.Some? ==> reports > 0 && r.value in check
      ensures reports == 0 ==> r.None? && Follows(k, s) <= rank.Keys
      decreases Left(u, checked), 5
    {
      r := None;
      if s in k.defs {
        r := CheckOpt(k.defs[s].revDep);
        if r.None? {
          LeftShrinks(u, old(checked), checked);
          r := CheckProps(s);
        }
      }
    }

    /** sym_check_sym_deps, with the push and pop of the dependency stack */
    method CheckSymDeps(s: Symbol) returns (r: Option<Symbol>)
      requires Inv({s}) && s !in stack && s in u
      requires stack != [] ==> Edge(k, stack[|stack| - 1], s)
      modifies this
      ensures Inv({s}) && stack == old(stack) && check == old(check)
      ensures old(checked) <= checked && old(reports) <= reports
      ensures r.Some? ==> reports > 0 && r.value in check
      ensures reports == 0 ==> r.None? && Follows(k, s) <= rank.Keys
      decreases Left(u, checked), 6
    {
      StackPush(k, check, checked, stack, s);
      stack := stack + [s];
      r := CheckBody(s);
      StackPop(k, check, checked, old(stack), s);
      stack := stack[..|stack| - 1];
    }

    /** sym_check_deps */
    method CheckSymbol(s: Symbol) returns (r: Option<Symbol>)
      requires Inv({}) && s in u
      requires stack != [] ==> Edge(k, stack[|stack| - 1], s)
      modifies this
      ensures Kept()
      ensures r.Some? ==> reports > 0 && r.value in check
      ensures s in checked && (reports == 0 ==> r.None? && s in rank)
      decreases Left(u, checked), 0, 1
    {
      if s in check {
        StackCycle(k, stack, s);
        reports := reports + 1;
        return Some(s);
      }
      if s in checked {
        return None;
      }
      r := CheckUnseen(s);
      if r == Some(s) {
        r := None;
      }
    }

    /** sym_check_deps for a symbol it sees for the first time */
    method CheckUnseen(s: Symbol) returns (r: Option<Symbol>)
      requires Inv({}) && s in u && s !in checked
      requires stack != [] ==> Edge(k, stack[|stack| - 1], s)
      modifies this
      ensures Kept()
      ensures r.Some? ==> reports > 0 && (r.value in check || r.value == s)
      ensures s in checked && (reports == 0 ==> r.None? && s in rank)
      decreases Left(u, checked), 0, 0
    {
      StackStart(k, u, check, checked, stack, s);
      check, checked := check + {s}, checked + {s};
      r := CheckSymDeps(s);
      Leave(s);
      assert check == old(check);
    }

    method CheckEach(order: seq<Symbol>) returns (errors: nat)
      requires Inv({}) && stack == [] && forall i :: 0 <= i < |order| ==> order[i] in u
      modifies this
      ensures Kept() && errors == 0
      ensures forall i :: 0 <= i < |order| ==> order[i] in checked
    {
      errors := 0;
      for i := 0 to |order|
        invariant Kept() && errors == 0
        invariant forall j :: 0 <= j < i ==> order[j] in checked
      {
        var r := CheckSymbol(order[i]);
        errors := errors + if r.Some? then 1 else 0;
      }
    }

    method Leave(s: Symbol)
      requires Inv({s}) && s !in stack && (reports == 0 ==> Follows(k, s) <= rank.Keys)
      modifies this
      ensures Inv({}) && stack == old(stack) && check == old(check) - {s}
      ensures checked == old(checked) && reports == old(reports)
      ensures reports == 0 ==> s in rank
    {
      StackFinish(k, check, checked, stack, s);
      if reports == 0 {
        Finish(k, checked - check, rank, clock, s);
        rank, clock := rank[s := clock], clock + 1;
      }
      check := check - {s};
    }
  }

  /** Reaching a symbol that is on the stack closes a cycle. */
  lemma StackCycle(k: Kconfig, stack: seq<Symbol>, s: Symbol)
    requires IsPath(k, stack) && s in stack && Edge(k, stack[|stack| - 1], s)
    ensures HasCycle(k)
  {
    var i :| 0 <= i < |stack| && stack[i] == s;
    var p := stack[i..];
    PathSuffix(k, stack, i);
    assert p[0] == s && p[|p| - 1] == stack[|stack| - 1];
    assert IsCycle(k, p);
  }

  /** The run over all symbols, in the order of the symbol table: a recursion is reported if and only if
      the dependencies that are followed have a cycle. No call returns a symbol, so the count of errors
      that parsing keeps stays 0 even then. When nothing is reported, the order in which symbols were
      finished ranks them. */
  method CheckAll(k: Kconfig, order: seq<Symbol>) returns (reported: bool, errors: nat, ghost rank: map<Symbol, nat>)
    requires forall s :: s in order <==> s in k.defs
    ensures reported <==> HasCycle(k)
    ensures errors == 0
    ensures !reported ==> Ordered(k, rank) && k.defs.Keys <= rank.Keys
  {
    var c := new Checker(k);
    assert forall i :: 0 <= i < |order| ==> order[i] in order;
    UniverseClosed(k);
    errors := c.CheckEach(order);
    reported := c.reports > 0;
    rank := c.rank;
    if !reported {
      assert c.checked - c.check == c.checked;
      OrderedMeansAcyclic(k, rank);
    }
  }

  // ----- what is followed, and what is read -----

  lemma {:induction false} CheckedByPropsAt(props: seq<Property>, t: Symbol)
    ensures t in CheckedByProps(props) <==>
            exists i :: 0 <= i < |props| && !props[i].Select?
                        && (t in SymbolsOfOpt(props[i].visible) || (props[i].Default? && Contains(props[i].value, t)))
  {
    if props != [] {
      CheckedByPropsAt(props[1..], t);
      assert forall i :: 0 < i < |props| ==> props[i] == props[1..][i - 1];
    }
  }

  lemma {:induction false} ReadByPropsAt(props: seq<Property>, t: Symbol)
    ensures t in ReadByProps(props) <==>
            exists i :: 0 <= i < |props| && (props[i].Prompt? || props[i].Default?)
                        && (t in SymbolsOfOpt(props[i].visible) || (props[i].Default? && Contains(props[i].value, t)))
  {
    if props != [] {
      ReadByPropsAt(props[1..], t);
      assert forall i :: 0 < i < |props| ==> props[i] == props[1..][i - 1];
    }
  }

  /** The search follows the select bound of a symbol, and the conditions of all its properties but selects, with the
      values of defaults. */
  lemma FollowsExactly(k: Kconfig, s: Symbol, t: Symbol)
    requires s in k.defs
    ensures var d := k.defs[s];
            Edge(k, s, t) <==>
            || (d.revDep.Some? && Contains(d.revDep.value, t))
            || exists i :: 0 <= i < |d.props| && !d.props[i].Select?
                           && ((d.props[i].visible.Some? && Contains(d.props[i].visible.value, t))
                               || (d.props[i].Default? && Contains(d.props[i].value, t)))
  {
    CheckedByPropsAt(k.defs[s].props, t);
  }

  /** The calculation reads the select bound, the direct dependency, and the prompts and defaults only. */
  lemma ReadsExactly(k: Kconfig, s: Symbol, t: Symbol)
    requires s in k.defs
    ensures var d := k.defs[s];
            DependsOn(k, s, t) <==>
            || (d.revDep.Some? && Contains(d.revDep.value, t))
            || (d.dirDep.Some? && Contains(d.dirDep.value, t))
            || exists i :: 0 <= i < |d.props| && (d.props[i].Prompt? || d.props[i].Default?)
                           && ((d.props[i].visible.Some? && Contains(d.props[i].visible.value, t))
                               || (d.props[i].Default? && Contains(d.props[i].value, t)))
  {
    ReadByPropsAt(k.defs[s].props, t);
  }

  /** Nothing but prompts, defaults, selects and P_SYMBOL, the last with conditions on what the symbol reads anyhow */
  ghost predicate PlainProps(k: Kconfig) {
    forall s, p, t {:trigger DependsOn(k, s, t), p in k.defs[s].props} ::
      s in k.defs && p in k.defs[s].props && t in SymbolsOfOpt(p.visible) && t in k.defs ==>
        !p.OtherProp? && (p.Defined? ==> DependsOn(k, s, t))
  }

  /** In such a database the search follows nothing that is not read. */
  lemma FollowedIsRead(k: Kconfig, s: Symbol, t: Symbol)
    requires PlainProps(k) && Edge(k, s, t) && t in k.defs
    ensures DependsOn(k, s, t)
  {
    CheckedByPropsAt(k.defs[s].props, t);
    ReadByPropsAt(k.defs[s].props, t);
    assert forall i :: 0 <= i < |k.defs[s].props| ==> k.defs[s].props[i] in k.defs[s].props;
  }

  /** So a recursion it finds is one of the calculation. */
  lemma CycleIsRead(k: Kconfig, rank: map<Symbol, nat>)
    requires PlainProps(k) && Ranked(k, rank)
    ensures !HasCycle(k)
  {
    var above := map s | s in Universe(k) :: if s in k.defs then rank[s] + 1 else 0;
    forall s, t | s in above && Edge(k, s, t) ensures t in above && above[t] < above[s] {
      UniverseClosed(k);
      assert t in Follows(k, s);
      if t in k.defs {
        FollowedIsRead(k, s, t);
      }
    }
    OrderedMeansAcyclic(k, above);
  }

  // ----- from the search to the calculation -----

  /** The symbols the direct dependency mentions are also followed through some property. */
  ghost predicate DirDepFollowed(k: Kconfig) {
    forall s, t {:trigger Edge(k, s, t)} ::
      s in k.defs && t in k.defs && t in SymbolsOfOpt(k.defs[s].dirDep) ==> Edge(k, s, t)
  }

  lemma {:induction false} ReadIsChecked(props: seq<Property>)
    ensures ReadByProps(props) <= CheckedByProps(props)
  {
    if props != [] {
      ReadIsChecked(props[1..]);
    }
  }

  /** Then an order without reports is a rank for the calculation of values. */
  lemma CheckedMeansRanked(k: Kconfig, rank: map<Symbol, nat>)
    requires Closed(k) && DirDepFollowed(k) && Ordered(k, rank) && k.defs.Keys <= rank.Keys
    ensures Ranked(k, map s | s in k.defs :: rank[s])
  {
    forall s, t | DependsOn(k, s, t) && t in k.defs ensures rank[t] < rank[s] {
      ReadIsChecked(k.defs[s].props);
      assert Edge(k, s, t);
    }
  }
}
