/** From a parsed configuration database to the values of its symbols: the cycle check that ends
    conf_parse in zconf.y, and the calculation of all symbols. */
module Engine {
  import opened Exprs
  import opened Symbols
  import opened Evaluators
  import opened CheckDeps
  import opened Databases

  /** The values are those of the one solution of the database. */
  ghost predicate OnlySolution(k: Kconfig, values: Valuation) {
    && (exists w :: IsSolution(k, w) && Values(w) == values)
    && (forall w :: IsSolution(k, w) ==> Values(w) == values)
  }

  lemma SolutionExists(k: Kconfig, rank: map<Symbol, nat>) returns (w: map<Symbol, Outcome>)
    requires Closed(k) && Ranked(k, rank)
    ensures IsSolution(k, w)
  {
    w := SpecAll(k, rank);
    SpecSolves(k, rank);
  }

  lemma {:induction false} SolutionsAgree(k: Kconfig, rank: map<Symbol, nat>, w: map<Symbol, Outcome>,
                                          w': map<Symbol, Outcome>, s: Symbol)
    requires Closed(k) && Ranked(k, rank) && IsSolution(k, w) && IsSolution(k, w') && s in k.defs
    ensures w[s] == w'[s]
  {
    SolutionUnique(k, rank, w, s);
    SolutionUnique(k, rank, w', s);
  }

  lemma SolutionIsOnly(k: Kconfig, rank: map<Symbol, nat>, w: map<Symbol, Outcome>)
    requires Closed(k) && Ranked(k, rank) && IsSolution(k, w)
    ensures OnlySolution(k, Values(w))
  {
    forall w' | IsSolution(k, w') ensures Values(w') == Values(w) {
      forall s | s in k.defs ensures w'[s] == w[s] {
        SolutionsAgree(k, rank, w', w, s);
      }
    }
  }

  /** The dependencies that the calculation follows have no cycle. */
  ghost predicate Acyclic(k: Kconfig) {
    exists rank :: Ranked(k, rank)
  }

  /** The target of the calculation, if there is one */
  lemma FindGoal(k: Kconfig) returns (goal: Option<Goal>)
    requires Closed(k)
    ensures GoalOk(k, goal) && (Acyclic(k) ==> goal.Some? && OnlySolution(k, Values(goal.value.w)))
  {
    goal := None;
    if rank :| Ranked(k, rank) {
      var w := SolutionExists(k, rank);
      SolutionIsOnly(k, rank, w);
      goal := Some(Goal(rank, w));
    }
  }

  lemma CheckedMeansAcyclic(k: Kconfig, checked: map<Symbol, nat>)
    requires Closed(k) && Finalized(k) && Ordered(k, checked) && k.defs.Keys <= checked.Keys
    ensures Acyclic(k)
  {
    FinalizedIsFollowed(k);
    CheckedMeansRanked(k, checked);
  }

  lemma NoFalseAlarm(k: Kconfig)
    requires PlainProps(k) && HasCycle(k)
    ensures !Acyclic(k)
  {
    if rank :| Ranked(k, rank) {
      CycleIsRead(k, rank);
    }
  }

  method CalculateAll(k: Kconfig, order: seq<Symbol>, ghost goal: Option<Goal>) returns (values: Valuation)
    requires Closed(k) && GoalOk(k, goal)
    requires forall s :: s in order <==> s in k.defs
    ensures values.Keys == k.defs.Keys && (goal.Some? ==> values == Values(goal.value.w))
  {
    var t := new SymbolTable(k);
    t.CalcAll(order, goal);
    values := map s | s in t.st :: t.st[s].out.curr;
  }

  /** Checks all symbols of a database that menu_finalize has prepared and calculates them, in whatever order they
      stand in the symbol table. The check reports exactly the databases in which the dependencies it follows have
      a cycle. Without a report there is none in what the calculation reads, and every symbol gets its only
      possible value; so it does whenever the calculation meets no cycle. In any case the calculation ends. */
  method CheckAndCalculate(k: Kconfig, order: seq<Symbol>) returns (reported: bool, values: Valuation)
    requires Closed(k) && Finalized(k) && forall s :: s in order <==> s in k.defs
    ensures reported <==> HasCycle(k)
    ensures !reported ==> Acyclic(k)
    ensures PlainProps(k) ==> (reported <==> !Acyclic(k))
    ensures values.Keys == k.defs.Keys && (Acyclic(k) ==> OnlySolution(k, values))
  {
    ghost var checked;
    var errors;
    reported, errors, checked := CheckAll(k, order);
    if !reported {
      CheckedMeansAcyclic(k, checked);
    } else if PlainProps(k) {
      NoFalseAlarm(k);
    }
    ghost var goal := FindGoal(k);
    values := CalculateAll(k, order, goal);
  }
}
