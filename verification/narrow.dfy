/** The conditions of menu entries, and how menu_finalize hands them down (menu.c). */
module Narrowing {
  import opened Exprs
  import opened Transforms
  import opened Dups
  import opened MenuLinks

  /** dep, and prompt->visible.expr, of every entry */
  datatype Conditions = Conditions(dep: map<Entry, Option<Expr>>, visible: map<Entry, Option<Expr>>) {
    function Dep(m: Entry): Option<Expr> { if m in dep then dep[m] else None }
    function Visible(m: Entry): Option<Expr> { if m in visible then visible[m] else None }
    function Set(m: Entry, d: Option<Expr>, v: Option<Expr>): Conditions {
      Conditions(dep[m := d], visible[m := v])
    }
  }

  // ----- the conditions menu_finalize hands down -----

  /** expr_alloc_and: a missing expression is y. */
  function AllocAnd(a: Option<Expr>, b: Option<Expr>): Option<Expr> {
    if a.None? then b else if b.None? then a else Some(Bin(AndOp, a.value, b.value))
  }

  function TransformOpt(e: Option<Expr>): Option<Expr> {
    if e.Some? then Some(Transform(e.value)) else None
  }

  /** expr_eliminate_dups(expr_alloc_and(expr_copy(above), expr_transform(own))) */
  function Narrow(above: Option<Expr>, own: Option<Expr>): Option<Expr> {
    var e := AllocAnd(above, TransformOpt(own));
    if e.Some? then Some(EliminateDups(e.value)) else None
  }

  /** The same for the condition of a property; that of a non-tristate symbol is then rewritten once more. */
  function NarrowProp(sym: Option<Symbol>, above: Option<Expr>, own: Option<Expr>): Option<Expr> {
    var e := Narrow(above, own);
    if e.Some? && sym.Some? && TypeOf(sym.value) != STristate then Some(TransBool(e.value)) else e
  }

  function SymOf(syms: map<Entry, Symbol>, m: Entry): Option<Symbol> {
    if m in syms then Some(syms[m]) else None
  }

  /** What an entry asks of the entries below it */
  function Asks(prompts: set<Entry>, c: Conditions, m: Entry): Option<Expr> {
    if m in prompts then c.Visible(m) else c.Dep(m)
  }

  /** Entries have the conditions that come from their own and those of the entry above them. */
  ghost predicate Narrowed(syms: map<Entry, Symbol>, above: Option<Expr>, c: Conditions, d: Conditions, m: Entry) {
    && d.Dep(m) == Narrow(above, c.Dep(m))
    && d.Visible(m) == NarrowProp(SymOf(syms, m), d.Dep(m), c.Visible(m))
  }

  function NarrowEntry(syms: map<Entry, Symbol>, above: Option<Expr>, c: Conditions, m: Entry): (d: Conditions)
    ensures Narrowed(syms, above, c, d, m) && SameCondsOutside(c, d, {m})
  {
    var dep := Narrow(above, c.Dep(m));
    c.Set(m, dep, NarrowProp(SymOf(syms, m), dep, c.Visible(m)))
  }

  ghost predicate AllNarrowed(syms: map<Entry, Symbol>, prompts: set<Entry>, above: Option<Expr>,
                              c: Conditions, d: Conditions, f: Forest)
    decreases f
  {
    match f
    case Nil => true
    case Cons(m, k, r) =>
      && Narrowed(syms, above, c, d, m)
      && AllNarrowed(syms, prompts, Asks(prompts, d, m), c, d, k)
      && AllNarrowed(syms, prompts, above, c, d, r)
  }

  /** The same for the entries below those of a list */
  ghost predicate KidsNarrowed(syms: map<Entry, Symbol>, prompts: set<Entry>, c: Conditions, d: Conditions, f: Forest) {
    match f
    case Nil => true
    case Cons(m, k, r) =>
      && AllNarrowed(syms, prompts, Asks(prompts, d, m), c, d, k)
      && KidsNarrowed(syms, prompts, c, d, r)
  }

  /** ... and for those of the list alone */
  ghost predicate TopsNarrowed(syms: map<Entry, Symbol>, above: Option<Expr>, c: Conditions, d: Conditions, f: Forest) {
    f.Cons? ==> Narrowed(syms, above, c, d, f.m) && TopsNarrowed(syms, above, c, d, f.rest)
  }

  ghost predicate SameConds(c: Conditions, d: Conditions, s: set<Entry>) {
    forall m :: m in s ==> c.Dep(m) == d.Dep(m) && c.Visible(m) == d.Visible(m)
  }

  ghost predicate SameCondsOutside(c: Conditions, d: Conditions, s: set<Entry>) {
    forall m :: m !in s ==> c.Dep(m) == d.Dep(m) && c.Visible(m) == d.Visible(m)
  }

  lemma {:induction false} AllNarrowedFrame(syms: map<Entry, Symbol>, prompts: set<Entry>, above: Option<Expr>,
                                            c: Conditions, d: Conditions, c': Conditions, d': Conditions, f: Forest)
    requires AllNarrowed(syms, prompts, above, c, d, f) && SameConds(c, c', Nodes(f)) && SameConds(d, d', Nodes(f))
    ensures AllNarrowed(syms, prompts, above, c', d', f)
    decreases f
  {
    if f.Cons? {
      AllNarrowedFrame(syms, prompts, Asks(prompts, d, f.m), c, d, c', d', f.kids);
      AllNarrowedFrame(syms, prompts, above, c, d, c', d', f.rest);
    }
  }

  lemma {:induction false} KidsNarrowedFrame(syms: map<Entry, Symbol>, prompts: set<Entry>,
                                             c: Conditions, d: Conditions, c': Conditions, d': Conditions, f: Forest)
    requires KidsNarrowed(syms, prompts, c, d, f) && SameConds(c, c', Below(f)) && SameConds(d, d', Nodes(f))
    ensures KidsNarrowed(syms, prompts, c', d', f)
  {
    if f.Cons? {
      BelowNodes(f.rest);
      AllNarrowedFrame(syms, prompts, Asks(prompts, d, f.m), c, d, c', d', f.kids);
      KidsNarrowedFrame(syms, prompts, c, d, c', d', f.rest);
    }
  }

  lemma {:induction false} KidsNarrowedAppend(syms: map<Entry, Symbol>, prompts: set<Entry>,
                                              c: Conditions, d: Conditions, a: Forest, b: Forest)
    requires KidsNarrowed(syms, prompts, c, d, a) && KidsNarrowed(syms, prompts, c, d, b)
    ensures KidsNarrowed(syms, prompts, c, d, Append(a, b))
  {
    if a.Cons? {
      KidsNarrowedAppend(syms, prompts, c, d, a.rest, b);
    }
  }

  /** The entries of a list and the entries below them, one after the other */
  lemma {:induction false} NarrowBoth(syms: map<Entry, Symbol>, prompts: set<Entry>, above: Option<Expr>,
                                      c: Conditions, d: Conditions, d': Conditions, f: Forest)
    requires Apart(f) && TopsNarrowed(syms, above, c, d, f) && KidsNarrowed(syms, prompts, d, d', f)
    requires SameConds(c, d, Below(f)) && SameConds(d, d', Tops(f))
    ensures AllNarrowed(syms, prompts, above, c, d', f)
  {
    if f.Cons? {
      AllNarrowedFrame(syms, prompts, Asks(prompts, d', f.m), d, d', c, d', f.kids);
      NarrowBoth(syms, prompts, above, c, d, d', f.rest);
    }
  }

  lemma TopsStep(syms: map<Entry, Symbol>, above: Option<Expr>, c: Conditions, d: Conditions, d': Conditions,
                 done: Forest, m: Entry, kids: Forest, rest: Forest)
    requires Apart(Append(done, Cons(m, kids, rest)))
    requires TopsNarrowed(syms, above, c, d, done) && SameCondsOutside(c, d, Tops(done))
    requires Narrowed(syms, above, c, d', m) && SameCondsOutside(d, d', {m})
    ensures TopsNarrowed(syms, above, c, d', Append(done, Cons(m, kids, Nil)))
    ensures SameCondsOutside(c, d', Tops(Append(done, Cons(m, kids, Nil))))
  {
    AppendApart(done, Cons(m, kids, rest));
    AppendTops(done, Cons(m, kids, Nil));
    BelowNodes(done);
    TopsFrame(syms, above, c, d, d', done);
    TopsAppend(syms, above, c, d', done, Cons(m, kids, Nil));
  }

  lemma {:induction false} TopsFrame(syms: map<Entry, Symbol>, above: Option<Expr>,
                                     c: Conditions, d: Conditions, d': Conditions, f: Forest)
    requires TopsNarrowed(syms, above, c, d, f) && SameConds(d, d', Tops(f))
    ensures TopsNarrowed(syms, above, c, d', f)
  {
    if f.Cons? {
      TopsFrame(syms, above, c, d, d', f.rest);
    }
  }

  lemma {:induction false} TopsAppend(syms: map<Entry, Symbol>, above: Option<Expr>,
                                      c: Conditions, d: Conditions, a: Forest, b: Forest)
    requires TopsNarrowed(syms, above, c, d, a) && TopsNarrowed(syms, above, c, d, b)
    ensures TopsNarrowed(syms, above, c, d, Append(a, b))
  {
    if a.Cons? {
      TopsAppend(syms, above, c, d, a.rest, b);
    }
  }
}
