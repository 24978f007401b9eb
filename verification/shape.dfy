/** The shape menu_finalize gives a tree, as a function of the conditions it ends with (menu.c). */
module Shapes {
  import opened Exprs
  import opened Slots
  import opened Symbols
  import opened Adoption
  import opened LiteralChains
  import opened MenuLinks
  import opened Narrowing
  import opened Placements

  /** What ends up below the first entry of a list, and the entries that stay behind it */
  function Finished(syms: map<Entry, Symbol>, prompts: set<Entry>, d: Conditions, f: Forest): (r: (Forest, Forest))
    requires f.Cons?
    ensures Count(r.1) < Count(f)
    decreases Count(f), 1
  {
    var g := Collected(syms, prompts, d, f);
    (Flattened(prompts, g.0), g.1)
  }

  /** The same before entries without a prompt are dissolved: its own list, or the entries it adopts. */
  function Collected(syms: map<Entry, Symbol>, prompts: set<Entry>, d: Conditions, f: Forest): (r: (Forest, Forest))
    requires f.Cons?
    ensures Count(r.1) < Count(f)
    decreases Count(f), 0
  {
    if f.kids.Cons? then (FinishedList(syms, prompts, d, f.kids), f.rest)
    else if f.m in syms then Adopted(syms, prompts, d, f.m, f.rest)
    else (Nil, f.rest)
  }

  /** The entries that x adopts, as long as they pass the test, and those left behind */
  function Adopted(syms: map<Entry, Symbol>, prompts: set<Entry>, d: Conditions, x: Entry, r: Forest)
    : (a: (Forest, Forest))
    ensures Count(a.1) <= Count(r)
    decreases Count(r), 2
  {
    if r == Nil || !AdoptedBy(syms, prompts, d, x, r.m) then (Nil, r)
    else
      var k := Finished(syms, prompts, d, r);
      var a := Adopted(syms, prompts, d, x, k.1);
      (Cons(r.m, k.0, a.0), a.1)
  }

  /** A list whose entries are finalized one after the other */
  function FinishedList(syms: map<Entry, Symbol>, prompts: set<Entry>, d: Conditions, f: Forest): Forest
    decreases Count(f), 2
  {
    if f == Nil then Nil
    else
      var k := Finished(syms, prompts, d, f);
      Cons(f.m, k.0, FinishedList(syms, prompts, d, k.1))
  }

  // ----- no entry is lost, and adoption goes as far as the test allows -----

  lemma {:induction false} FlattenedPreorder(prompts: set<Entry>, f: Forest)
    ensures Preorder(Flattened(prompts, f)) == Preorder(f)
    decreases Count(f)
  {
    if f.Cons? {
      FlattenedPreorder(prompts, FlattenFirst(prompts, f).rest);
      AppendPreorder(f.kids, f.rest);
      SeqAssoc([f.m], Preorder(f.kids), Preorder(f.rest));
    }
  }

  lemma {:induction false} FinishedPreorder(syms: map<Entry, Symbol>, prompts: set<Entry>, d: Conditions, f: Forest)
    requires f.Cons?
    ensures var r := Finished(syms, prompts, d, f);
            [f.m] + Preorder(r.0) + Preorder(r.1) == Preorder(f)
    decreases Count(f), 1
  {
    FlattenedPreorder(prompts, Collected(syms, prompts, d, f).0);
    if f.kids.Cons? {
      ListPreorder(syms, prompts, d, f.kids);
    } else if f.m in syms {
      AdoptionMaximal(syms, prompts, d, f.m, f.rest);
      var a := Adopted(syms, prompts, d, f.m, f.rest);
      SeqAssoc([f.m], Preorder(a.0), Preorder(a.1));
    }
  }

  /** The entries that x adopts pass the test and mention its symbol, the first one left behind fails the test, and
      none is lost. */
  lemma {:induction false} AdoptionMaximal(syms: map<Entry, Symbol>, prompts: set<Entry>, d: Conditions,
                                           x: Entry, r: Forest)
    ensures var a := Adopted(syms, prompts, d, x, r);
            && (forall y :: y in Tops(a.0) ==> AdoptedBy(syms, prompts, d, x, y))
            && (forall y :: y in Tops(a.0) ==>
                  x in syms && Asks(prompts, d, y).Some? && syms[x] in SymbolsOf(Asks(prompts, d, y).value))
            && (a.1.Cons? ==> !AdoptedBy(syms, prompts, d, x, a.1.m))
            && Preorder(a.0) + Preorder(a.1) == Preorder(r)
    decreases Count(r), 2
  {
    if r.Cons? && AdoptedBy(syms, prompts, d, x, r.m) {
      var k := Finished(syms, prompts, d, r);
      var a := Adopted(syms, prompts, d, x, k.1);
      FinishedPreorder(syms, prompts, d, r);
      AdoptionMaximal(syms, prompts, d, x, k.1);
      SeqAssoc([r.m] + Preorder(k.0), Preorder(a.0), Preorder(a.1));
    }
  }

  /** An entry is adopted if what it asks has the symbol, or a test that the symbol is not n, for an operand. */
  lemma AdoptedWhenNeeded(syms: map<Entry, Symbol>, prompts: set<Entry>, d: Conditions, x: Entry, y: Entry, p: Path)
    requires x in syms && Asks(prompts, d, y).Some?
    requires var e := Asks(prompts, d, y).value; Operand(AndOp, e, p) && Needs(At(AndOp, e, p), syms[x])
    ensures AdoptedBy(syms, prompts, d, x, y)
  {
    DependsExactly(Asks(prompts, d, y).value, syms[x]);
    DependsMentions(Asks(prompts, d, y).value, syms[x]);
  }

  /** An entry without a prompt adopts every next entry that mentions its symbol. */
  lemma PromptlessAdopts(syms: map<Entry, Symbol>, prompts: set<Entry>, d: Conditions, x: Entry, y: Entry)
    requires x in syms && x !in prompts
    ensures AdoptedBy(syms, prompts, d, x, y) <==>
            Asks(prompts, d, y).Some? && syms[x] in SymbolsOf(Asks(prompts, d, y).value)
  {
    if Asks(prompts, d, y).Some? {
      AdoptsWithoutPrompt(syms[x], Asks(prompts, d, y).value);
    }
  }

  lemma {:induction false} DependsMentions(e: Expr, s: Symbol)
    requires Depends(e, s)
    ensures Contains(e, s)
  {
    if e.Bin? {
      if Depends(e.left, s) {
        DependsMentions(e.left, s);
      } else {
        DependsMentions(e.right, s);
      }
    }
  }

  /** Adoption stops at an entry that does not mention the symbol, and takes every entry in front that needs it. */
  lemma AdoptionTakes(syms: map<Entry, Symbol>, prompts: set<Entry>, d: Conditions, x: Entry, r: Forest)
    requires x in syms && r.Cons?
    ensures var a, asks := Adopted(syms, prompts, d, x, r), Asks(prompts, d, r.m);
            && (asks.None? || syms[x] !in SymbolsOf(asks.value) ==> a == (Nil, r))
            && (asks.Some? && (exists p :: Operand(AndOp, asks.value, p) && Needs(At(AndOp, asks.value, p), syms[x]))
                ==> a.0.Cons? && a.0.m == r.m)
  {
    var asks := Asks(prompts, d, r.m);
    if asks.Some? {
      if p :| Operand(AndOp, asks.value, p) && Needs(At(AndOp, asks.value, p), syms[x]) {
        AdoptedWhenNeeded(syms, prompts, d, x, r.m, p);
      }
    }
  }

  lemma {:induction false} ListPreorder(syms: map<Entry, Symbol>, prompts: set<Entry>, d: Conditions, f: Forest)
    ensures Preorder(FinishedList(syms, prompts, d, f)) == Preorder(f)
    decreases Count(f), 2
  {
    if f.Cons? {
      FinishedPreorder(syms, prompts, d, f);
      ListPreorder(syms, prompts, d, Finished(syms, prompts, d, f).1);
    }
  }

  // ----- while conditions still change -----

  /** The conditions agree, except below the entries that are yet to be finalized. */
  ghost predicate Settled(c: Conditions, d: Conditions, nodes: set<Entry>, todo: Forest) {
    forall m :: m in nodes && m !in Below(todo) ==> c.Dep(m) == d.Dep(m) && c.Visible(m) == d.Visible(m)
  }

  /** Whatever becomes of the conditions below rest, this is what is finished. */
  ghost predicate FinishesAs(syms: map<Entry, Symbol>, prompts: set<Entry>, c: Conditions,
                             f: Forest, k: Forest, rest: Forest)
    requires f.Cons?
  {
    forall d :: Settled(c, d, Nodes(f), rest) ==> Finished(syms, prompts, d, f) == (k, rest)
  }

  ghost predicate CollectsAs(syms: map<Entry, Symbol>, prompts: set<Entry>, c: Conditions,
                             f: Forest, k: Forest, rest: Forest)
    requires f.Cons?
  {
    forall d :: Settled(c, d, Nodes(f), rest) ==> Collected(syms, prompts, d, f) == (k, rest)
  }

  /** The first entries of the list k end up as done, whatever becomes of the others. */
  ghost predicate ListsAs(syms: map<Entry, Symbol>, prompts: set<Entry>, c: Conditions,
                          k: Forest, done: Forest, todo: Forest) {
    forall d :: Settled(c, d, Nodes(k), todo) ==>
      FinishedList(syms, prompts, d, k) == Append(done, FinishedList(syms, prompts, d, todo))
  }

  /** The same for the entries that x adopts from the list r */
  ghost predicate AdoptsAs(syms: map<Entry, Symbol>, prompts: set<Entry>, c: Conditions,
                           x: Entry, r: Forest, done: Forest, todo: Forest) {
    forall d :: Settled(c, d, {x} + Nodes(r), todo) ==>
      var a := Adopted(syms, prompts, d, x, todo);
      Adopted(syms, prompts, d, x, r) == (Append(done, a.0), a.1)
  }

  lemma FlattenedAs(syms: map<Entry, Symbol>, prompts: set<Entry>, c: Conditions, f: Forest, k: Forest, rest: Forest)
    requires f.Cons? && CollectsAs(syms, prompts, c, f, k, rest)
    ensures FinishesAs(syms, prompts, c, f, Flattened(prompts, k), rest)
  {
  }

  /** One more entry of the list k is finalized. */
  lemma ListsStep(syms: map<Entry, Symbol>, prompts: set<Entry>, c: Conditions, c': Conditions, k: Forest,
                  seen: Forest, done: Forest, todo: Forest, kids: Forest, taken: Forest, rest: Forest)
    requires k == Append(seen, todo) && todo.Cons? && todo.rest == Append(taken, rest)
    requires ListsAs(syms, prompts, c, k, done, todo) && FinishesAs(syms, prompts, c', todo, kids, rest)
    requires SameCondsOutside(c, c', Nodes(todo.kids) + Below(taken))
    ensures ListsAs(syms, prompts, c', k, Append(done, Cons(todo.m, kids, Nil)), rest)
  {
    AppendNodes(seen, todo);
    AppendTops(taken, rest);
    forall d | Settled(c', d, Nodes(k), rest)
      ensures FinishedList(syms, prompts, d, k)
           == Append(Append(done, Cons(todo.m, kids, Nil)), FinishedList(syms, prompts, d, rest))
    {
      StillSettled(c, c', d, Nodes(k), todo, taken, rest);
      assert Finished(syms, prompts, d, todo) == (kids, rest);
      AppendAssoc(done, Cons(todo.m, kids, Nil), FinishedList(syms, prompts, d, rest));
    }
  }

  lemma StillSettled(c: Conditions, c': Conditions, d: Conditions, nodes: set<Entry>,
                     todo: Forest, taken: Forest, rest: Forest)
    requires todo.Cons? && todo.rest == Append(taken, rest) && Nodes(todo) <= nodes
    requires SameCondsOutside(c, c', Nodes(todo.kids) + Below(taken)) && Settled(c', d, nodes, rest)
    ensures Settled(c, d, nodes, todo) && Settled(c', d, Nodes(todo), rest)
  {
    AppendTops(taken, rest);
  }

  /** One more entry is adopted. */
  lemma AdoptsStep(syms: map<Entry, Symbol>, prompts: set<Entry>, c: Conditions, c': Conditions, x: Entry, r: Forest,
                   seen: Forest, done: Forest, todo: Forest, kids: Forest, taken: Forest, rest: Forest)
    requires r == Append(seen, todo) && Apart(Cons(x, Nil, r)) && todo.Cons? && todo.rest == Append(taken, rest)
    requires AdoptsAs(syms, prompts, c, x, r, done, todo) && FinishesAs(syms, prompts, c', todo, kids, rest)
    requires SameCondsOutside(c, c', Nodes(todo.kids) + Below(taken)) && AdoptedBy(syms, prompts, c, x, todo.m)
    ensures AdoptsAs(syms, prompts, c', x, r, Append(done, Cons(todo.m, kids, Nil)), rest)
  {
    forall d | Settled(c', d, {x} + Nodes(r), rest)
      ensures var a := Adopted(syms, prompts, d, x, rest);
              Adopted(syms, prompts, d, x, r) == (Append(Append(done, Cons(todo.m, kids, Nil)), a.0), a.1)
    {
      AppendNodes(seen, todo);
      StillSettled(c, c', d, {x} + Nodes(r), todo, taken, rest);
      SameTest(syms, prompts, c, d, x, r, seen, todo);
      assert Finished(syms, prompts, d, todo) == (kids, rest);
      AppendAssoc(done, Cons(todo.m, kids, Nil), Adopted(syms, prompts, d, x, rest).0);
    }
  }

  /** The test of x on the entry in front gives the same as in the end. */
  lemma SameTest(syms: map<Entry, Symbol>, prompts: set<Entry>, c: Conditions, d: Conditions, x: Entry, r: Forest,
                 seen: Forest, todo: Forest)
    requires r == Append(seen, todo) && Apart(Cons(x, Nil, r)) && todo.Cons? && Settled(c, d, {x} + Nodes(r), todo)
    ensures AdoptedBy(syms, prompts, c, x, todo.m) == AdoptedBy(syms, prompts, d, x, todo.m)
  {
    AppendApart(seen, todo);
    AppendNodes(seen, todo);
    BelowNodes(todo);
  }

  /** The entry in front fails the test, or there is none. */
  lemma AdoptsEnd(syms: map<Entry, Symbol>, prompts: set<Entry>, c: Conditions, x: Entry, r: Forest,
                  seen: Forest, done: Forest, todo: Forest)
    requires r == Append(seen, todo) && Apart(Cons(x, Nil, r)) && x in syms
    requires AdoptsAs(syms, prompts, c, x, r, done, todo)
    requires todo.Cons? ==> !AdoptedBy(syms, prompts, c, x, todo.m)
    ensures CollectsAs(syms, prompts, c, Cons(x, Nil, r), done, todo)
  {
    AppendNil(done);
    forall d | Settled(c, d, Nodes(Cons(x, Nil, r)), todo)
      ensures Collected(syms, prompts, d, Cons(x, Nil, r)) == (done, todo)
    {
      assert {x} + Nodes(r) == Nodes(Cons(x, Nil, r));
      if todo.Cons? {
        SameTest(syms, prompts, c, d, x, r, seen, todo);
      }
      assert Adopted(syms, prompts, d, x, todo) == (Nil, todo);
    }
  }

  /** The whole list is finalized. */
  lemma ListsEnd(syms: map<Entry, Symbol>, prompts: set<Entry>, c: Conditions, m: Entry, k: Forest, done: Forest,
                 rest: Forest)
    requires k.Cons? && Apart(Cons(m, k, rest)) && ListsAs(syms, prompts, c, k, done, Nil)
    ensures CollectsAs(syms, prompts, c, Cons(m, k, rest), done, rest)
  {
    AppendNil(done);
    BelowNodes(rest);
    forall d | Settled(c, d, Nodes(Cons(m, k, rest)), rest)
      ensures Collected(syms, prompts, d, Cons(m, k, rest)) == (done, rest)
    {
      assert Settled(c, d, Nodes(k), Nil);
    }
  }
}
