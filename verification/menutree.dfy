/** Restructuring the menu tree (menu_finalize in menu.c), without choices. */
module MenuTrees {
  import opened Exprs
  import opened MenuLinks
  import opened Narrowing
  import opened Placements
  import opened Shapes

  // ----- what a call of menu_finalize does to the list it starts -----

  /** k' is what is below the first entry afterwards; the entries in rest are untouched. */
  ghost predicate FinalLinks(prompts: set<Entry>, h: Links, g: Links, f: Forest, parent: Ptr,
                             k': Forest, taken: Forest, rest: Forest)
    requires f.Cons?
  {
    && f.rest == Append(taken, rest)
    && Preorder(k') == Preorder(f.kids) + Preorder(taken)
    && Chain(g, Cons(f.m, k', rest), To(f.m), parent, Null) && AllFlat(prompts, k')
    && SameOutside(h, g, {f.m} + Nodes(f.kids) + Nodes(taken))
  }

  ghost predicate FinalConds(syms: map<Entry, Symbol>, prompts: set<Entry>, c: Conditions, d: Conditions,
                             m: Entry, k: Forest, taken: Forest) {
    && AllNarrowed(syms, prompts, Asks(prompts, d, m), c, d, k) && KidsNarrowed(syms, prompts, c, d, taken)
    && SameCondsOutside(c, d, Nodes(k) + Below(taken))
  }

  /** On the way along a list: seen as it was, and done as it is now. */
  ghost predicate ListLinks(prompts: set<Entry>, h: Links, g: Links, seen: Forest, done: Forest, todo: Forest,
                            head: Ptr, parent: Ptr, cur: Ptr) {
    && Preorder(done) == Preorder(seen)
    && Walk(g, done, todo, head, parent, cur) && KidsFlat(prompts, done)
    && SameOutside(h, g, Nodes(seen))
  }

  ghost predicate ListConds(syms: map<Entry, Symbol>, prompts: set<Entry>, c: Conditions, d: Conditions, seen: Forest) {
    KidsNarrowed(syms, prompts, c, d, seen) && SameCondsOutside(c, d, Below(seen))
  }

  lemma FinalPreorder(h: Links, g: Links, prompts: set<Entry>, f: Forest, parent: Ptr,
                      k': Forest, taken: Forest, rest: Forest)
    requires f.Cons? && FinalLinks(prompts, h, g, f, parent, k', taken, rest)
    ensures Preorder(Cons(f.m, k', rest)) == Preorder(f)
    ensures f == Append(Cons(f.m, f.kids, taken), rest)
    ensures Preorder(Cons(f.m, f.kids, taken)) == Preorder(Cons(f.m, k', Nil))
  {
    AppendPreorder(taken, rest);
    SeqAssoc([f.m], Preorder(f.kids), Preorder(taken));
    SeqAssoc([f.m] + Preorder(f.kids), Preorder(taken), Preorder(rest));
  }

  lemma SeenStep(seen: Forest, mine: Forest, rest: Forest, f: Forest)
    requires f == Append(mine, rest)
    ensures Append(Append(seen, mine), rest) == Append(seen, f)
    ensures Preorder(Append(seen, mine)) == Preorder(seen) + Preorder(mine)
    ensures Count(f) == Count(mine) + Count(rest)
  {
    AppendAssoc(seen, mine, rest);
    AppendPreorder(seen, mine);
    AppendCount(mine, rest);
  }

  lemma WalkStep(prompts: set<Entry>, h: Links, g: Links, done: Forest, f: Forest,
                 head: Ptr, parent: Ptr, cur: Ptr, k': Forest, taken: Forest, rest: Forest)
    requires f.Cons? && Walk(h, done, f, head, parent, cur)
    requires FinalLinks(prompts, h, g, f, parent, k', taken, rest)
    ensures cur == To(f.m) && Walk(g, Append(done, Cons(f.m, k', Nil)), rest, head, parent, g.Next(f.m))
  {
    var f' := Cons(f.m, k', rest);
    FinalPreorder(h, g, prompts, f, parent, k', taken, rest);
    AppendNodes(Cons(f.m, f.kids, taken), rest);
    Rearrange(h, g, done, f, f', head, parent, cur);
    Advance(g, done, f', head, parent, cur);
  }

  lemma LinksStep(prompts: set<Entry>, h0: Links, h: Links, g: Links, seen: Forest, done: Forest, f: Forest,
                  head: Ptr, parent: Ptr, cur: Ptr, k': Forest, taken: Forest, rest: Forest)
    requires f.Cons? && ListLinks(prompts, h0, h, seen, done, f, head, parent, cur)
    requires FinalLinks(prompts, h, g, f, parent, k', taken, rest)
    ensures ListLinks(prompts, h0, g, Append(seen, Cons(f.m, f.kids, taken)), Append(done, Cons(f.m, k', Nil)), rest,
                      head, parent, g.Next(f.m))
  {
    var mine := Cons(f.m, f.kids, taken);
    WalkStep(prompts, h, g, done, f, head, parent, cur, k', taken, rest);
    FinalPreorder(h, g, prompts, f, parent, k', taken, rest);
    AppendPreorder(seen, mine);
    AppendPreorder(done, Cons(f.m, k', Nil));
    AppendNodes(seen, mine);
    FlatKids(prompts, done, Cons(f.m, k', Nil));
  }

  /** On the way along the siblings of x: seen as they were, done as they are now, below x. */
  ghost predicate AdoptLinks(prompts: set<Entry>, h: Links, g: Links, x: Entry,
                             seen: Forest, done: Forest, todo: Forest, head: Ptr, parent: Ptr, cur: Ptr) {
    && Preorder(done) == Preorder(seen)
    && Apart(Cons(x, Nil, Append(done, todo)))
    && Chain(g, done, head, To(x), cur) && Chain(g, todo, cur, parent, Null) && KidsFlat(prompts, done)
    && SameOutside(h, g, Nodes(seen)) && SameOn(h, g, {x})
  }

  lemma AdoptStep(prompts: set<Entry>, h0: Links, h: Links, g: Links, x: Entry, seen: Forest, done: Forest, f: Forest,
                  head: Ptr, parent: Ptr, cur: Ptr, k': Forest, taken: Forest, rest: Forest)
    requires f.Cons? && AdoptLinks(prompts, h0, h, x, seen, done, f, head, parent, cur)
    requires FinalLinks(prompts, h, g, f, parent, k', taken, rest)
    ensures AdoptLinks(prompts, h0, g.SetParent(f.m, To(x)), x,
                       Append(seen, Cons(f.m, f.kids, taken)), Append(done, Cons(f.m, k', Nil)), rest,
                       head, parent, g.Next(f.m))
  {
    AppendNodes(done, f);
    AdoptOrder(prompts, h, g, seen, done, f, parent, k', taken, rest);
    AdoptFrame(h0, h, g, x, To(x), seen, f, taken, rest);
    AdoptApart(prompts, h, g, x, done, f, parent, k', taken, rest);
    AdoptChain(prompts, h, g, x, done, f, head, parent, cur, k', taken, rest);
  }

  lemma AdoptOrder(prompts: set<Entry>, h: Links, g: Links, seen: Forest, done: Forest, f: Forest, parent: Ptr,
                   k': Forest, taken: Forest, rest: Forest)
    requires f.Cons? && Preorder(done) == Preorder(seen) && KidsFlat(prompts, done)
    requires FinalLinks(prompts, h, g, f, parent, k', taken, rest)
    ensures Preorder(Append(done, Cons(f.m, k', Nil))) == Preorder(Append(seen, Cons(f.m, f.kids, taken)))
    ensures KidsFlat(prompts, Append(done, Cons(f.m, k', Nil)))
  {
    FinalPreorder(h, g, prompts, f, parent, k', taken, rest);
    AppendPreorder(seen, Cons(f.m, f.kids, taken));
    AppendPreorder(done, Cons(f.m, k', Nil));
    FlatKids(prompts, done, Cons(f.m, k', Nil));
  }

  lemma AdoptFrame(h0: Links, h: Links, g: Links, x: Entry, p: Ptr,
                   seen: Forest, f: Forest, taken: Forest, rest: Forest)
    requires f.Cons? && f.rest == Append(taken, rest) && x !in Nodes(f)
    requires SameOutside(h0, h, Nodes(seen)) && SameOn(h0, h, {x})
    requires SameOutside(h, g, {f.m} + Nodes(f.kids) + Nodes(taken))
    ensures SameOutside(h0, g.SetParent(f.m, p), Nodes(Append(seen, Cons(f.m, f.kids, taken))))
    ensures SameOn(h0, g.SetParent(f.m, p), {x})
  {
    var mine := Nodes(Cons(f.m, f.kids, taken));
    assert x !in mine by {
      AppendNodes(taken, rest);
    }
    AppendNodes(seen, Cons(f.m, f.kids, taken));
    FrameJoin(h0, h, g, f.m, p, x, Nodes(seen), mine);
  }

  lemma FrameJoin(h0: Links, h: Links, g: Links, m: Entry, p: Ptr, x: Entry, s: set<Entry>, t: set<Entry>)
    requires SameOutside(h0, h, s) && SameOutside(h, g, t) && SameOn(h0, h, {x}) && m in t && x !in t
    ensures SameOutside(h0, g.SetParent(m, p), s + t) && SameOn(h0, g.SetParent(m, p), {x})
  {
  }

  lemma AdoptApart(prompts: set<Entry>, h: Links, g: Links, x: Entry, done: Forest, f: Forest, parent: Ptr,
                   k': Forest, taken: Forest, rest: Forest)
    requires f.Cons? && Apart(Cons(x, Nil, Append(done, f))) && FinalLinks(prompts, h, g, f, parent, k', taken, rest)
    ensures Append(Append(done, Cons(f.m, k', Nil)), rest) == Append(done, Cons(f.m, k', rest))
    ensures Apart(Cons(x, Nil, Append(done, Cons(f.m, k', rest))))
    ensures Nodes(f) == Nodes(Cons(f.m, k', rest)) && Nodes(done) !! Nodes(f)
  {
    var f' := Cons(f.m, k', rest);
    FinalPreorder(h, g, prompts, f, parent, k', taken, rest);
    AppendAssoc(done, Cons(f.m, k', Nil), rest);
    AppendPreorder(done, f);
    AppendPreorder(done, f');
    SamePreorder(Append(done, f), Append(done, f'));
    SamePreorder(f, f');
    AppendApart(done, f);
  }

  lemma AdoptChain(prompts: set<Entry>, h: Links, g: Links, x: Entry, done: Forest, f: Forest,
                   head: Ptr, parent: Ptr, cur: Ptr, k': Forest, taken: Forest, rest: Forest)
    requires f.Cons? && Apart(Cons(x, Nil, Append(done, f)))
    requires Chain(h, done, head, To(x), cur) && Chain(h, f, cur, parent, Null)
    requires FinalLinks(prompts, h, g, f, parent, k', taken, rest)
    ensures Chain(g.SetParent(f.m, To(x)), Append(done, Cons(f.m, k', Nil)), head, To(x), g.Next(f.m))
    ensures Chain(g.SetParent(f.m, To(x)), rest, g.Next(f.m), parent, Null)
  {
    AdoptApart(prompts, h, g, x, done, f, parent, k', taken, rest);
    AppendNodes(Cons(f.m, f.kids, taken), rest);
    FinalPreorder(h, g, prompts, f, parent, k', taken, rest);
    ChainFrame(h, g, done, head, To(x), cur);
    JoinDone(g, done, f.m, k', rest, head, To(x), parent);
  }

  /** An entry leaves the list it is on for the finished one before it. */
  lemma JoinDone(g: Links, done: Forest, m: Entry, k: Forest, rest: Forest, head: Ptr, p: Ptr, parent: Ptr)
    requires Apart(Append(done, Cons(m, k, rest)))
    requires Chain(g, done, head, p, To(m)) && Chain(g, Cons(m, k, rest), To(m), parent, Null)
    ensures Chain(g.SetParent(m, p), Append(done, Cons(m, k, Nil)), head, p, g.Next(m))
    ensures Chain(g.SetParent(m, p), rest, g.Next(m), parent, Null)
  {
    AppendApart(done, Cons(m, k, rest));
    AppendApart(done, Cons(m, k, Nil));
    EndsJoin(g, done, m, k, head, p);
    EndsChain(g.SetParent(m, p), done, m, k, head, p);
    ChainFrame(g, g.SetParent(m, p), rest, g.Next(m), parent, Null);
  }

  lemma FinalSplit(f: Forest, taken: Forest, rest: Forest)
    requires f.Cons? && f.rest == Append(taken, rest)
    ensures f == Append(Cons(f.m, f.kids, taken), rest)
  {
  }

  /** What is seen and what is logged grow together. */
  lemma LogSeen(log: seq<Entry>, seen: Forest, f: Forest, taken: Forest, rest: Forest)
    requires f.Cons? && f.rest == Append(taken, rest)
    ensures var mine := Cons(f.m, f.kids, taken);
            && Append(Append(seen, mine), rest) == Append(seen, f) && Count(rest) < Count(f)
            && (log + Preorder(seen)) + Preorder(mine) == log + Preorder(Append(seen, mine))
  {
    var mine := Cons(f.m, f.kids, taken);
    FinalSplit(f, taken, rest);
    SeenStep(seen, mine, rest, f);
    SeqAssoc(log, Preorder(seen), Preorder(mine));
  }

  lemma LastDone(done: Forest, m: Entry, kids: Forest)
    ensures var d := Append(done, Cons(m, kids, Nil)); d.Cons? && Last(d) == m && Tops(d) == Tops(done) + {m}
  {
    LastAppend(done, m, kids);
    AppendTops(done, Cons(m, kids, Nil));
  }

  /** After the adoption loop: x gets the adopted entries as its list, and is followed by the others. */
  function Adopt(h: Links, x: Entry, last: Entry): Links {
    var h1 := h.SetList(x, h.Next(x));
    var h2 := h1.SetNext(x, h1.Next(last));
    h2.SetNext(last, Null)
  }

  lemma AdoptLinked(h: Links, x: Entry, done: Forest, todo: Forest, parent: Ptr, cur: Ptr)
    requires Apart(Cons(x, Nil, Append(done, todo))) && done.Cons?
    requires Chain(h, done, h.Next(x), To(x), cur) && Chain(h, todo, cur, parent, Null)
    ensures var g := Adopt(h, x, Last(done));
            && Chain(g, done, g.List(x), To(x), Null) && Chain(g, todo, g.Next(x), parent, Null)
            && SameOutside(h, g, {x, Last(done)}) && g.Parent(x) == h.Parent(x)
  {
    var g := Adopt(h, x, Last(done));
    AppendApart(done, todo);
    AppendNodes(done, todo);
    BelowNodes(done);
    LastNext(h, done, h.Next(x), To(x), cur);
    ChainSetLast(h, done, h.Next(x), To(x), cur, Null);
    ChainFrame(h.SetNext(Last(done), Null), g, done, h.Next(x), To(x), Null);
    ChainFrame(h, g, todo, cur, parent, Null);
  }

  lemma LastInSeen(done: Forest, seen: Forest)
    requires done.Cons? && Preorder(done) == Preorder(seen)
    ensures Last(done) in Nodes(seen)
  {
    SamePreorder(done, seen);
    BelowNodes(done);
  }

  /** The conditions of the entries of a list do not change while those before them are finalized. */
  lemma TopCond(prompts: set<Entry>, c: Conditions, d: Conditions, x: Entry, seen: Forest, todo: Forest)
    requires Apart(Cons(x, Nil, Append(seen, todo))) && todo.Cons? && SameCondsOutside(c, d, Below(seen))
    ensures c.Visible(x) == d.Visible(x) && Asks(prompts, c, todo.m) == Asks(prompts, d, todo.m)
  {
    AppendApart(seen, todo);
    AppendNodes(seen, todo);
    BelowNodes(seen);
    assert x !in Below(seen);
    assert todo.m in Nodes(todo) && todo.m !in Below(seen);
  }

  lemma StillAdopts(prompts: set<Entry>, c: Conditions, d: Conditions, x: Entry, taken: Forest, rest: Forest)
    requires Apart(Cons(x, Nil, Append(taken, rest))) && SameCondsOutside(c, d, Below(taken))
    ensures rest.Cons? ==> c.Visible(x) == d.Visible(x) && Asks(prompts, c, rest.m) == Asks(prompts, d, rest.m)
    ensures Asks(prompts, c, x) == Asks(prompts, d, x)
  {
    if rest.Cons? {
      TopCond(prompts, c, d, x, taken, rest);
    }
    AppendNodes(taken, rest);
    BelowNodes(taken);
  }

  lemma KidsApart(f: Forest, k': Forest, taken: Forest, rest: Forest)
    requires f.Cons? && Apart(f) && f.rest == Append(taken, rest)
    requires Preorder(k') == Preorder(f.kids) + Preorder(taken)
    ensures Apart(Cons(f.m, k', rest)) && Nodes(k') == Nodes(f.kids) + Nodes(taken)
    ensures Preorder(Cons(f.m, k', rest)) == Preorder(f)
  {
    AppendPreorder(taken, rest);
    SeqAssoc([f.m], Preorder(f.kids), Preorder(taken));
    SeqAssoc([f.m] + Preorder(f.kids), Preorder(taken), Preorder(rest));
    SamePreorder(Cons(f.m, k', rest), f);
    AppendPreorder(f.kids, taken);
    AppendNodes(f.kids, taken);
    SamePreorder(Append(f.kids, taken), k');
  }

  lemma OwnNodes(m: Entry, k: Forest)
    ensures Nodes(Cons(m, k, Nil)) == {m} + Nodes(k) == Nodes(Cons(m, Nil, k))
  {
  }

  lemma LogStep(log: seq<Entry>, m: Entry, a: Forest, b: Forest)
    ensures (log + [m]) + (Preorder(a) + Preorder(b)) == log + Preorder(Cons(m, a, b))
  {
  }

  /** What Gather leaves, and what Flatten makes of it */
  ghost predicate Gathered(prompts: set<Entry>, h: Links, g: Links, f: Forest, parent: Ptr,
                          k: Forest, taken: Forest, rest: Forest)
    requires f.Cons?
  {
    && f.rest == Append(taken, rest) && Preorder(k) == Preorder(f.kids) + Preorder(taken)
    && Chain(g, k, g.List(f.m), To(f.m), Null) && KidsFlat(prompts, k)
    && Chain(g, rest, g.Next(f.m), parent, Null) && g.Parent(f.m) == parent
    && SameOutside(h, g, {f.m} + Nodes(f.kids) + Nodes(taken))
  }

  lemma GatheredBelow(prompts: set<Entry>, h: Links, g: Links, f: Forest, parent: Ptr, k: Forest)
    requires f.Cons? && Apart(f) && Chain(h, f, To(f.m), parent, Null) && Preorder(k) == Preorder(f.kids)
    requires Chain(g, k, g.List(f.m), To(f.m), Null) && KidsFlat(prompts, k) && SameOutside(h, g, Nodes(f.kids))
    ensures Gathered(prompts, h, g, f, parent, k, Nil, f.rest)
  {
    ChainFrame(h, g, f.rest, h.Next(f.m), parent, Null);
    assert Preorder(f.kids) == Preorder(f.kids) + Preorder(Nil);
  }

  lemma GatheredAdopted(prompts: set<Entry>, h: Links, g: Links, f: Forest, parent: Ptr,
                        k: Forest, taken: Forest, rest: Forest)
    requires f.Cons? && f.kids == Nil && h.Parent(f.m) == parent
    requires f.rest == Append(taken, rest) && Preorder(k) == Preorder(taken) && KidsFlat(prompts, k)
    requires Chain(g, k, g.List(f.m), To(f.m), Null) && Chain(g, rest, g.Next(f.m), parent, Null)
    requires SameOutside(h, g, {f.m} + Nodes(taken)) && g.Parent(f.m) == h.Parent(f.m)
    ensures Gathered(prompts, h, g, f, parent, k, taken, rest)
  {
  }

  lemma GatheredFlattened(prompts: set<Entry>, h: Links, g: Links, g': Links, f: Forest, parent: Ptr,
                         k: Forest, k': Forest, taken: Forest, rest: Forest)
    requires f.Cons? && Apart(f) && Gathered(prompts, h, g, f, parent, k, taken, rest)
    requires Preorder(k') == Preorder(k) && AllFlat(prompts, k') && SameOutside(g, g', Nodes(k))
    requires Chain(g', k', g'.List(f.m), To(f.m), Null)
    ensures FinalLinks(prompts, h, g', f, parent, k', taken, rest)
  {
    KidsApart(f, k, taken, rest);
    ChainFrame(g, g', rest, g.Next(f.m), parent, Null);
  }

  lemma CondsStep(syms: map<Entry, Symbol>, prompts: set<Entry>, c0: Conditions, c: Conditions, d: Conditions,
                  seen: Forest, f: Forest, taken: Forest, rest: Forest)
    requires f.Cons? && Apart(Append(seen, f)) && f.rest == Append(taken, rest)
    requires ListConds(syms, prompts, c0, c, seen) && FinalConds(syms, prompts, c, d, f.m, f.kids, taken)
    ensures ListConds(syms, prompts, c0, d, Append(seen, Cons(f.m, f.kids, taken)))
  {
    var mine := Cons(f.m, f.kids, taken);
    StepSets(seen, f, taken, rest);
    ListCondsJoin(syms, prompts, c0, c, d, seen, mine);
  }

  lemma ListCondsJoin(syms: map<Entry, Symbol>, prompts: set<Entry>, c0: Conditions, c: Conditions, d: Conditions,
                      seen: Forest, mine: Forest)
    requires ListConds(syms, prompts, c0, c, seen) && ListConds(syms, prompts, c, d, mine)
    requires Nodes(mine) !! Nodes(seen) && Below(seen) <= Nodes(seen) && Below(mine) <= Nodes(mine)
    ensures ListConds(syms, prompts, c0, d, Append(seen, mine))
  {
    SameApart(c0, c, Below(seen), Nodes(mine));
    SameApart(c, d, Below(mine), Nodes(seen));
    KidsNarrowedFrame(syms, prompts, c0, c, c0, d, seen);
    KidsNarrowedFrame(syms, prompts, c, d, c0, d, mine);
    KidsNarrowedAppend(syms, prompts, c0, d, seen, mine);
    AppendTops(seen, mine);
  }

  lemma SameApart(c: Conditions, d: Conditions, changed: set<Entry>, nodes: set<Entry>)
    requires SameCondsOutside(c, d, changed) && nodes !! changed
    ensures SameConds(c, d, nodes) && SameConds(d, c, nodes)
  {
  }

  /** The entries a call of menu_finalize changes are none of those seen before. */
  lemma StepSets(seen: Forest, f: Forest, taken: Forest, rest: Forest)
    requires f.Cons? && f.rest == Append(taken, rest) && Apart(Append(seen, f))
    ensures var mine := Cons(f.m, f.kids, taken);
            && Below(mine) == Nodes(f.kids) + Below(taken) && Below(mine) <= Nodes(mine) <= Nodes(f)
            && Nodes(mine) !! Nodes(seen) && Below(seen) <= Nodes(seen)
            && Nodes(Append(seen, mine)) == Nodes(seen) + Nodes(mine)
            && f.m !in Below(mine)
  {
    AppendApart(seen, f);
    MineSets(f, taken, rest);
    AppendNodes(seen, Cons(f.m, f.kids, taken));
    BelowNodes(seen);
  }

  lemma MineSets(f: Forest, taken: Forest, rest: Forest)
    requires f.Cons? && f.rest == Append(taken, rest) && Apart(f)
    ensures var mine := Cons(f.m, f.kids, taken);
            Below(mine) <= Nodes(mine) <= Nodes(f) && f.m !in Below(mine)
  {
    AppendNodes(taken, rest);
    BelowNodes(taken);
  }

  /** One more entry of a list is finalized: what is below it, and what was finalized before, keeps its place. */
  lemma PlacedStep(g: Ground, h: Links, d: Conditions, x: Entry, seen: Forest, done: Forest, f: Forest, k': Forest,
                   mine: Forest, rest: Forest)
    requires f.Cons? && mine.Cons? && mine.m == f.m && mine.kids == f.kids && f.rest == Append(mine.rest, rest)
    requires Apart(Append(seen, f)) && x !in Nodes(Append(seen, f))
    requires Placed(g, {x} + Nodes(seen), x, done) && Direct(g, x, f.m)
    requires Placed(Ground(g.syms, g.prompts, h, d), Nodes(mine), f.m, k')
    requires SameOutside(g.home, h, Nodes(seen)) && SameCondsOutside(g.conds, d, Nodes(f.kids) + Below(mine.rest))
    ensures Placed(Ground(g.syms, g.prompts, g.home, d), {x} + Nodes(Append(seen, mine)), x,
                   Append(done, Cons(f.m, k', Nil)))
  {
    StepSets(seen, f, mine.rest, rest);
    StaysOut(x, seen, f, mine);
    PlacedNext(g, h, d, x, f.m, Nodes(seen), Nodes(mine), Below(mine), Nodes(Append(seen, mine)), done, k');
  }

  lemma StaysOut(x: Entry, seen: Forest, f: Forest, mine: Forest)
    requires x !in Nodes(Append(seen, f)) && Nodes(mine) <= Nodes(f)
    ensures x !in Nodes(mine)
  {
    AppendNodes(seen, f);
  }

  lemma PlacedNext(g: Ground, h: Links, d: Conditions, x: Entry, m: Entry,
                   seen: set<Entry>, mine: set<Entry>, changed: set<Entry>, all: set<Entry>, done: Forest, k: Forest)
    requires Placed(g, {x} + seen, x, done) && Placed(Ground(g.syms, g.prompts, h, d), mine, m, k) && Direct(g, x, m)
    requires SameOutside(g.home, h, seen) && SameCondsOutside(g.conds, d, changed)
    requires mine !! seen && x !in mine && changed <= mine && m in mine && m !in changed && all == seen + mine
    ensures Placed(Ground(g.syms, g.prompts, g.home, d), {x} + all, x, Append(done, Cons(m, k, Nil)))
  {
    var nodes := {x} + all;
    PlacedBefore(g, d, changed, {x} + seen, nodes, x, done);
    PlacedElsewhere(Ground(g.syms, g.prompts, h, d), g.home, seen, mine, nodes, m, k);
    DirectStays(g.syms, g.prompts, g.home, g.conds, d, x, m, changed);
    PlacedOne(Ground(g.syms, g.prompts, g.home, d), nodes, x, done, m, k);
  }

  /** Later changes of conditions elsewhere do not matter, */
  lemma PlacedBefore(g: Ground, d: Conditions, changed: set<Entry>, nodes: set<Entry>, nodes': set<Entry>,
                     x: Entry, f: Forest)
    requires Placed(g, nodes, x, f) && SameCondsOutside(g.conds, d, changed) && nodes !! changed && nodes <= nodes'
    ensures Placed(Ground(g.syms, g.prompts, g.home, d), nodes', x, f)
  {
    PlacedFrame(g, Ground(g.syms, g.prompts, g.home, d), nodes, nodes', x, f);
  }

  /** nor earlier changes of links. */
  lemma PlacedElsewhere(g: Ground, h: Links, changed: set<Entry>, nodes: set<Entry>, nodes': set<Entry>,
                        x: Entry, f: Forest)
    requires Placed(g, nodes, x, f) && SameOutside(h, g.home, changed) && nodes !! changed && nodes <= nodes'
    ensures Placed(Ground(g.syms, g.prompts, h, g.conds), nodes', x, f)
  {
    PlacedFrame(g, Ground(g.syms, g.prompts, h, g.conds), nodes, nodes', x, f);
  }

  lemma DirectStays(syms: map<Entry, Symbol>, prompts: set<Entry>, h: Links, c: Conditions, d: Conditions,
                    x: Entry, y: Entry, changed: set<Entry>)
    requires SameCondsOutside(c, d, changed) && x !in changed && y !in changed
    requires Direct(Ground(syms, prompts, h, c), x, y)
    ensures Direct(Ground(syms, prompts, h, d), x, y)
  {
  }

  class MenuTree {
    const syms: map<Entry, Symbol>
    const prompts: set<Entry>
    var links: Links
    var conds: Conditions
    /** The entries menu_finalize has been called for, in order */
    ghost var finalized: seq<Entry>

    /** The first loop of menu_finalize: narrow the conditions of the entries on p's list. */
    method Propagate(p: Entry, ghost k: Forest)
      requires Apart(k) && Chain(links, k, links.List(p), To(p), Null) && p !in Nodes(k)
      modifies this`conds
      ensures TopsNarrowed(syms, Asks(prompts, old(conds), p), old(conds), conds, k)
      ensures SameCondsOutside(old(conds), conds, Tops(k))
    {
      var above := Asks(prompts, conds, p);
      var cur := links.List(p);
      ghost var done, todo := Nil, k;
      while cur != Null
        invariant Walk(links, done, todo, links.List(p), To(p), cur) && k == Append(done, todo)
        invariant TopsNarrowed(syms, above, old(conds), conds, done)
        invariant SameCondsOutside(old(conds), conds, Tops(done))
        decreases Count(todo)
      {
        var m := cur.e;
        ghost var before := conds;
        conds := NarrowEntry(syms, above, conds, m);
        assert Narrowed(syms, above, old(conds), conds, m) by {
          AppendApart(done, todo);
          BelowNodes(done);
        }
        Advance(links, done, todo, links.List(p), To(p), cur);
        TopsStep(syms, above, old(conds), before, conds, done, m, todo.kids, todo.rest);
        done := Append(done, Cons(m, todo.kids, Nil));
        cur, todo := links.Next(m), todo.rest;
      }
      AppendNil(done);
    }

    /** menu_finalize(&rootmenu): every entry is finalized exactly once, in the order of the original tree;
        the entries stay in that order; every list is null-terminated and every parent pointer names the
        owner of the list an entry is on; entries without a prompt have nothing below them; and conditions
        have been handed down from each entry to those originally below it. */
    method FinalizeTree(root: Entry, ghost k: Forest) returns (ghost k': Forest)
      requires Apart(Cons(root, k, Nil)) && Chain(links, Cons(root, k, Nil), To(root), Null, Null)
      modifies this
      ensures Chain(links, Cons(root, k', Nil), To(root), Null, Null)
      ensures Preorder(k') == Preorder(k) && AllFlat(prompts, k')
      ensures Placed(Ground(syms, prompts, old(links), conds), Nodes(Cons(root, k, Nil)), root, k')
      ensures k' == Finished(syms, prompts, conds, Cons(root, k, Nil)).0
      ensures finalized == old(finalized) + Preorder(Cons(root, k, Nil))
      ensures AllNarrowed(syms, prompts, Asks(prompts, conds, root), old(conds), conds, k)
      ensures SameOutside(old(links), links, Nodes(Cons(root, k, Nil)))
      ensures SameCondsOutside(old(conds), conds, Nodes(k))
    {
      ghost var taken, rest;
      k', taken, rest := Finalize(root, Cons(root, k, Nil), Null);
      assert taken == Nil && rest == Nil;
    }

    /** menu_finalize(m), for the entry at the head of the list f. Of the entries after it, those in taken
        end up below m, and those in rest stay behind it. */
    method Finalize(m: Entry, ghost f: Forest, ghost parent: Ptr)
      returns (ghost k': Forest, ghost taken: Forest, ghost rest: Forest)
      requires f.Cons? && f.m == m && Apart(f) && Chain(links, f, To(m), parent, Null)
      modifies this
      ensures FinalLinks(prompts, old(links), links, f, parent, k', taken, rest)
      ensures FinalConds(syms, prompts, old(conds), conds, m, f.kids, taken)
      ensures Placed(Ground(syms, prompts, old(links), conds), Nodes(Cons(m, f.kids, taken)), m, k')
      ensures FinishesAs(syms, prompts, conds, f, k', rest)
      ensures finalized == old(finalized) + Preorder(Cons(m, f.kids, taken))
      ensures f.kids == Nil && m in syms && rest.Cons? ==> !AdoptsNext(m, conds, rest.m)
      ensures f.kids != Nil || m !in syms ==> taken == Nil
      decreases Count(f), 2, 0
    {
      finalized := finalized + [m];
      k', taken, rest := Gather(m, f, parent);
      KidsApart(f, k', taken, rest);
      ghost var h, k := links, k';
      k' := Flatten(m, k);
      PlacedFlattened(Ground(syms, prompts, old(links), conds), Nodes(Cons(m, f.kids, taken)), m, k);
      FlattenedAs(syms, prompts, conds, f, k, rest);
      GatheredFlattened(prompts, old(links), h, links, f, parent, k, k', taken, rest);
      LogStep(old(finalized), m, f.kids, taken);
    }

    /** menu_finalize up to its last loop: finalize what is below the entry, or adopt what follows it. */
    method Gather(m: Entry, ghost f: Forest, ghost parent: Ptr)
      returns (ghost k': Forest, ghost taken: Forest, ghost rest: Forest)
      requires f.Cons? && f.m == m && Apart(f) && Chain(links, f, To(m), parent, Null)
      modifies this
      ensures Gathered(prompts, old(links), links, f, parent, k', taken, rest)
      ensures FinalConds(syms, prompts, old(conds), conds, m, f.kids, taken)
      ensures Placed(Ground(syms, prompts, old(links), conds), Nodes(Cons(m, f.kids, taken)), m, k')
      ensures CollectsAs(syms, prompts, conds, f, k', rest)
      ensures finalized == old(finalized) + (Preorder(f.kids) + Preorder(taken))
      ensures f.kids == Nil && m in syms && rest.Cons? ==> !AdoptsNext(m, conds, rest.m)
      ensures f.kids != Nil || m !in syms ==> taken == Nil
      decreases Count(f), 1
    {
      k', taken, rest := f.kids, Nil, f.rest;
      assert Chain(links, f.kids, links.List(m), To(m), Null) && Chain(links, f.rest, links.Next(m), parent, Null);
      if links.List(m) != Null {
        k' := FinalizeBelow(m, f.kids);
        ListsEnd(syms, prompts, conds, m, f.kids, k', f.rest);
        GatheredBelow(prompts, old(links), links, f, parent, k');
      } else if m in syms {
        k', taken, rest := AdoptSiblings(m, f.rest, parent);
        StillAdopts(prompts, old(conds), conds, m, taken, rest);
        GatheredAdopted(prompts, old(links), links, f, parent, k', taken, rest);
      }
    }

    /** menu_finalize for an entry that has entries below it */
    method FinalizeBelow(m: Entry, ghost k: Forest) returns (ghost k': Forest)
      requires Apart(k) && Chain(links, k, links.List(m), To(m), Null) && m !in Nodes(k)
      modifies this
      ensures Chain(links, k', links.List(m), To(m), Null) && Preorder(k') == Preorder(k) && KidsFlat(prompts, k')
      ensures SameOutside(old(links), links, Nodes(k))
      ensures FinalConds(syms, prompts, old(conds), conds, m, k, Nil)
      ensures Placed(Ground(syms, prompts, old(links), conds), Nodes(Cons(m, k, Nil)), m, k')
      ensures ListsAs(syms, prompts, conds, k, k', Nil)
      ensures finalized == old(finalized) + Preorder(k)
      decreases Count(k), 4
    {
      Propagate(m, k);
      ghost var c := conds;
      k' := FinalizeList(m, k);
      OwnNodes(m, k);
      BelowNodes(k);
      NarrowBoth(syms, prompts, Asks(prompts, old(conds), m), old(conds), c, conds, k);
    }

    /** menu_finalize for an entry with a symbol and nothing below it: as many of the entries after it
        as ask for its symbol become its children. */
    method AdoptSiblings(x: Entry, ghost r: Forest, ghost parent: Ptr)
      returns (ghost k': Forest, ghost taken: Forest, ghost rest: Forest)
      requires x in syms && Apart(Cons(x, Nil, r)) && Chain(links, r, links.Next(x), parent, Null)
      requires links.List(x) == Null
      modifies this
      ensures r == Append(taken, rest) && Preorder(k') == Preorder(taken) && KidsFlat(prompts, k')
      ensures Chain(links, k', links.List(x), To(x), Null) && Chain(links, rest, links.Next(x), parent, Null)
      ensures SameOutside(old(links), links, {x} + Nodes(taken)) && links.Parent(x) == old(links).Parent(x)
      ensures ListConds(syms, prompts, old(conds), conds, taken)
      ensures Placed(Ground(syms, prompts, old(links), conds), Nodes(Cons(x, Nil, taken)), x, k')
      ensures CollectsAs(syms, prompts, conds, Cons(x, Nil, r), k', rest)
      ensures finalized == old(finalized) + Preorder(taken)
      ensures forall y :: y in Tops(k') ==> AdoptsNext(x, old(conds), y)
      ensures rest.Cons? ==> !AdoptsNext(x, old(conds), rest.m)
      decreases Count(r), 3
    {
      ghost var head := links.Next(x);
      var cur, last;
      cur, last, taken, k', rest := AdoptLoop(x, r, parent);
      Attach(x, last, parent, taken, k', rest, head, cur, old(links));
      OwnNodes(x, taken);
    }

    /** The adoption loop: from the entry after x on, adopt as long as the test holds. */
    method AdoptLoop(x: Entry, ghost r: Forest, ghost parent: Ptr)
      returns (cur: Ptr, last: Option<Entry>, ghost seen: Forest, ghost done: Forest, ghost todo: Forest)
      requires x in syms && Apart(Cons(x, Nil, r)) && Chain(links, r, links.Next(x), parent, Null)
      modifies this
      ensures r == Append(seen, todo)
      ensures AdoptLinks(prompts, old(links), links, x, seen, done, todo, old(links).Next(x), parent, cur)
      ensures last == if done == Nil then None else Some(Last(done))
      ensures ListConds(syms, prompts, old(conds), conds, seen)
      ensures Placed(Ground(syms, prompts, old(links), conds), {x} + Nodes(seen), x, done)
      ensures CollectsAs(syms, prompts, conds, Cons(x, Nil, r), done, todo)
      ensures finalized == old(finalized) + Preorder(seen)
      ensures forall y :: y in Tops(done) ==> AdoptsNext(x, old(conds), y)
      ensures todo.Cons? ==> !AdoptsNext(x, old(conds), todo.m)
      decreases Count(r), 2, 3
    {
      ghost var head := links.Next(x);
      cur, last := links.Next(x), None;
      seen, done, todo := Nil, Nil, r;
      while cur != Null
        invariant r == Append(seen, todo) && Count(todo) <= Count(r)
        invariant AdoptLinks(prompts, old(links), links, x, seen, done, todo, head, parent, cur)
        invariant last == if done == Nil then None else Some(Last(done))
        invariant ListConds(syms, prompts, old(conds), conds, seen)
        invariant Placed(Ground(syms, prompts, old(links), conds), {x} + Nodes(seen), x, done)
        invariant AdoptsAs(syms, prompts, conds, x, r, done, todo)
        invariant finalized == old(finalized) + Preorder(seen)
        invariant forall y :: y in Tops(done) ==> AdoptsNext(x, old(conds), y)
        decreases Count(todo)
      {
        TopCond(prompts, old(conds), conds, x, seen, todo);
        if !AdoptsNext(x, conds, cur.e) {
          break;
        }
        cur, last, seen, done, todo :=
          AdoptNext(cur.e, x, parent, seen, done, todo, head, old(links), old(conds), old(finalized));
      }
      AdoptsEnd(syms, prompts, conds, x, r, seen, done, todo);
    }

    /** The adopted entries become the list of x. */
    method Attach(x: Entry, last: Option<Entry>, ghost parent: Ptr,
                  ghost seen: Forest, ghost done: Forest, ghost todo: Forest,
                  ghost head: Ptr, ghost cur: Ptr, ghost h0: Links)
      requires AdoptLinks(prompts, h0, links, x, seen, done, todo, head, parent, cur)
      requires head == h0.Next(x) && h0.List(x) == Null
      requires last == if done == Nil then None else Some(Last(done))
      modifies this`links
      ensures Chain(links, done, links.List(x), To(x), Null) && Chain(links, todo, links.Next(x), parent, Null)
      ensures SameOutside(h0, links, {x} + Nodes(seen)) && links.Parent(x) == h0.Parent(x)
    {
      AppendApart(done, todo);
      assert links.Next(x) == head && links.List(x) == Null;
      if last.Some? {
        AdoptLinked(links, x, done, todo, parent, cur);
        links := Adopt(links, x, last.value);
        LastInSeen(done, seen);
      }
    }

    /** The part of the adoption loop from the label next on */
    method AdoptNext(m: Entry, x: Entry, ghost parent: Ptr, ghost seen: Forest, ghost done: Forest, ghost todo: Forest,
                     ghost head: Ptr, ghost h0: Links, ghost c0: Conditions, ghost log: seq<Entry>)
      returns (cur': Ptr, last': Option<Entry>, ghost seen': Forest, ghost done': Forest, ghost todo': Forest)
      requires AdoptLinks(prompts, h0, links, x, seen, done, todo, head, parent, To(m)) && Apart(Append(seen, todo))
      requires ListConds(syms, prompts, c0, conds, seen) && finalized == log + Preorder(seen)
      requires Placed(Ground(syms, prompts, h0, conds), {x} + Nodes(seen), x, done)
      requires x in syms && AdoptsNext(x, conds, m) && x !in Nodes(Append(seen, todo))
      requires AdoptsAs(syms, prompts, conds, x, Append(seen, todo), done, todo)
      modifies this
      ensures AdoptsAs(syms, prompts, conds, x, Append(seen, todo), done', todo')
      ensures Append(seen', todo') == Append(seen, todo) && Count(todo') < Count(todo)
      ensures Placed(Ground(syms, prompts, h0, conds), {x} + Nodes(seen'), x, done')
      ensures AdoptLinks(prompts, h0, links, x, seen', done', todo', head, parent, cur')
      ensures done' != Nil && last' == Some(Last(done')) && Tops(done') == Tops(done) + {m}
      ensures ListConds(syms, prompts, c0, conds, seen') && finalized == log + Preorder(seen')
      decreases Count(todo), 2, 2
    {
      AppendApart(done, todo);
      ghost var kids, taken, rest;
      kids, taken, rest := FinalizeOne(m, x, parent, seen, done, todo, h0, c0, log);
      AdoptsStep(syms, prompts, old(conds), conds, x, Append(seen, todo), seen, done, todo, kids, taken, rest);
      AdoptStep(prompts, h0, old(links), links, x, seen, done, todo, head, parent, To(m), kids, taken, rest);
      cur' := links.Next(m);
      links := links.SetParent(m, To(x));
      last' := Some(m);
      LastDone(done, m, kids);
      seen', done', todo' := Append(seen, Cons(m, todo.kids, taken)), Append(done, Cons(m, kids, Nil)), rest;
    }

    /** One more entry of a list is finalized, that of x before or after it was adopted. */
    method FinalizeOne(m: Entry, ghost x: Entry, ghost parent: Ptr, ghost seen: Forest, ghost done: Forest,
                       ghost todo: Forest, ghost h0: Links, ghost c0: Conditions, ghost log: seq<Entry>)
      returns (ghost kids: Forest, ghost taken: Forest, ghost rest: Forest)
      requires Apart(Append(seen, todo)) && Chain(links, todo, To(m), parent, Null) && todo.Cons?
      requires SameOutside(h0, links, Nodes(seen)) && x !in Nodes(Append(seen, todo))
      requires ListConds(syms, prompts, c0, conds, seen) && finalized == log + Preorder(seen)
      requires Placed(Ground(syms, prompts, h0, conds), {x} + Nodes(seen), x, done)
      requires Direct(Ground(syms, prompts, h0, conds), x, m)
      modifies this
      ensures FinalLinks(prompts, old(links), links, todo, parent, kids, taken, rest)
      ensures FinishesAs(syms, prompts, conds, todo, kids, rest)
      ensures SameCondsOutside(old(conds), conds, Nodes(todo.kids) + Below(taken))
      ensures var seen', done' := Append(seen, Cons(m, todo.kids, taken)), Append(done, Cons(m, kids, Nil));
              && Append(seen', rest) == Append(seen, todo) && Count(rest) < Count(todo)
              && Placed(Ground(syms, prompts, h0, conds), {x} + Nodes(seen'), x, done')
              && ListConds(syms, prompts, c0, conds, seen') && finalized == log + Preorder(seen')
      decreases Count(todo), 2, 1
    {
      AppendApart(seen, todo);
      kids, taken, rest := Finalize(m, todo, parent);
      CondsStep(syms, prompts, c0, old(conds), conds, seen, todo, taken, rest);
      PlacedStep(Ground(syms, prompts, h0, old(conds)), old(links), conds, x, seen, done, todo, kids,
                 Cons(m, todo.kids, taken), rest);
      LogSeen(log, seen, todo, taken, rest);
    }

    /** m would make x its child */
    predicate AdoptsNext(m: Entry, c: Conditions, x: Entry)
      requires m in syms
    {
      AdoptedBy(syms, prompts, c, m, x)
    }

    /** The loop of menu_finalize that finalizes the entries on p's list */
    method FinalizeList(p: Entry, ghost k: Forest) returns (ghost k': Forest)
      requires Apart(k) && Chain(links, k, links.List(p), To(p), Null) && p !in Nodes(k)
      modifies this
      ensures Chain(links, k', links.List(p), To(p), Null) && Preorder(k') == Preorder(k) && KidsFlat(prompts, k')
      ensures SameOutside(old(links), links, Nodes(k))
      ensures KidsNarrowed(syms, prompts, old(conds), conds, k) && SameCondsOutside(old(conds), conds, Below(k))
      ensures Placed(Ground(syms, prompts, old(links), conds), {p} + Nodes(k), p, k')
      ensures ListsAs(syms, prompts, conds, k, k', Nil)
      ensures finalized == old(finalized) + Preorder(k)
      decreases Count(k), 3
    {
      var head := links.List(p);
      var cur := head;
      ghost var seen, done, todo := Nil, Nil, k;
      while cur != Null
        invariant k == Append(seen, todo) && Count(todo) <= Count(k)
        invariant ListLinks(prompts, old(links), links, seen, done, todo, head, To(p), cur)
        invariant ListConds(syms, prompts, old(conds), conds, seen)
        invariant Placed(Ground(syms, prompts, old(links), conds), {p} + Nodes(seen), p, done)
        invariant ListsAs(syms, prompts, conds, k, done, todo)
        invariant finalized == old(finalized) + Preorder(seen)
        decreases Count(todo)
      {
        cur, seen, done, todo :=
          FinalizeNext(cur.e, p, seen, done, todo, head, old(links), old(conds), old(finalized));
      }
      AppendNil(seen);
      AppendNil(done);
      k' := done;
    }

    method FinalizeNext(m: Entry, ghost p: Entry, ghost seen: Forest, ghost done: Forest, ghost todo: Forest,
                        ghost head: Ptr, ghost h0: Links, ghost c0: Conditions, ghost log: seq<Entry>)
      returns (cur': Ptr, ghost seen': Forest, ghost done': Forest, ghost todo': Forest)
      requires ListLinks(prompts, h0, links, seen, done, todo, head, To(p), To(m)) && Apart(Append(seen, todo))
      requires ListConds(syms, prompts, c0, conds, seen) && finalized == log + Preorder(seen)
      requires Placed(Ground(syms, prompts, h0, conds), {p} + Nodes(seen), p, done) && p !in Nodes(Append(seen, todo))
      requires ListsAs(syms, prompts, conds, Append(seen, todo), done, todo)
      modifies this
      ensures ListsAs(syms, prompts, conds, Append(seen, todo), done', todo')
      ensures Append(seen', todo') == Append(seen, todo) && Count(todo') < Count(todo)
      ensures Placed(Ground(syms, prompts, h0, conds), {p} + Nodes(seen'), p, done')
      ensures ListLinks(prompts, h0, links, seen', done', todo', head, To(p), cur')
      ensures ListConds(syms, prompts, c0, conds, seen') && finalized == log + Preorder(seen')
      decreases Count(todo), 2, 2
    {
      AppendApart(seen, todo);
      ghost var kids, taken, rest;
      kids, taken, rest := FinalizeOne(m, p, To(p), seen, done, todo, h0, c0, log);
      ListsStep(syms, prompts, old(conds), conds, Append(seen, todo), seen, done, todo, kids, taken, rest);
      LinksStep(prompts, h0, old(links), links, seen, done, todo, head, To(p), To(m), kids, taken, rest);
      seen', done', todo' := Append(seen, Cons(m, todo.kids, taken)), Append(done, Cons(m, kids, Nil)), rest;
      cur' := links.Next(m);
    }

    /** The inner loop of the last part of menu_finalize: the entries below m get m's parent. */
    method Reparent(m: Entry, p: Entry, ghost k: Forest) returns (last: Entry, ghost done: Forest, ghost kids: Forest)
      requires Apart(k) && k.Cons? && Chain(links, k, links.List(m), To(m), Null)
      modifies this`links
      ensures k == Append(done, Cons(last, kids, Nil)) && Ends(links, done, last, kids, links.List(m), To(p))
      ensures SameOutside(old(links), links, Nodes(k))
      ensures links.next == old(links).next && links.list == old(links).list
    {
      var first := links.List(m);
      last := first.e;
      ghost var todo := k.rest;
      done, kids := Nil, k.kids;
      AppendNodes(done, Cons(last, kids, todo));
      JoinSplit(links, done, last, kids, todo, first, To(p), To(m));
      links := links.SetParent(last, To(p));
      while links.Next(last) != Null
        invariant k == Append(done, Cons(last, kids, todo))
        invariant Ends(links, done, last, kids, first, To(p)) && Chain(links, todo, links.Next(last), To(m), Null)
        invariant SameOutside(old(links), links, Nodes(k))
        invariant links.next == old(links).next && links.list == old(links).list
        decreases Count(todo)
      {
        EndsChain(links, done, last, kids, first, To(p));
        AppendAssoc(done, Cons(last, kids, Nil), todo);
        done := Append(done, Cons(last, kids, Nil));
        last := links.Next(last).e;
        kids, todo := todo.kids, todo.rest;
        AppendNodes(done, Cons(last, kids, todo));
        JoinSplit(links, done, last, kids, todo, first, To(p), To(m));
        links := links.SetParent(last, To(p));
      }
    }

    /** The entries below m become its next siblings. */
    method Splice(m: Entry, p: Entry, ghost k: Forest, ghost r: Forest)
      requires Apart(Cons(m, k, r)) && k.Cons?
      requires Chain(links, k, links.List(m), To(m), Null) && Chain(links, r, links.Next(m), To(p), Null)
      modifies this`links
      ensures links.List(m) == Null && Chain(links, Append(k, r), links.Next(m), To(p), Null)
      ensures SameOutside(old(links), links, {m} + Nodes(k)) && links.Parent(m) == old(links).Parent(m)
    {
      var first := links.List(m);
      ghost var done, kids;
      var last;
      last, done, kids := Reparent(m, p, k);
      AppendNodes(done, Cons(last, kids, Nil));
      EndsSetNext(links, done, last, kids, first, To(p), links.Next(m));
      links := links.SetNext(last, links.Next(m));
      EndsChain(links, done, last, kids, first, To(p));
      ghost var h := links;
      links := links.SetNext(m, first);
      links := links.SetList(m, Null);
      Spliced(old(links), h, links, m, k, r, first, To(p));
    }

    /** The last loop of menu_finalize: no entry without a prompt keeps entries below it. */
    method Flatten(p: Entry, ghost k: Forest) returns (ghost k': Forest)
      requires Apart(k) && Chain(links, k, links.List(p), To(p), Null) && KidsFlat(prompts, k) && p !in Nodes(k)
      modifies this`links
      ensures Chain(links, k', links.List(p), To(p), Null) && Preorder(k') == Preorder(k) && AllFlat(prompts, k')
      ensures k' == Flattened(prompts, k) && SameOutside(old(links), links, Nodes(k))
    {
      var head := links.List(p);
      var cur := head;
      ghost var done, todo := Nil, k;
      while cur != Null
        invariant Walk(links, done, todo, head, To(p), cur)
        invariant Preorder(Append(done, todo)) == Preorder(k)
        invariant Append(done, Flattened(prompts, todo)) == Flattened(prompts, k)
        invariant AllFlat(prompts, done) && KidsFlat(prompts, todo)
        invariant SameOutside(old(links), links, Nodes(k))
        decreases Count(todo)
      {
        var m := cur.e;
        SamePreorder(Append(done, todo), k);
        todo := FlattenHere(m, p, done, todo, head);
        AppendAssoc(done, Cons(m, todo.kids, Nil), Flattened(prompts, todo.rest));
        FlatAppend(prompts, done, Cons(m, todo.kids, Nil));
        Advance(links, done, todo, head, To(p), cur);
        done := Append(done, Cons(m, todo.kids, Nil));
        cur, todo := links.Next(m), todo.rest;
      }
      AppendNil(done);
      k' := done;
    }

    /** One entry of the walk: if it has no prompt, the entries below it follow it instead. */
    method FlattenHere(m: Entry, p: Entry, ghost done: Forest, ghost todo: Forest, ghost head: Ptr)
      returns (ghost todo': Forest)
      requires Walk(links, done, todo, head, To(p), To(m)) && KidsFlat(prompts, todo)
      modifies this`links
      ensures Walk(links, done, todo', head, To(p), To(m))
      ensures Preorder(Append(done, todo')) == Preorder(Append(done, todo)) && Count(todo') == Count(todo)
      ensures todo'.Cons? && todo'.m == m && (m !in prompts ==> todo'.kids == Nil) && KidsFlat(prompts, todo')
      ensures todo.Cons? && todo' == FlattenFirst(prompts, todo)
      ensures SameOutside(old(links), links, Nodes(Append(done, todo)))
    {
      todo' := todo;
      assert Chain(links, todo.kids, links.List(m), To(m), Null);
      if links.List(m) != Null && m !in prompts {
        ghost var k, r := todo.kids, todo.rest;
        AppendNodes(done, todo);
        AppendApart(done, todo);
        Splice(m, p, k, r);
        todo' := Cons(m, Nil, Append(k, r));
        AppendPreorder(k, r);
        SeqAssoc([m], Preorder(k), Preorder(r));
        SamePreorder(todo, todo');
        Rearrange(old(links), links, done, todo, todo', head, To(p), To(m));
        FlatKids(prompts, k, r);
      }
    }
  }

  /** Entries without a prompt have no entries below them, on every level. */
  ghost predicate AllFlat(prompts: set<Entry>, f: Forest) {
    match f
    case Nil => true
    case Cons(m, k, r) => (m !in prompts ==> k == Nil) && AllFlat(prompts, k) && AllFlat(prompts, r)
  }

  /** The same, except on the top level */
  ghost predicate KidsFlat(prompts: set<Entry>, f: Forest) {
    match f
    case Nil => true
    case Cons(_, k, r) => AllFlat(prompts, k) && KidsFlat(prompts, r)
  }

  lemma {:induction false} FlatAppend(prompts: set<Entry>, a: Forest, b: Forest)
    ensures AllFlat(prompts, Append(a, b)) <==> AllFlat(prompts, a) && AllFlat(prompts, b)
  {
    if a.Cons? {
      FlatAppend(prompts, a.rest, b);
    }
  }

  lemma {:induction false} FlatKids(prompts: set<Entry>, a: Forest, b: Forest)
    requires (AllFlat(prompts, a) || KidsFlat(prompts, a)) && KidsFlat(prompts, b)
    ensures KidsFlat(prompts, Append(a, b))
  {
    if a.Cons? {
      FlatKids(prompts, a.rest, b);
    }
  }

  lemma Spliced(g: Links, h: Links, h': Links, m: Entry, k: Forest, r: Forest, first: Ptr, parent: Ptr)
    requires Apart(Cons(m, k, r)) && Chain(g, r, h.Next(m), parent, Null) && SameOutside(g, h, Nodes(k))
    requires Chain(h, k, first, parent, h.Next(m)) && SameOutside(h, h', {m})
    ensures Chain(h', Append(k, r), first, parent, Null)
  {
    ChainFrame(g, h, r, h.Next(m), parent, Null);
    ChainAppend(h, k, r, first, h.Next(m), parent, Null);
    AppendNodes(k, r);
    ChainFrame(h, h', Append(k, r), first, parent, Null);
  }

  /** One step of Splice: an entry moves from the list it is on to the finished list before it. */
  lemma JoinSplit(h: Links, done: Forest, m: Entry, kids: Forest, todo: Forest, head: Ptr, parent: Ptr, owner: Ptr)
    requires Apart(Append(done, Cons(m, kids, todo)))
    requires Chain(h, done, head, parent, To(m)) && Chain(h, Cons(m, kids, todo), To(m), owner, Null)
    ensures Ends(h.SetParent(m, parent), done, m, kids, head, parent)
    ensures Chain(h.SetParent(m, parent), todo, h.Next(m), owner, Null)
  {
    var one := Cons(m, kids, Nil);
    AppendApart(done, Cons(m, kids, todo));
    AppendApart(done, one);
    EndsJoin(h, done, m, kids, head, parent);
    ChainFrame(h, h.SetParent(m, parent), todo, h.Next(m), owner, Null);
  }
}
