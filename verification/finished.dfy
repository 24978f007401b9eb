/** What it means, in the finished menu tree, that one entry is below another (menu.c). */
module FinishedMenus {
  import opened Exprs
  import opened Transforms
  import opened Adoption
  import opened MenuLinks
  import opened Narrowing
  import opened Placements
  import opened Symbols
  import opened MenuConditions

  /** What the entry asks is not n. */
  predicate Shown(prompts: set<Entry>, d: Conditions, m: Entry, v: Valuation) {
    EvalOpt(Asks(prompts, d, m), v) != NO
  }

  /** An entry is only shown if the one is on whose list it was. */
  lemma {:induction false} ShownByOwner(syms: map<Entry, Symbol>, prompts: set<Entry>, c: Conditions, d: Conditions,
                                        h: Links, x: Entry, f: Forest, head: Ptr, m: Entry, v: Valuation)
    requires Typed(v) && Chain(h, f, head, To(x), Null) && m in Nodes(f)
    requires NormalOpt(Asks(prompts, d, x)) && AllNarrowed(syms, prompts, Asks(prompts, d, x), c, d, f)
    ensures h.Parent(m).To? && (Shown(prompts, d, m, v) ==> Shown(prompts, d, h.Parent(m).e, v))
    decreases f
  {
    var above := Asks(prompts, d, x);
    NarrowNormal(None, above, c.Dep(f.m));
    NarrowNormal(SymOf(syms, f.m), d.Dep(f.m), c.Visible(f.m));
    if m == f.m {
      NarrowRefines(above, c.Dep(m), v);
      NarrowRefines(d.Dep(m), c.Visible(m), v);
      PromptLiftUnchanged(SymOf(syms, m), d.Dep(m), c.Visible(m), v);
    } else if m in Nodes(f.kids) {
      ShownByOwner(syms, prompts, c, d, h, f.m, f.kids, h.List(f.m), m, v);
    } else {
      ShownByOwner(syms, prompts, c, d, h, x, f.rest, h.Next(f.m), m, v);
    }
  }

  /** The valuations for which the test of menu_finalize is right about what the entry asks */
  predicate Readable(g: Ground, m: Entry, v: Valuation) {
    var e := Asks(g.prompts, g.conds, m);
    e.Some? ==> PlainOperands(e.value) && NegationsTwoValued(e.value, v)
  }

  /** The conditions come from the tree f of the root. */
  ghost predicate FromTree(g: Ground, c: Conditions, root: Entry, f: Forest) {
    && Chain(g.home, f, g.home.List(root), To(root), Null) && NormalOpt(Asks(g.prompts, g.conds, root))
    && AllNarrowed(g.syms, g.prompts, Asks(g.prompts, g.conds, root), c, g.conds, f)
  }

  /** The symbol of the entry is on. */
  predicate On(g: Ground, m: Entry, v: Valuation) {
    m in g.syms && TextOf(g.syms[m], v) != "n"
  }

  /** A step down that says nothing about this valuation: y was adopted by elimination, by an entry without a prompt
      condition to compare with, or under a valuation for which that comparison is not right. */
  predicate Doubtful(g: Ground, x: Entry, y: Entry, v: Valuation) {
    && g.home.Parent(y) != To(x) && AdoptedBy(g.syms, g.prompts, g.conds, x, y)
    && !Depends(Asks(g.prompts, g.conds, y).value, g.syms[x])
    && (x !in g.prompts || !Readable(g, x, v) || !Readable(g, y, v))
  }

  /** One step down: an entry that is shown has a shown entry above it, or the symbol of that entry is on. */
  lemma ShownByDirect(g: Ground, c: Conditions, root: Entry, f: Forest, x: Entry, y: Entry, v: Valuation)
    requires Typed(v) && FromTree(g, c, root, f) && Direct(g, x, y) && y in Nodes(f) && Shown(g.prompts, g.conds, y, v)
    ensures Shown(g.prompts, g.conds, x, v) || On(g, x, v) || Doubtful(g, x, y, v)
  {
    if g.home.Parent(y) == To(x) {
      ShownByOwner(g.syms, g.prompts, c, g.conds, g.home, root, f, g.home.List(root), y, v);
    } else {
      AdoptionImplies(g.syms[x], if x in g.prompts then g.conds.Visible(x) else None, Asks(g.prompts, g.conds, y), v);
    }
  }

  /** The symbol of an entry on the way down is on, or a step of it is doubtful. */
  ghost predicate Excused(g: Ground, p: seq<Entry>, v: Valuation) {
    exists i :: 0 <= i < |p| - 1 && (On(g, p[i], v) || Doubtful(g, p[i], p[i + 1], v))
  }

  lemma ExcusedLonger(g: Ground, p: seq<Entry>, v: Valuation)
    requires |p| > 2 && Excused(g, p[1..], v)
    ensures Excused(g, p, v)
  {
    var q := p[1..];
    var i :| 0 <= i < |q| - 1 && (On(g, q[i], v) || Doubtful(g, q[i], q[i + 1], v));
    assert q[i] == p[i + 1] && q[i + 1] == p[i + 2];
  }

  /** All the way down: if an entry is shown, so is the one it is below in the finished tree, or the way is excused. */
  lemma {:induction false} ShownByRoute(g: Ground, nodes: set<Entry>, c: Conditions, root: Entry, f: Forest,
                                        p: seq<Entry>, v: Valuation)
    requires Typed(v) && FromTree(g, c, root, f) && Route(g, nodes, p)
    requires forall i :: 0 < i < |p| ==> p[i] in Nodes(f)
    requires Shown(g.prompts, g.conds, p[|p| - 1], v)
    ensures Shown(g.prompts, g.conds, p[0], v) || Excused(g, p, v)
  {
    if |p| > 2 {
      ShownByRoute(g, nodes, c, root, f, p[1..], v);
      if Excused(g, p[1..], v) {
        ExcusedLonger(g, p, v);
        return;
      }
    }
    ShownByDirect(g, c, root, f, p[0], p[1], v);
    assert On(g, p[0], v) || Doubtful(g, p[0], p[1], v) || Shown(g.prompts, g.conds, p[0], v);
  }

  /** Each entry of the finished list f of x that is shown has an excused way down to it, or x is shown itself;
      and so for the lists below. */
  ghost predicate Explained(g: Ground, nodes: set<Entry>, x: Entry, f: Forest, v: Valuation)
    decreases f
  {
    f.Cons? ==>
      && (Shown(g.prompts, g.conds, f.m, v) ==>
            Shown(g.prompts, g.conds, x, v)
            || exists p :: Route(g, nodes, p) && p[0] == x && p[|p| - 1] == f.m && Excused(g, p, v))
      && Explained(g, nodes, f.m, f.kids, v) && Explained(g, nodes, x, f.rest, v)
  }

  /** The root is below nothing: its prompt has no condition that could mention a symbol. */
  ghost predicate IsRoot(g: Ground, root: Entry) {
    g.home.Parent(root) == Null && Asks(g.prompts, g.conds, root) == None
  }

  lemma {:induction false} RouteAvoidsRoot(g: Ground, nodes: set<Entry>, root: Entry, p: seq<Entry>, i: nat)
    requires Route(g, nodes, p) && IsRoot(g, root) && 0 < i < |p|
    ensures p[i] in nodes && p[i] != root
  {
    if i > 1 {
      RouteAvoidsRoot(g, nodes, root, p[1..], i - 1);
    }
  }

  lemma ShownOnGrounds(g: Ground, nodes: set<Entry>, c: Conditions, root: Entry, f: Forest, x: Entry, y: Entry,
                       v: Valuation)
    requires Typed(v) && FromTree(g, c, root, f) && IsRoot(g, root) && nodes == {root} + Nodes(f)
    requires Under(g, nodes, x, y) && Shown(g.prompts, g.conds, y, v)
    ensures Shown(g.prompts, g.conds, x, v)
            || exists p :: Route(g, nodes, p) && p[0] == x && p[|p| - 1] == y && Excused(g, p, v)
  {
    var p :| Route(g, nodes, p) && p[0] == x && p[|p| - 1] == y;
    forall i | 0 < i < |p| ensures p[i] in Nodes(f) {
      RouteAvoidsRoot(g, nodes, root, p, i);
    }
    ShownByRoute(g, nodes, c, root, f, p, v);
  }

  /** What the finished tree means: no entry is shown below one that is not shown, unless on the way down the symbol
      of one of them, or of an entry without a prompt between them, is on, or an adoption by elimination is
      doubtful for this valuation. */
  lemma {:induction false} FinishedTreeExplained(g: Ground, nodes: set<Entry>, c: Conditions, root: Entry, f: Forest,
                                                 x: Entry, f': Forest, v: Valuation)
    requires Typed(v) && FromTree(g, c, root, f) && IsRoot(g, root) && nodes == {root} + Nodes(f)
    requires Placed(g, nodes, x, f')
    ensures Explained(g, nodes, x, f', v)
    decreases f'
  {
    if f'.Cons? {
      if Shown(g.prompts, g.conds, f'.m, v) {
        ShownOnGrounds(g, nodes, c, root, f, x, f'.m, v);
      }
      FinishedTreeExplained(g, nodes, c, root, f, f'.m, f'.kids, v);
      FinishedTreeExplained(g, nodes, c, root, f, x, f'.rest, v);
    }
  }
}
