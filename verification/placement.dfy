/** Where menu_finalize puts entries, and on what grounds (menu.c). */
module Placements {
  import opened Exprs
  import opened Adoption
  import opened MenuLinks
  import opened Narrowing

  // ----- the last loop of menu_finalize, on forests -----

  /** If the first entry has no prompt, the entries below it follow it instead. */
  function FlattenFirst(prompts: set<Entry>, f: Forest): (g: Forest)
    requires f.Cons?
    ensures g.Cons? && g.m == f.m && Count(g) == Count(f)
  {
    AppendCount(f.kids, f.rest);
    if f.m in prompts then f else Cons(f.m, Nil, Append(f.kids, f.rest))
  }

  /** No entry of the list without a prompt keeps entries below it. */
  function Flattened(prompts: set<Entry>, f: Forest): Forest
    decreases Count(f)
  {
    if f == Nil then Nil
    else
      var g := FlattenFirst(prompts, f);
      Cons(g.m, g.kids, Flattened(prompts, g.rest))
  }

  // ----- grounds -----

  /** What entries are, where they were, and what they ask */
  datatype Ground = Ground(syms: map<Entry, Symbol>, prompts: set<Entry>, home: Links, conds: Conditions)

  /** The entry of x passes the test for adopting the one of y. */
  predicate AdoptedBy(syms: map<Entry, Symbol>, prompts: set<Entry>, c: Conditions, x: Entry, y: Entry) {
    x in syms && Adopts(syms[x], if x in prompts then c.Visible(x) else None, Asks(prompts, c, y))
  }

  /** y was on the list of x, or passes the test for being adopted by it. */
  predicate Direct(g: Ground, x: Entry, y: Entry) {
    g.home.Parent(y) == To(x) || AdoptedBy(g.syms, g.prompts, g.conds, x, y)
  }

  /** A way down from one entry to another, through entries without a prompt */
  ghost predicate Route(g: Ground, nodes: set<Entry>, p: seq<Entry>) {
    && |p| >= 2 && p[0] in nodes && p[1] in nodes && Direct(g, p[0], p[1])
    && (|p| > 2 ==> p[1] !in g.prompts && Route(g, nodes, p[1..]))
  }

  ghost predicate Under(g: Ground, nodes: set<Entry>, x: Entry, y: Entry) {
    exists p :: Route(g, nodes, p) && p[0] == x && p[|p| - 1] == y
  }

  /** Every entry is below another one on good grounds: the list f is the list of x. */
  ghost predicate Placed(g: Ground, nodes: set<Entry>, x: Entry, f: Forest)
    decreases f
  {
    f.Cons? ==> Under(g, nodes, x, f.m) && Placed(g, nodes, f.m, f.kids) && Placed(g, nodes, x, f.rest)
  }

  lemma DirectUnder(g: Ground, nodes: set<Entry>, x: Entry, y: Entry)
    requires Direct(g, x, y) && x in nodes && y in nodes
    ensures Under(g, nodes, x, y)
  {
    assert Route(g, nodes, [x, y]);
  }

  lemma {:induction false} RouteJoin(g: Ground, nodes: set<Entry>, p: seq<Entry>, q: seq<Entry>)
    requires Route(g, nodes, p) && Route(g, nodes, q) && p[|p| - 1] == q[0] && q[0] !in g.prompts
    ensures Route(g, nodes, p + q[1..])
  {
    var r := p + q[1..];
    if |p| == 2 {
      assert r[1..] == q;
    } else {
      RouteJoin(g, nodes, p[1..], q);
      assert r[1..] == p[1..] + q[1..];
    }
  }

  /** Entries without a prompt hand on what is below them. */
  lemma UnderThrough(g: Ground, nodes: set<Entry>, x: Entry, y: Entry, z: Entry)
    requires Under(g, nodes, x, y) && Under(g, nodes, y, z) && y !in g.prompts
    ensures Under(g, nodes, x, z)
  {
    var p :| Route(g, nodes, p) && p[0] == x && p[|p| - 1] == y;
    var q :| Route(g, nodes, q) && q[0] == y && q[|q| - 1] == z;
    RouteJoin(g, nodes, p, q);
  }

  /** The two grounds agree on these entries. */
  ghost predicate Agree(g: Ground, g': Ground, nodes: set<Entry>) {
    && g.syms == g'.syms && g.prompts == g'.prompts && SameConds(g.conds, g'.conds, nodes)
    && forall m :: m in nodes ==> g.home.Parent(m) == g'.home.Parent(m)
  }

  lemma {:induction false} RouteFrame(g: Ground, g': Ground, nodes: set<Entry>, nodes': set<Entry>, p: seq<Entry>)
    requires Route(g, nodes, p) && Agree(g, g', nodes) && nodes <= nodes'
    ensures Route(g', nodes', p)
  {
    if |p| > 2 {
      RouteFrame(g, g', nodes, nodes', p[1..]);
    }
  }

  lemma {:induction false} PlacedFrame(g: Ground, g': Ground, nodes: set<Entry>, nodes': set<Entry>,
                                       x: Entry, f: Forest)
    requires Placed(g, nodes, x, f) && Agree(g, g', nodes) && nodes <= nodes'
    ensures Placed(g', nodes', x, f)
    decreases f
  {
    if f.Cons? {
      var p :| Route(g, nodes, p) && p[0] == x && p[|p| - 1] == f.m;
      RouteFrame(g, g', nodes, nodes', p);
      PlacedFrame(g, g', nodes, nodes', f.m, f.kids);
      PlacedFrame(g, g', nodes, nodes', x, f.rest);
    }
  }

  lemma {:induction false} PlacedAppend(g: Ground, nodes: set<Entry>, x: Entry, a: Forest, b: Forest)
    requires Placed(g, nodes, x, a) && Placed(g, nodes, x, b)
    ensures Placed(g, nodes, x, Append(a, b))
  {
    if a.Cons? {
      PlacedAppend(g, nodes, x, a.rest, b);
    }
  }

  lemma PlacedOne(g: Ground, nodes: set<Entry>, x: Entry, done: Forest, m: Entry, k: Forest)
    requires Placed(g, nodes, x, done) && Placed(g, nodes, m, k) && Direct(g, x, m) && x in nodes && m in nodes
    ensures Placed(g, nodes, x, Append(done, Cons(m, k, Nil)))
  {
    DirectUnder(g, nodes, x, m);
    PlacedAppend(g, nodes, x, done, Cons(m, k, Nil));
  }

  lemma {:induction false} PlacedThrough(g: Ground, nodes: set<Entry>, x: Entry, y: Entry, f: Forest)
    requires Under(g, nodes, x, y) && y !in g.prompts && Placed(g, nodes, y, f)
    ensures Placed(g, nodes, x, f)
  {
    if f.Cons? {
      UnderThrough(g, nodes, x, y, f.m);
      PlacedThrough(g, nodes, x, y, f.rest);
    }
  }

  /** Flattening a list gives no entry a place it has no grounds for. */
  lemma {:induction false} PlacedFlattened(g: Ground, nodes: set<Entry>, x: Entry, f: Forest)
    requires Placed(g, nodes, x, f)
    ensures Placed(g, nodes, x, Flattened(g.prompts, f))
    decreases Count(f)
  {
    if f.Cons? {
      if f.m !in g.prompts {
        PlacedThrough(g, nodes, x, f.m, f.kids);
        PlacedAppend(g, nodes, x, f.kids, f.rest);
      }
      PlacedFlattened(g, nodes, x, FlattenFirst(g.prompts, f).rest);
    }
  }
}
