/** The linked lists of menu entries (struct menu in expr.h: next, parent, list). */
module MenuLinks {
  /** Entries are numbered; a pointer is null or the number of an entry. */
  type Entry = nat
  datatype Ptr = Null | To(e: Entry)

  /** The three pointers of every entry */
  datatype Links = Links(next: map<Entry, Ptr>, parent: map<Entry, Ptr>, list: map<Entry, Ptr>) {
    function Next(m: Entry): Ptr { if m in next then next[m] else Null }
    function Parent(m: Entry): Ptr { if m in parent then parent[m] else Null }
    function List(m: Entry): Ptr { if m in list then list[m] else Null }
    function SetNext(m: Entry, p: Ptr): Links { this.(next := next[m := p]) }
    function SetParent(m: Entry, p: Ptr): Links { this.(parent := parent[m := p]) }
    function SetList(m: Entry, p: Ptr): Links { this.(list := list[m := p]) }
  }

  /** A list of entries, each with the entries below it. */
  datatype Forest = Nil | Cons(m: Entry, kids: Forest, rest: Forest)

  ghost function Nodes(f: Forest): set<Entry> {
    match f
    case Nil => {}
    case Cons(m, k, r) => {m} + Nodes(k) + Nodes(r)
  }

  /** The entries of the list itself, and those below them */
  ghost function Tops(f: Forest): set<Entry> {
    match f
    case Nil => {}
    case Cons(m, _, r) => {m} + Tops(r)
  }

  ghost function Below(f: Forest): set<Entry> {
    match f
    case Nil => {}
    case Cons(_, k, r) => Nodes(k) + Below(r)
  }

  lemma {:induction false} BelowNodes(f: Forest)
    ensures Nodes(f) == Tops(f) + Below(f)
    ensures Apart(f) ==> Tops(f) !! Below(f)
  {
    if f.Cons? {
      BelowNodes(f.rest);
    }
  }

  function Preorder(f: Forest): seq<Entry> {
    match f
    case Nil => []
    case Cons(m, k, r) => [m] + Preorder(k) + Preorder(r)
  }

  function Count(f: Forest): nat {
    match f
    case Nil => 0
    case Cons(_, k, r) => 1 + Count(k) + Count(r)
  }

  /** No entry occurs twice. */
  ghost predicate Apart(f: Forest) {
    match f
    case Nil => true
    case Cons(m, k, r) => m !in Nodes(k) && m !in Nodes(r) && Nodes(k) !! Nodes(r) && Apart(k) && Apart(r)
  }

  /** The list from head up to end consists of these entries, all of which belong to the parent. */
  ghost predicate Chain(h: Links, f: Forest, head: Ptr, parent: Ptr, end: Ptr) {
    match f
    case Nil => head == end
    case Cons(m, k, r) =>
      && head == To(m) && h.Parent(m) == parent
      && Chain(h, k, h.List(m), To(m), Null)
      && Chain(h, r, h.Next(m), parent, end)
  }

  function Append(a: Forest, b: Forest): Forest {
    match a
    case Nil => b
    case Cons(m, k, r) => Cons(m, k, Append(r, b))
  }

  lemma {:induction false} AppendNodes(a: Forest, b: Forest)
    ensures Nodes(Append(a, b)) == Nodes(a) + Nodes(b)
  {
    if a.Cons? {
      AppendNodes(a.rest, b);
    }
  }

  lemma {:induction false} AppendTops(a: Forest, b: Forest)
    ensures Tops(Append(a, b)) == Tops(a) + Tops(b) && Below(Append(a, b)) == Below(a) + Below(b)
  {
    if a.Cons? {
      AppendTops(a.rest, b);
    }
  }

  lemma {:induction false} AppendNil(a: Forest)
    ensures Append(a, Nil) == a
  {
    if a.Cons? {
      AppendNil(a.rest);
    }
  }

  lemma {:induction false} AppendCount(a: Forest, b: Forest)
    ensures Count(Append(a, b)) == Count(a) + Count(b)
  {
    if a.Cons? {
      AppendCount(a.rest, b);
    }
  }

  lemma {:induction false} AppendPreorder(a: Forest, b: Forest)
    ensures Preorder(Append(a, b)) == Preorder(a) + Preorder(b)
  {
    if a.Cons? {
      AppendPreorder(a.rest, b);
      SeqAssoc([a.m] + Preorder(a.kids), Preorder(a.rest), Preorder(b));
    }
  }

  lemma SeqAssoc(a: seq<Entry>, b: seq<Entry>, c: seq<Entry>)
    ensures a + (b + c) == (a + b) + c
  {
  }

  lemma {:induction false} AppendApart(a: Forest, b: Forest)
    ensures Apart(Append(a, b)) <==> Apart(a) && Apart(b) && Nodes(a) !! Nodes(b)
  {
    if a.Cons? {
      AppendNodes(a.rest, b);
      AppendApart(a.rest, b);
    }
  }

  lemma {:induction false} AppendAssoc(a: Forest, b: Forest, c: Forest)
    ensures Append(Append(a, b), c) == Append(a, Append(b, c))
  {
    if a.Cons? {
      AppendAssoc(a.rest, b, c);
    }
  }

  // ----- what changing pointers leaves alone -----

  ghost predicate SameOn(h: Links, g: Links, s: set<Entry>) {
    forall m :: m in s ==> h.Next(m) == g.Next(m) && h.Parent(m) == g.Parent(m) && h.List(m) == g.List(m)
  }

  ghost predicate SameOutside(h: Links, g: Links, s: set<Entry>) {
    forall m :: m !in s ==> h.Next(m) == g.Next(m) && h.Parent(m) == g.Parent(m) && h.List(m) == g.List(m)
  }

  lemma {:induction false} ChainFrame(h: Links, g: Links, f: Forest, head: Ptr, parent: Ptr, end: Ptr)
    requires Chain(h, f, head, parent, end) && SameOn(h, g, Nodes(f))
    ensures Chain(g, f, head, parent, end)
  {
    if f.Cons? {
      ChainFrame(h, g, f.kids, h.List(f.m), To(f.m), Null);
      ChainFrame(h, g, f.rest, h.Next(f.m), parent, end);
    }
  }

  lemma {:induction false} ChainAppend(h: Links, a: Forest, b: Forest, head: Ptr, mid: Ptr, parent: Ptr, end: Ptr)
    requires Chain(h, a, head, parent, mid) && Chain(h, b, mid, parent, end)
    ensures Chain(h, Append(a, b), head, parent, end)
  {
    if a.Cons? {
      ChainAppend(h, a.rest, b, h.Next(a.m), mid, parent, end);
    }
  }

  /** A list whose last entry is known: a, then m with the entries below it, then end. */
  ghost predicate Ends(h: Links, a: Forest, m: Entry, kids: Forest, head: Ptr, parent: Ptr) {
    && Apart(Append(a, Cons(m, kids, Nil)))
    && Chain(h, a, head, parent, To(m)) && h.Parent(m) == parent && Chain(h, kids, h.List(m), To(m), Null)
  }

  lemma EndsChain(h: Links, a: Forest, m: Entry, kids: Forest, head: Ptr, parent: Ptr)
    requires Ends(h, a, m, kids, head, parent)
    ensures Chain(h, Append(a, Cons(m, kids, Nil)), head, parent, h.Next(m))
  {
    ChainAppend(h, a, Cons(m, kids, Nil), head, To(m), parent, h.Next(m));
  }

  /** The next pointer of the last entry is free to change. */
  lemma EndsSetNext(h: Links, a: Forest, m: Entry, kids: Forest, head: Ptr, parent: Ptr, p: Ptr)
    requires Ends(h, a, m, kids, head, parent)
    ensures Ends(h.SetNext(m, p), a, m, kids, head, parent)
  {
    AppendApart(a, Cons(m, kids, Nil));
    var g := h.SetNext(m, p);
    ChainFrame(h, g, a, head, parent, To(m));
    ChainFrame(h, g, kids, h.List(m), To(m), Null);
  }

  /** An entry that follows a finished list joins it by changing its parent. */
  lemma EndsJoin(h: Links, a: Forest, m: Entry, kids: Forest, head: Ptr, parent: Ptr)
    requires Apart(Append(a, Cons(m, kids, Nil)))
    requires Chain(h, a, head, parent, To(m)) && Chain(h, kids, h.List(m), To(m), Null)
    ensures Ends(h.SetParent(m, parent), a, m, kids, head, parent)
  {
    AppendApart(a, Cons(m, kids, Nil));
    var g := h.SetParent(m, parent);
    ChainFrame(h, g, a, head, parent, To(m));
    ChainFrame(h, g, kids, h.List(m), To(m), Null);
  }

  /** The last entry of the list itself */
  function Last(f: Forest): (m: Entry)
    requires f.Cons?
    ensures m in Tops(f)
  {
    if f.rest == Nil then f.m else Last(f.rest)
  }

  lemma {:induction false} LastAppend(a: Forest, m: Entry, kids: Forest)
    ensures Append(a, Cons(m, kids, Nil)).Cons? && Last(Append(a, Cons(m, kids, Nil))) == m
  {
    if a.Cons? {
      LastAppend(a.rest, m, kids);
    }
  }

  /** A list can be cut off, or continued elsewhere, after its last entry. */
  lemma {:induction false} ChainSetLast(h: Links, f: Forest, head: Ptr, parent: Ptr, end: Ptr, p: Ptr)
    requires f.Cons? && Apart(f) && Chain(h, f, head, parent, end)
    ensures Chain(h.SetNext(Last(f), p), f, head, parent, p)
  {
    var g := h.SetNext(Last(f), p);
    BelowNodes(f.rest);
    ChainFrame(h, g, f.kids, h.List(f.m), To(f.m), Null);
    if f.rest.Cons? {
      ChainSetLast(h, f.rest, h.Next(f.m), parent, end, p);
    }
  }

  lemma {:induction false} LastNext(h: Links, f: Forest, head: Ptr, parent: Ptr, end: Ptr)
    requires f.Cons? && Chain(h, f, head, parent, end)
    ensures h.Next(Last(f)) == end
  {
    if f.rest.Cons? {
      LastNext(h, f.rest, h.Next(f.m), parent, end);
    }
  }

  // ----- walking along a list -----

  /** A walk along a list: the entries behind, and the entries from the present one on. */
  ghost predicate Walk(h: Links, done: Forest, todo: Forest, head: Ptr, parent: Ptr, cur: Ptr) {
    Apart(Append(done, todo)) && Chain(h, done, head, parent, cur) && Chain(h, todo, cur, parent, Null)
  }

  lemma Advance(h: Links, done: Forest, todo: Forest, head: Ptr, parent: Ptr, cur: Ptr)
    requires Walk(h, done, todo, head, parent, cur) && todo.Cons?
    ensures cur == To(todo.m)
    ensures Walk(h, Append(done, Cons(todo.m, todo.kids, Nil)), todo.rest, head, parent, h.Next(todo.m))
    ensures Append(Append(done, Cons(todo.m, todo.kids, Nil)), todo.rest) == Append(done, todo)
  {
    var one := Cons(todo.m, todo.kids, Nil);
    AppendAssoc(done, one, todo.rest);
    ChainAppend(h, done, one, head, cur, parent, h.Next(todo.m));
  }

  /** The rest of a list may be rearranged under the walk. */
  lemma Rearrange(h: Links, g: Links, done: Forest, todo: Forest, todo': Forest, head: Ptr, parent: Ptr, cur: Ptr)
    requires Walk(h, done, todo, head, parent, cur) && SameOutside(h, g, Nodes(todo))
    requires Preorder(todo') == Preorder(todo) && Chain(g, todo', cur, parent, Null)
    ensures Walk(g, done, todo', head, parent, cur)
    ensures Preorder(Append(done, todo')) == Preorder(Append(done, todo))
  {
    AppendApart(done, todo);
    AppendApart(done, todo');
    SamePreorder(todo, todo');
    ChainFrame(h, g, done, head, parent, cur);
    AppendPreorder(done, todo);
    AppendPreorder(done, todo');
  }

  // ----- preorder determines the entries, how many there are, and whether they are apart -----

  ghost function Elems(s: seq<Entry>): set<Entry> {
    set m | m in s
  }

  ghost predicate Distinct(s: seq<Entry>) {
    s != [] ==> s[0] !in Elems(s[1..]) && Distinct(s[1..])
  }

  lemma ElemsConcat(a: seq<Entry>, b: seq<Entry>)
    ensures Elems(a + b) == Elems(a) + Elems(b)
  {
  }

  lemma {:induction false} DistinctConcat(a: seq<Entry>, b: seq<Entry>)
    ensures Distinct(a + b) <==> Distinct(a) && Distinct(b) && Elems(a) !! Elems(b)
  {
    if a == [] {
      assert a + b == b;
    } else {
      DistinctConcat(a[1..], b);
      assert (a + b)[1..] == a[1..] + b;
      assert a == [a[0]] + a[1..];
      ElemsConcat([a[0]], a[1..]);
      ElemsConcat(a[1..], b);
    }
  }

  lemma {:induction false} PreorderFacts(f: Forest)
    ensures |Preorder(f)| == Count(f)
    ensures Nodes(f) == Elems(Preorder(f))
    ensures Apart(f) <==> Distinct(Preorder(f))
  {
    if f.Cons? {
      var k, r := Preorder(f.kids), Preorder(f.rest);
      PreorderFacts(f.kids);
      PreorderFacts(f.rest);
      ElemsConcat([f.m], k);
      ElemsConcat([f.m] + k, r);
      DistinctConcat([f.m], k);
      DistinctConcat([f.m] + k, r);
      assert Distinct([f.m]);
    }
  }

  lemma SamePreorder(f: Forest, g: Forest)
    requires Preorder(f) == Preorder(g)
    ensures Nodes(f) == Nodes(g) && Count(f) == Count(g) && Apart(f) == Apart(g)
  {
    PreorderFacts(f);
    PreorderFacts(g);
  }
}
