/** The walk over the menu tree without a stack, and which symbols it writes (conf_write in confdata.c). */
module MenuWalk {
  import opened Exprs
  import opened MenuLinks

  /** Where a walk has come down from: the entry whose list it is on, and what follows that entry. */
  datatype Stack = Bottom | Frame(owner: Entry, rest: Forest, below: Stack)

  ghost predicate StackOk(h: Links, st: Stack, owner: Ptr) {
    match st
    case Bottom => owner == Null
    case Frame(o, rest, below) =>
      owner == To(o) && Chain(h, rest, h.Next(o), h.Parent(o), Null) && StackOk(h, below, h.Parent(o))
  }

  ghost function Pending(st: Stack): seq<Entry> {
    match st
    case Bottom => []
    case Frame(_, rest, below) => Preorder(rest) + Pending(below)
  }

  ghost function Depth(st: Stack): nat {
    if st.Bottom? then 0 else 1 + Depth(st.below)
  }

  /** The walk stands at the head of todo, or has ended. */
  ghost predicate At(h: Links, menu: Ptr, todo: Forest, st: Stack) {
    if todo.Cons? then exists owner :: Chain(h, todo, menu, owner, Null) && StackOk(h, st, owner)
    else menu == Null && Pending(st) == []
  }

  /** menu = menu->next, or up to the first ancestor with a next entry */
  method Next(h: Links, m: Entry, ghost rest: Forest, ghost st: Stack)
    returns (menu: Ptr, ghost todo: Forest, ghost st': Stack)
    requires Chain(h, rest, h.Next(m), h.Parent(m), Null) && StackOk(h, st, h.Parent(m))
    ensures At(h, menu, todo, st') && Preorder(todo) + Pending(st') == Preorder(rest) + Pending(st)
  {
    menu, todo, st' := h.Next(m), rest, st;
    if menu == Null {
      menu := h.Parent(m);
      while menu != Null
        invariant StackOk(h, st', menu) && Pending(st') == Preorder(rest) + Pending(st)
        decreases Depth(st')
      {
        var up := menu.e;
        if h.Next(up) != Null {
          todo, st' := st'.rest, st'.below;
          assert Chain(h, todo, h.Next(up), h.Parent(up), Null);
          menu := h.Next(up);
          return;
        }
        menu, st' := h.Parent(up), st'.below;
      }
      todo := Nil;
    }
  }

  /** One round of the walk: down to the list of m, or on to what comes next. */
  method Step(h: Links, m: Entry, ghost todo: Forest, ghost st: Stack)
    returns (menu: Ptr, ghost todo': Forest, ghost st': Stack)
    requires todo.Cons? && At(h, To(m), todo, st)
    ensures At(h, menu, todo', st')
    ensures Preorder(todo) + Pending(st) == [m] + (Preorder(todo') + Pending(st'))
  {
    ghost var owner :| Chain(h, todo, To(m), owner, Null) && StackOk(h, st, owner);
    assert Chain(h, todo.kids, h.List(m), To(m), Null);
    Regroup(todo, Pending(st));
    if h.List(m) != Null {
      menu, todo', st' := h.List(m), todo.kids, Frame(m, todo.rest, st);
      assert StackOk(h, st', To(m));
    } else {
      menu, todo', st' := Next(h, m, todo.rest, st);
    }
  }

  lemma Regroup(f: Forest, after: seq<Entry>)
    requires f.Cons?
    ensures Preorder(f) + after == [f.m] + (Preorder(f.kids) + (Preorder(f.rest) + after))
    ensures f.kids == Nil ==> Preorder(f) + after == [f.m] + (Preorder(f.rest) + after)
  {
  }

  /** Entries of a come before any entry of b. */
  ghost predicate Earlier(seen: seq<Entry>, syms: map<Entry, Symbol>, a: Symbol, b: Symbol) {
    exists p :: 0 <= p < |seen| && Shows(syms, seen[p], a) && forall q :: 0 <= q <= p ==> !Shows(syms, seen[q], b)
  }

  predicate Shows(syms: map<Entry, Symbol>, m: Entry, s: Symbol) {
    m in syms && syms[m] == s
  }

  ghost predicate Shown(seen: seq<Entry>, syms: map<Entry, Symbol>, s: Symbol) {
    exists m :: m in seen && Shows(syms, m, s)
  }

  lemma ShownAfter(seen: seq<Entry>, m: Entry, syms: map<Entry, Symbol>, s: Symbol)
    ensures Shown(seen + [m], syms, s) <==> Shown(seen, syms, s) || Shows(syms, m, s)
  {
    if Shown(seen, syms, s) {
      var e :| e in seen && Shows(syms, e, s);
      assert e in seen + [m];
    }
    assert m in seen + [m];
  }

  /** What has been written so far: the saved symbols of the entries seen, each once, in the order in
      which their first entries come. */
  ghost predicate WrittenOnce(written: seq<Symbol>, write: set<Symbol>, saved: set<Symbol>,
                              seen: seq<Entry>, syms: map<Entry, Symbol>) {
    && (forall i, j :: 0 <= i < j < |written| ==> written[i] != written[j])
    && (forall i, j :: 0 <= i < j < |written| ==> Earlier(seen, syms, written[i], written[j]))
    && (forall s :: s in written <==> s in saved && s !in write)
    && (forall s :: s in write <==> s in saved && !Shown(seen, syms, s))
  }

  lemma EarlierStill(seen: seq<Entry>, m: Entry, syms: map<Entry, Symbol>, a: Symbol, b: Symbol)
    requires Earlier(seen, syms, a, b)
    ensures Earlier(seen + [m], syms, a, b)
  {
    var p :| 0 <= p < |seen| && Shows(syms, seen[p], a) && forall q :: 0 <= q <= p ==> !Shows(syms, seen[q], b);
    assert (seen + [m])[p] == seen[p];
    assert forall q :: 0 <= q <= p ==> (seen + [m])[q] == seen[q];
  }

  lemma EarlierNow(seen: seq<Entry>, e: Entry, syms: map<Entry, Symbol>, a: Symbol, b: Symbol)
    requires e in seen && Shows(syms, e, a) && !Shown(seen, syms, b)
    ensures Earlier(seen, syms, a, b)
  {
    var p :| 0 <= p < |seen| && seen[p] == e;
  }

  /** One entry: its symbol is written if it still carries SYMBOL_WRITE, which is then cleared. */
  method WriteEntry(m: Entry, syms: map<Entry, Symbol>, ghost saved: set<Symbol>, ghost seen: seq<Entry>,
                    written: seq<Symbol>, write: set<Symbol>)
    returns (written': seq<Symbol>, write': set<Symbol>)
    requires WrittenOnce(written, write, saved, seen, syms)
    ensures WrittenOnce(written', write', saved, seen + [m], syms)
  {
    written', write' := written, write;
    forall s ensures Shown(seen + [m], syms, s) <==> Shown(seen, syms, s) || Shows(syms, m, s) {
      ShownAfter(seen, m, syms, s);
    }
    if m in syms && syms[m] in write {
      forall i | 0 <= i < |written| ensures Earlier(seen, syms, written[i], syms[m]) {
        assert written[i] in written;
        var e :| e in seen && Shows(syms, e, written[i]);
        EarlierNow(seen, e, syms, written[i], syms[m]);
      }
      written' := written + [syms[m]];
      write' := write - {syms[m]};
    }
    forall i, j | 0 <= i < j < |written'| ensures Earlier(seen + [m], syms, written'[i], written'[j]) {
      EarlierStill(seen, m, syms, written'[i], written'[j]);
    }
  }

  /** conf_write, from rootmenu.list on: the entries are visited in preorder, each exactly once, and the
      symbols of entries that carry SYMBOL_WRITE are written exactly once, although several
      entries may have the same symbol. */
  method WriteAll(h: Links, syms: map<Entry, Symbol>, saved: set<Symbol>, root: Entry, ghost k: Forest)
    returns (visited: seq<Entry>, written: seq<Symbol>)
    requires Chain(h, Cons(root, k, Nil), To(root), Null, Null)
    ensures visited == Preorder(k)
    ensures forall i, j :: 0 <= i < j < |written| ==> written[i] != written[j]
    ensures forall i, j :: 0 <= i < j < |written| ==> Earlier(visited, syms, written[i], written[j])
    ensures forall s :: s in written <==> s in saved && exists m :: m in visited && m in syms && syms[m] == s
  {
    var menu := h.List(root);
    var write := saved;
    visited, written := [], [];
    ghost var todo, st := Start(h, root, k);
    while menu != Null
      invariant At(h, menu, todo, st)
      invariant visited + (Preorder(todo) + Pending(st)) == Preorder(k)
      invariant WrittenOnce(written, write, saved, visited, syms)
      decreases |Preorder(k)| - |visited|
    {
      var m := menu.e;
      written, write := WriteEntry(m, syms, saved, visited, written, write);
      SeqAssoc(visited, [m], (Preorder(todo) + Pending(st))[1..]);
      menu, todo, st := Step(h, m, todo, st);
      visited := visited + [m];
    }
    assert forall s :: Shown(visited, syms, s) <==> exists m :: m in visited && m in syms && syms[m] == s;
  }

  lemma Start(h: Links, root: Entry, k: Forest) returns (todo: Forest, st: Stack)
    requires Chain(h, Cons(root, k, Nil), To(root), Null, Null)
    ensures At(h, h.List(root), todo, st) && Preorder(todo) + Pending(st) == Preorder(k)
  {
    todo, st := k, Frame(root, Nil, Bottom);
    assert StackOk(h, st, To(root));
    assert Chain(h, k, h.List(root), To(root), Null);
  }
}
