/** The symbol table (strhash, sym_lookup and sym_find in symbol.c): a chained hash table of symbols. */
module SymbolHash {
  import opened Exprs

  const SYMBOL_HASHSIZE := 9973

  /** The flags a symbol is looked up and made with: none, SYMBOL_CONST or SYMBOL_CHOICE */
  datatype Kind = Ordinary | Constant | Choice

  type Key = (string, Kind)

  class Node {
    const name: Option<string>
    const kind: Kind
    const next: Node?

    constructor (name: Option<string>, kind: Kind, next: Node?)
      ensures this.name == name && this.kind == kind && this.next == next
    {
      this.name, this.kind, this.next := name, kind, next;
    }

    predicate Is(key: Key) { name == Some(key.0) && kind == key.1 }
  }

  function Mix(h: bv32, c: char): bv32 { (h ^ (c as bv32)) * 0x01000193 }

  /** The fnv32 hash of a text */
  function Fnv(s: string): bv32
    decreases |s|
  {
    if s == "" then 2166136261 else Mix(Fnv(s[..|s| - 1]), s[|s| - 1])
  }

  function Bucket(name: string): nat { Fnv(name) as nat % SYMBOL_HASHSIZE }

  /** strhash */
  method StrHash(s: string) returns (hash: bv32)
    ensures hash == Fnv(s)
  {
    hash := 2166136261;
    var i := 0;
    while i < |s|
      invariant i <= |s| && hash == Fnv(s[..i])
    {
      assert s[..i + 1][..i] == s[..i];
      hash := Mix(hash, s[i]);
      i := i + 1;
    }
    assert s[..i] == s;
  }

  method BucketOf(name: string) returns (b: nat)
    ensures b == Bucket(name) && b < SYMBOL_HASHSIZE
  {
    var h := StrHash(name);
    b := h as nat % SYMBOL_HASHSIZE;
  }

  predicate Builtin(name: string) { name == "y" || name == "m" || name == "n" }

  /** The list from a node on */
  ghost predicate Linked(n: Node?, chain: seq<Node>) {
    if chain == [] then n == null else n == chain[0] && Linked(n.next, chain[1..])
  }

  /** What holds of a bucket: its names hash to it, are none of y, m and n, and each name occurs at most once
      with each kind. */
  ghost predicate ChainOk(chain: seq<Node>, b: nat) {
    && (forall i {:trigger chain[i]} :: 0 <= i < |chain| && chain[i].name.Some? ==>
          Bucket(chain[i].name.value) == b && !Builtin(chain[i].name.value))
    && (forall i, j {:trigger chain[i], chain[j]} :: 0 <= i < j < |chain| && chain[i].name.Some? ==>
          chain[i].name != chain[j].name || chain[i].kind != chain[j].kind)
  }

  ghost predicate InChain(chain: seq<Node>, key: Key, n: Node) {
    n in chain && n.Is(key)
  }

  /** Every bucket holds its list. */
  ghost predicate Bucketed(buckets: seq<Node?>, chains: seq<seq<Node>>) {
    && |buckets| == |chains| == SYMBOL_HASHSIZE
    && forall b {:trigger chains[b]} :: 0 <= b < |chains| ==> Linked(buckets[b], chains[b]) && ChainOk(chains[b], b)
  }

  /** The map says which symbols are in the buckets. */
  ghost predicate Indexed(chains: seq<seq<Node>>, contents: map<Key, Node>) {
    && (forall k {:trigger k in contents} :: k in contents ==>
          Bucket(k.0) < |chains| && InChain(chains[Bucket(k.0)], k, contents[k]))
    && (forall b, n {:trigger n in chains[b]} :: 0 <= b < |chains| && n in chains[b] && n.name.Some? ==>
          (n.name.value, n.kind) in contents && contents[(n.name.value, n.kind)] == n)
  }

  /** The symbol made last among those of this name that are no constants */
  ghost predicate FirstNamed(chain: seq<Node>, name: string, r: Node) {
    exists i :: 0 <= i < |chain| && chain[i] == r && forall j :: 0 <= j < i ==> !Named(chain[j], name)
  }

  predicate Named(n: Node, name: string) { n.name == Some(name) && n.kind != Constant }

  function Added(contents: map<Key, Node>, r: Node): map<Key, Node> {
    if r.name.Some? then contents[(r.name.value, r.kind) := r] else contents
  }

  lemma IndexedAdd(chains: seq<seq<Node>>, contents: map<Key, Node>, b: nat, r: Node)
    requires Indexed(chains, contents) && b < |chains|
    requires r.name.Some? ==> b == Bucket(r.name.value) && (r.name.value, r.kind) !in contents
    ensures Indexed(chains[b := [r] + chains[b]], Added(contents, r))
  {
    var chains', contents' := chains[b := [r] + chains[b]], Added(contents, r);
    forall k {:trigger k in contents'} | k in contents'
      ensures Bucket(k.0) < |chains'| && InChain(chains'[Bucket(k.0)], k, contents'[k])
    {
      var c := Bucket(k.0);
      if k in contents {
        assert InChain(chains[c], k, contents[k]) && (c != b ==> chains'[c] == chains[c]);
      }
    }
    forall c: nat, n: Node {:trigger n in chains'[c]} | 0 <= c < |chains'| && n in chains'[c] && n.name.Some?
      ensures (n.name.value, n.kind) in contents' && contents'[(n.name.value, n.kind)] == n
    {
      assert n == r || n in chains[c];
    }
  }

  class HashTable {
    const yes: Node
    const mod: Node
    const no: Node
    const buckets: array<Node?>
    /** The bucket lists, and the symbol of every name and kind */
    ghost var chains: seq<seq<Node>>
    ghost var contents: map<Key, Node>

    ghost predicate Valid()
      reads this, buckets
    {
      && yes.Is(("y", Constant)) && mod.Is(("m", Constant)) && no.Is(("n", Constant))
      && Bucketed(buckets[..], chains) && Indexed(chains, contents)
    }

    constructor ()
      ensures Valid() && contents == map[] && fresh(buckets)
    {
      yes := new Node(Some("y"), Constant, null);
      mod := new Node(Some("m"), Constant, null);
      no := new Node(Some("n"), Constant, null);
      buckets := new Node?[SYMBOL_HASHSIZE](i => null);
      chains := seq(SYMBOL_HASHSIZE, i => []);
      contents := map[];
    }

    function BuiltinNode(name: string): (r: Node)
      requires Builtin(name)
    {
      if name == "y" then yes else if name == "m" then mod else no
    }

    /** The loop of sym_lookup: the symbol of this name and kind in the bucket, if any */
    method Search(b: nat, key: Key) returns (r: Node?)
      requires Valid() && b == Bucket(key.0)
      ensures r == if key in contents then contents[key] else null
    {
      r := buckets[b];
      ghost var i := 0;
      ghost var chain := chains[b];
      while r != null && !(r.name == Some(key.0) && r.kind == key.1)
        invariant i <= |chain| && Linked(r, chain[i..])
        invariant forall j :: 0 <= j < i ==> !chain[j].Is(key)
        decreases |chain| - i
      {
        assert r == chain[i] && chain[i..][1..] == chain[i + 1..];
        r := r.next;
        i := i + 1;
      }
      if r != null {
        assert r == chain[i] && r in chains[b];
      }
    }

    /** The end of sym_lookup: a new symbol comes first in its bucket. */
    method Insert(b: nat, r: Node)
      requires Valid() && b < SYMBOL_HASHSIZE && r.next == buckets[b]
      requires r.name.Some? ==> b == Bucket(r.name.value) && !Builtin(r.name.value)
                                && (r.name.value, r.kind) !in contents
      modifies this`chains, this`contents, buckets
      ensures Valid()
      ensures contents == Added(old(contents), r) && chains == old(chains)[b := [r] + old(chains)[b]]
    {
      ghost var chain := chains[b];
      forall j | 0 <= j < |chain| && r.name.Some? && chain[j].name == r.name ensures chain[j].kind != r.kind {
        assert chain[j] in chains[b];
      }
      Pushed(chain, r, b);
      IndexedAdd(chains, contents, b, r);
      buckets[b] := r;
      chains := chains[b := [r] + chain];
      contents := Added(contents, r);
    }

    /** sym_lookup: y, m and n are always the same symbols; a name has at most one symbol of each kind, which
        further lookups find again; a symbol without a name is always new. */
    method Lookup(name: Option<string>, kind: Kind) returns (r: Node)
      requires Valid()
      modifies this, buckets
      ensures Valid()
      ensures (name == Some("y") ==> r == yes) && (name == Some("m") ==> r == mod) && (name == Some("n") ==> r == no)
      ensures name.Some? && name.value != "y" && name.value != "m" && name.value != "n" ==> r.Is((name.value, kind))
      ensures if name.None? then fresh(r) && r.name == None && r.kind == kind && contents == old(contents)
              else if Builtin(name.value) then r == BuiltinNode(name.value) && contents == old(contents)
              else if (name.value, kind) in old(contents)
              then r == old(contents)[(name.value, kind)] && contents == old(contents)
              else fresh(r) && r.Is((name.value, kind)) && contents == old(contents)[(name.value, kind) := r]
      ensures if contents == old(contents) && name.Some? then chains == old(chains)
              else var b := if name.Some? then Bucket(name.value) else 0;
                   chains == old(chains)[b := [r] + old(chains)[b]]
    {
      var hash := 0;
      if name.Some? {
        if Builtin(name.value) {
          return BuiltinNode(name.value);
        }
        hash := BucketOf(name.value);
        var symbol := Search(hash, (name.value, kind));
        if symbol != null {
          return symbol;
        }
      }
      r := new Node(name, kind, buckets[hash]);
      Insert(hash, r);
    }

    /** sym_find: never a constant, except for y, m and n. A choice may have a name too: when a symbol and
        a choice share one, whichever was made last is found. */
    method Find(name: string) returns (r: Node?)
      requires Valid()
      ensures (name == "y" ==> r == yes) && (name == "m" ==> r == mod) && (name == "n" ==> r == no)
      ensures name != "y" && name != "m" && name != "n" && r != null ==> r.name == Some(name)
      ensures !Builtin(name) ==>
                (r == null <==> (name, Ordinary) !in contents && (name, Choice) !in contents)
      ensures !Builtin(name) && r != null ==>
                r.kind != Constant && (name, r.kind) in contents && r == contents[(name, r.kind)]
      ensures !Builtin(name) && r != null ==> FirstNamed(chains[Bucket(name)], name, r)
    {
      if Builtin(name) {
        return BuiltinNode(name);
      }
      var b := BucketOf(name);
      r := buckets[b];
      ghost var i := 0;
      ghost var chain := chains[b];
      while r != null && !Named(r, name)
        invariant i <= |chain| && Linked(r, chain[i..])
        invariant forall j :: 0 <= j < i ==> !Named(chain[j], name)
        decreases |chain| - i
      {
        assert r == chain[i] && chain[i..][1..] == chain[i + 1..];
        r := r.next;
        i := i + 1;
      }
      if r != null {
        assert r == chain[i] && r in chains[b];
      }
    }
  }

  lemma Pushed(chain: seq<Node>, r: Node, b: nat)
    requires Linked(r.next, chain) && ChainOk(chain, b)
    requires r.name.Some? ==> b == Bucket(r.name.value) && !Builtin(r.name.value)
    requires forall j :: 0 <= j < |chain| && r.name.Some? && chain[j].name == r.name ==> chain[j].kind != r.kind
    ensures Linked(r, [r] + chain) && ChainOk([r] + chain, b)
  {
    assert ([r] + chain)[1..] == chain;
  }

  /** Constants are interned, and so are all other named symbols: in the buckets of the table there are no two
      of the same name and kind, and none of the name y, m or n. */
  lemma Interned(t: HashTable, b: nat, i: nat, c: nat, j: nat)
    requires t.Valid() && b < |t.chains| && c < |t.chains| && i < |t.chains[b]| && j < |t.chains[c]|
    requires t.chains[b][i].name.Some? && t.chains[b][i].name == t.chains[c][j].name
    ensures var name := t.chains[b][i].name.value; name != "y" && name != "m" && name != "n"
    ensures t.chains[b][i].kind == t.chains[c][j].kind ==> b == c && i == j
  {
    assert t.chains[b][i] in t.chains[b] && t.chains[c][j] in t.chains[c];
  }

  /** The published values of the 32-bit FNV-1a hash for the empty text, "a" and "fo" */
  lemma FnvKnown()
    ensures Fnv("") == 0x811c9dc5 && Fnv("a") == 0xe40c292c && Fnv("fo") == 0x6222e842
  {
    assert "a"[..0] == "" && "fo"[..1] == "f" && "f"[..0] == "";
    assert 'a' as bv32 == 97 && 'f' as bv32 == 102 && 'o' as bv32 == 111;
  }
}
