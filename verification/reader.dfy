/** Reading a configuration file line by line in a buffer (conf_read_simple and conf_set_sym_val
    in confdata.c). */
module Readers {
  import opened Exprs
  import opened ConfText

  /** From p on the buffer holds a text and its terminator. */
  ghost predicate HoldsAt(a: array<char>, p: nat, text: string)
    reads a
  {
    p + |text| < a.Length && a[p..p + |text|] == text && a[p + |text|] == NUL && NUL !in text
  }

  lemma HoldsRest(a: array<char>, p: nat, text: string, i: nat)
    requires HoldsAt(a, p, text) && i <= |text|
    ensures HoldsAt(a, p + i, text[i..])
    ensures a[p + i] == NUL <==> i == |text|
    ensures i < |text| ==> a[p + i] == text[i]
  {
    if i < |text| {
      assert a[p..p + |text|][i] == text[i];
    }
  }

  /** strchr: the place of the first c, or of the terminator */
  method StrChr(a: array<char>, p: nat, c: char, ghost text: string) returns (q: nat)
    requires HoldsAt(a, p, text) && c != NUL
    ensures q == p + IndexOf(text, c)
  {
    q := p;
    while a[q] != NUL && a[q] != c
      invariant p <= q <= p + |text| && c !in text[..q - p]
      decreases p + |text| - q
    {
      assert a[p..p + |text|][q - p] == text[q - p];
      assert text[..q - p + 1] == text[..q - p] + [text[q - p]];
      q := q + 1;
    }
    if q < p + |text| {
      assert a[p..p + |text|][q - p] == text[q - p];
    }
    IndexIs(text, c, q - p);
  }

  /** strdup of the text at p */
  method Copy(a: array<char>, p: nat, ghost text: string) returns (s: string)
    requires HoldsAt(a, p, text)
    ensures s == text
  {
    s := "";
    while a[p + |s|] != NUL
      invariant |s| <= |text| && s == text[..|s|]
      decreases |text| - |s|
    {
      assert a[p..p + |text|][|s|] == text[|s|];
      s := s + [a[p + |s|]];
    }
  }

  /** *q = 0 splits the text in two. */
  method Cut(a: array<char>, p: nat, q: nat, ghost text: string)
    requires HoldsAt(a, p, text) && p <= q < p + |text|
    modifies a
    ensures HoldsAt(a, p, text[..q - p]) && HoldsAt(a, q + 1, text[q - p + 1..]) && a[..q] == old(a[..q])
  {
    a[q] := NUL;
    assert a[p..q] == old(a[p..p + |text|])[..q - p];
    assert a[q + 1..p + |text|] == old(a[p..p + |text|])[q - p + 1..];
  }

  // ----- removing the backslashes -----

  /** strpbrk(p, "\"\\"): the place of the first of them, or of the terminator */
  method StrPBrk(a: array<char>, p: nat, ghost text: string) returns (q: nat)
    requires HoldsAt(a, p, text)
    ensures p <= q <= p + |text| && (forall i :: 0 <= i < q - p ==> !Special(text[i]))
    ensures q < p + |text| ==> Special(text[q - p]) && a[q] == text[q - p]
  {
    q := p;
    while a[q] != NUL && !Special(a[q])
      invariant p <= q <= p + |text| && (forall i :: 0 <= i < q - p ==> !Special(text[i]))
      decreases p + |text| - q
    {
      assert a[p..p + |text|][q - p] == text[q - p];
      q := q + 1;
    }
    if q < p + |text| {
      assert a[p..p + |text|][q - p] == text[q - p];
    }
  }

  /** memmove(q, q + 1, strlen(q)) */
  method Remove(a: array<char>, q: nat, ghost text: string)
    requires HoldsAt(a, q, text) && text != ""
    modifies a
    ensures HoldsAt(a, q, text[1..]) && a[..q] == old(a[..q])
  {
    var n := q;
    while a[n] != NUL
      invariant q <= n <= q + |text|
      decreases q + |text| - n
    {
      assert a[q..q + |text|][n - q] == text[n - q];
      n := n + 1;
    }
    forall i | q <= i < n {
      a[i] := a[i + 1];
    }
    assert a[q..q + |text| - 1] == old(a[q..q + |text|])[1..];
  }

  lemma {:induction false} UnquotePlain(s: string, l: nat)
    requires l <= |s| && forall i :: 0 <= i < l ==> !Special(s[i])
    ensures Unquote(s) == Prepend(s[..l], Unquote(s[l..]))
  {
    if l == 0 {
      assert s[0..] == s;
      PrependNothing(Unquote(s));
    } else {
      UnquotePlain(s[1..], l - 1);
      assert s[1..][l - 1..] == s[l..] && s[..l] == [s[0]] + s[1..][..l - 1];
      PrependTwice([s[0]], s[1..][..l - 1], Unquote(s[l..]));
    }
  }

  lemma PrependNothing(q: Quoted)
    ensures Prepend("", q) == q
  {
  }

  lemma PrependTwice(a: string, b: string, q: Quoted)
    ensures Prepend(a, Prepend(b, q)) == Prepend(a + b, q)
  {
    if q.Closed? {
      assert a + (b + q.text) == a + b + q.text;
    }
  }

  ghost predicate Progress(text: string, done: string, todo: string) {
    Unquote(text) == Prepend(done, Unquote(todo))
  }

  /** A stretch without quotes and backslashes is done. */
  lemma StretchDone(text: string, done: string, todo: string, l: nat)
    requires Progress(text, done, todo) && l <= |todo| && forall i :: 0 <= i < l ==> !Special(todo[i])
    ensures Progress(text, done + todo[..l], todo[l..])
  {
    UnquotePlain(todo, l);
    PrependTwice(done, todo[..l], Unquote(todo[l..]));
  }

  /** So is a backslash with the character it protects. */
  lemma ProtectedDone(text: string, done: string, todo: string)
    requires Progress(text, done, todo) && |todo| >= 2 && todo[0] == '\\'
    ensures Progress(text, done + [todo[1]], todo[2..])
  {
    PrependTwice(done, [todo[1]], Unquote(todo[2..]));
  }

  /** At the end of the text, at a quote, or at a last backslash it is clear what the text is. */
  lemma StopAt(text: string, done: string, todo: string)
    requires Progress(text, done, todo)
    ensures todo == "" ==> Unquote(text) == Unclosed
    ensures todo != "" && todo[0] == '"' ==> Unquote(text) == Closed(done)
    ensures |todo| == 1 && todo[0] == '\\' ==> Unquote(text) == Overrun
  {
  }

  /** The text in front of p2 is done, and the rest of the buffer's text is still to do. */
  ghost predicate Halfway(a: array<char>, p: nat, p2: nat, done: string, todo: string)
    reads a
  {
    p2 == p + |done| && HoldsAt(a, p2, todo) && a[p..p2] == done && NUL !in done
  }

  lemma Further(a: array<char>, p: nat, p2: nat, done: string, todo: string, l: nat)
    requires Halfway(a, p, p2, done, todo) && l <= |todo|
    ensures Halfway(a, p, p2 + l, done + todo[..l], todo[l..])
  {
    HoldsRest(a, p2, todo, l);
    assert a[p2..p2 + l] == a[p2..p2 + |todo|][..l];
    assert a[p..p2 + l] == a[p..p2] + a[p2..p2 + l];
  }

  /** Without its backslash, the protected character is done. */
  method TakeProtected(a: array<char>, p: nat, q: nat, ghost done: string, ghost todo: string)
    requires Halfway(a, p, q, done, todo) && |todo| >= 2
    modifies a
    ensures Halfway(a, p, q + 1, done + [todo[1]], todo[2..])
  {
    Remove(a, q, todo);
    assert a[p..q] == a[..q][p..] == done;
    Further(a, p, q, done, todo[1..], 1);
    assert todo[1..][..1] == [todo[1]] && todo[1..][1..] == todo[2..];
  }

  method Close(a: array<char>, p: nat, q: nat, ghost done: string, ghost todo: string)
    requires Halfway(a, p, q, done, todo)
    modifies a
    ensures HoldsAt(a, p, done)
  {
    a[q] := NUL;
    assert a[p..q] == done;
  }

  /** What the loop in conf_set_sym_val may come to */
  datatype State = GoOn | AtQuote | AtEnd | PastEnd

  /** What a state says about the text */
  ghost predicate Means(st: State, text: string, a: array<char>, p: nat)
    reads a
  {
    match st
    case GoOn => true
    case AtQuote => Unquote(text).Closed? && HoldsAt(a, p, Unquote(text).text)
    case AtEnd => Unquote(text) == Unclosed
    case PastEnd => Unquote(text) == Overrun
  }

  method NextStop(a: array<char>, p: nat, p2: nat, ghost text: string, ghost done: string, ghost todo: string)
    returns (q: nat, ghost done': string, ghost todo': string)
    requires Halfway(a, p, p2, done, todo) && Progress(text, done, todo)
    ensures Halfway(a, p, q, done', todo') && Progress(text, done', todo') && |todo'| <= |todo|
    ensures todo' == "" || (Special(todo'[0]) && a[q] == todo'[0] && q + 1 < a.Length)
    ensures a[q] == NUL <==> todo' == ""
    ensures todo' != "" ==> (a[q + 1] == NUL <==> |todo'| == 1)
  {
    q := StrPBrk(a, p2, todo);
    ghost var l := q - p2;
    StretchDone(text, done, todo, l);
    Further(a, p, p2, done, todo, l);
    done', todo' := done + todo[..l], todo[l..];
    if todo' != "" {
      HoldsRest(a, q, todo', 1);
    }
  }

  /** One round: find a quote or a backslash, and end the text there or take the backslash out.
      Behind a backslash at the very end of the text the C code goes on to read what follows the
      terminator; here that is the state PastEnd. */
  method Round(a: array<char>, p: nat, p2: nat, ghost text: string, ghost done: string, ghost todo: string)
    returns (st: State, next: nat, ghost done': string, ghost todo': string)
    requires Halfway(a, p, p2, done, todo) && Progress(text, done, todo)
    modifies a
    ensures st == GoOn ==> Halfway(a, p, next, done', todo') && Progress(text, done', todo') && |todo'| < |todo|
    ensures Means(st, text, a, p)
  {
    next, done', todo' := NextStop(a, p, p2, text, done, todo);
    StopAt(text, done', todo');
    if a[next] == NUL {
      st := AtEnd;
    } else if a[next] == '"' {
      Close(a, p, next, done', todo');
      st := AtQuote;
    } else if a[next + 1] == NUL {
      st := PastEnd;
    } else {
      TakeProtected(a, p, next, done', todo');
      ProtectedDone(text, done', todo');
      st, next, done', todo' := GoOn, next + 1, done' + [todo'[1]], todo'[2..];
    }
  }

  /** The S_STRING case of conf_set_sym_val: take the backslashes out of the text in the buffer, and end it
      at the closing quote. */
  method Unescape(a: array<char>, p: nat, ghost text: string) returns (st: State)
    requires HoldsAt(a, p, text)
    modifies a
    ensures st != GoOn && Means(st, text, a, p)
  {
    var p2 := p;
    ghost var done, todo := "", text;
    PrependNothing(Unquote(text));
    st := GoOn;
    while st == GoOn
      invariant st == GoOn ==> Halfway(a, p, p2, done, todo) && Progress(text, done, todo)
      invariant Means(st, text, a, p)
      decreases st == GoOn, |todo|
    {
      st, p2, done, todo := Round(a, p, p2, text, done, todo);
    }
  }

  class ConfReader {
    const line: array<char>
    var syms: map<string, Slot>

    constructor (declared: map<string, Slot>)
      ensures line.Length == LINE_SIZE && syms == declared && fresh(line)
    {
      line := new char[LINE_SIZE];
      syms := declared;
    }

    /** conf_set_sym_val */
    method SetSymVal(name: string, p: nat, ghost value: string)
      requires name in syms && HoldsAt(line, p, value)
      modifies this, line
      ensures syms == old(syms)[name := SetVal(old(syms)[name], value)]
    {
      var s := syms[name];
      HoldsRest(line, p, value, 0);
      if s.rtype == Declared(STristate) && line[p] == 'm' {
        s := s.(defined := true, tri := MOD);
      } else if s.rtype == Declared(STristate) || s.rtype == Declared(SBoolean) {
        if line[p] == 'y' {
          s := s.(defined := true, tri := YES);
        } else if line[p] == 'n' {
          s := s.(defined := true, tri := NO);
        }
      } else if s.rtype == Other {
        if line[p] != '"' {
          s := CheckText(s.(rtype := Declared(SString)), p, value);
        }
      } else if s.rtype == Declared(SString) {
        if line[p] == '"' {
          HoldsRest(line, p, value, 1);
          var st := Unescape(line, p + 1, value[1..]);
          if st == AtQuote {
            s := CheckText(s, p + 1, Unquote(value[1..]).text);
          }
        }
      } else {
        s := CheckText(s, p, value);
      }
      syms := syms[name := s];
    }

    /** The end of conf_set_sym_val: keep the text if it is valid. */
    method CheckText(s: Slot, p: nat, ghost value: string) returns (r: Slot)
      requires HoldsAt(line, p, value) && s.rtype.Declared?
      ensures r == if StringValid(s.rtype.t, value) then SetText(s, value) else s
    {
      var text := Copy(line, p, value);
      var valid := s.rtype.t == SString;
      if s.rtype.t == SInt {
        valid := IntValid(text);
      } else if s.rtype.t == SHex {
        valid := HexValid(text);
      }
      r := if valid then s.(defined := true, val := text) else s;
    }

    /** sym_find for S_DEF_USER, sym_lookup for S_DEF_AUTO */
    method Find(def: Def, name: string, missing: ReadType) returns (found: bool)
      modifies this`syms
      ensures var s := SlotFor(old(syms), def, name, missing);
              found == s.Some? && syms == if s.Some? then old(syms)[name := s.value] else old(syms)
    {
      found := name in syms;
      if def == Auto {
        if !found {
          syms := syms[name := Slot(missing, false, NO, "")];
        } else if syms[name].rtype == Declared(SUnknown) {
          syms := syms[name := syms[name].(rtype := missing)];
        }
        found := true;
      }
      assert found && name in old(syms) ==> old(syms) == old(syms)[name := old(syms)[name]];
    }

    /** A comment line may name a symbol that is not set. */
    method NotSetName(ghost text: string) returns (name: Option<string>)
      requires HoldsAt(line, 0, text) && text != ""
      modifies line
      ensures ParseUnset(text) == if name.Some? then Unset(name.value) else Skip
    {
      name := None;
      HoldsRest(line, 0, text, 1);
      if line[1] == NUL {
        // a lone # without a newline: the C code compares what an earlier line left behind
        return;
      }
      HoldsRest(line, 0, text, 2);
      assert forall t :: HasAt(text, 2, t) <==> HasAt(text[2..], 0, t);
      var isConfig := StartsWith(line, 2, CONFIG, text[2..]);
      if isConfig {
        name := NameBefore(NOT_SET, text[2..]);
      }
    }

    /** The name at the start of a text, if the given words follow it */
    method NameBefore(words: string, ghost text: string) returns (name: Option<string>)
      requires HoldsAt(line, 2, text) && NUL !in words
      modifies line
      ensures var sp := IndexOf(text, ' ');
              name == if sp < |text| && HasAt(text, sp + 1, words) then Some(text[..sp]) else None
    {
      name := None;
      var sp := StrChr(line, 2, ' ', text);
      HoldsRest(line, 2, text, sp - 2);
      if line[sp] == NUL {
        return;
      }
      Cut(line, 2, sp, text);
      assert HasAt(text, sp - 1, words) <==> HasAt(text[sp - 1..], 0, words);
      var found := StartsWith(line, sp + 1, words, text[sp - 1..]);
      if found {
        var n := Copy(line, 2, text[..sp - 2]);
        name := Some(n);
      }
    }

    /** A line that gives a symbol a value: the name, and where the value is */
    method NameAndValue(ghost text: string) returns (name: Option<string>, p: nat)
      requires HoldsAt(line, 0, text)
      modifies line
      ensures name == None ==> ParseAssign(text) == Skip
      ensures name.Some? ==> ParseAssign(text).Assign? && ParseAssign(text).name == name.value
                             && HoldsAt(line, p, ParseAssign(text).value)
    {
      name, p := None, 0;
      var eq := StrChr(line, 0, '=', text);
      HoldsRest(line, 0, text, eq);
      if line[eq] != NUL {
        Cut(line, 0, eq, text);
        var n := Copy(line, 0, text[..eq]);
        name, p := Some(n), eq + 1;
        assert line[p - 1] == NUL;
        StripNewline(p, text[p..]);
      }
    }

    method StripNewline(p: nat, ghost value: string)
      requires HoldsAt(line, p, value) && p > 0 && line[p - 1] == NUL
      modifies line
      ensures HoldsAt(line, p, Chomp(value))
    {
      var p2 := StrChr(line, p, '\n', value);
      HoldsRest(line, p, value, p2 - p);
      if line[p2] != NUL {
        Cut(line, p, p2, value);
        assert line[p - 1] == line[..p2][p - 1] == old(line[..p2])[p - 1];
        StripReturn(p, p2, value[..p2 - p]);
      }
    }

    /** The character before p2, which is the end of the value, or the zero that ends the name */
    method StripReturn(p: nat, p2: nat, ghost value: string)
      requires HoldsAt(line, p, value) && p > 0 && p2 == p + |value| && line[p - 1] == NUL
      modifies line
      ensures HoldsAt(line, p, WithoutReturn(value))
    {
      if value != "" {
        HoldsRest(line, p, value, |value| - 1);
      }
      if line[p2 - 1] == '\r' {
        Cut(line, p, p2 - 1, value);
      }
    }

    /** The body of the loop in conf_read_simple */
    method ReadLine(def: Def, ghost text: string)
      requires HoldsAt(line, 0, text)
      modifies this, line
      ensures syms == Obey(old(syms), def, ParseLine(text))
    {
      HoldsRest(line, 0, text, 0);
      if line[0] == '#' {
        var name := NotSetName(text);
        if name.Some? {
          MakeUnset(def, name.value);
        }
      } else if IsUpper(line[0]) {
        var name, p := NameAndValue(text);
        if name.Some? {
          MakeAssigned(def, name.value, p, ParseAssign(text).value);
        }
      }
    }

    method MakeUnset(def: Def, name: string)
      modifies this`syms
      ensures syms == Obey(old(syms), def, Unset(name))
    {
      var found := Find(def, name, Declared(SBoolean));
      if found {
        syms := syms[name := SetNo(syms[name])];
      }
    }

    method MakeAssigned(def: Def, name: string, p: nat, ghost value: string)
      requires HoldsAt(line, p, value)
      modifies this, line
      ensures syms == Obey(old(syms), def, Assign(name, value))
    {
      var found := Find(def, name, Other);
      if found {
        SetSymVal(name, p, value);
      }
    }

    /** fgets: the characters up to and including a newline, as many as fit */
    method Fgets(file: string, pos: nat) returns (n: nat)
      requires pos < |file| && line.Length == LINE_SIZE
      modifies line
      ensures n == FgetsLen(file[pos..]) && n > 0 && HoldsAt(line, 0, FirstLine(file[pos..]))
    {
      ghost var rest := file[pos..];
      n := 0;
      while n < LINE_SIZE - 1 && pos + n < |file| && (n == 0 || file[pos + n - 1] != '\n')
        invariant n <= LINE_SIZE - 1 && pos + n <= |file|
        invariant line[..n] == rest[..n] && (n > 0 ==> '\n' !in rest[..n - 1])
      {
        line[n] := file[pos + n];
        assert n > 0 ==> rest[..n] == rest[..n - 1] + [rest[n - 1]];
        n := n + 1;
      }
      line[n] := NUL;
      FgetsTakes(rest, n);
      IndexFirst(rest[..n], NUL);
      ghost var k := IndexOf(rest[..n], NUL);
      assert line[0..k] == rest[..n][..k];
    }

    /** One round of the loop in conf_read_simple */
    method ReadNext(file: string, pos: nat, def: Def, ghost todo: seq<Line>) returns (n: nat)
      requires pos < |file| && line.Length == LINE_SIZE && todo == Lines(file[pos..])
      modifies this, line
      ensures 0 < n <= |file| - pos && Lines(file[pos + n..]) == todo[1..]
      ensures syms == Obey(old(syms), def, todo[0])
    {
      n := Fgets(file, pos);
      ReadLine(def, FirstLine(file[pos..]));
      assert file[pos..][n..] == file[pos + n..];
    }

    method ReadAll(file: string, def: Def, ghost lines: seq<Line>)
      requires line.Length == LINE_SIZE && lines == Lines(file)
      modifies this, line
      ensures syms == ObeyAll(old(syms), def, lines)
    {
      var pos := 0;
      ghost var todo := lines;
      assert file[0..] == file;
      while pos < |file|
        invariant pos <= |file| && todo == Lines(file[pos..])
        invariant ObeyAll(syms, def, todo) == ObeyAll(old(syms), def, lines)
        decreases |file| - pos
      {
        var n := ReadNext(file, pos, def, todo);
        pos := pos + n;
        todo := todo[1..];
      }
    }

    /** conf_read_simple */
    method ReadSimple(file: string, def: Def)
      requires line.Length == LINE_SIZE
      modifies this, line
      ensures syms == ReadFile(old(syms), def, file)
    {
      syms := Reset(syms);
      ReadAll(file, def, Lines(file));
    }
  }

  lemma FgetsTakes(rest: string, n: nat)
    requires 0 < n <= |rest| && n < LINE_SIZE && '\n' !in rest[..n - 1]
    requires n == LINE_SIZE - 1 || n == |rest| || rest[n - 1] == '\n'
    ensures FgetsLen(rest) == n
  {
    if rest[n - 1] == '\n' {
      IndexIs(rest, '\n', n - 1);
    } else {
      assert rest[..n] == rest[..n - 1] + [rest[n - 1]];
      IndexFirst(rest, '\n');
      var i := IndexOf(rest, '\n');
      assert forall j :: 0 <= j < n ==> rest[j] == rest[..n][j];
    }
  }

  /** memcmp or strncmp with a constant */
  method StartsWith(a: array<char>, p: nat, t: string, ghost text: string) returns (b: bool)
    requires HoldsAt(a, p, text) && NUL !in t
    ensures b == HasAt(text, 0, t)
  {
    var i := 0;
    while i < |t|
      invariant i <= |t| && i <= |text| && text[..i] == t[..i]
    {
      HoldsRest(a, p, text, i);
      if a[p + i] != t[i] {
        if |t| <= |text| {
          assert text[0..|t|][i] == text[i];
        }
        return false;
      }
      i := i + 1;
    }
    b := true;
  }
}
