/** Printing expressions with the parentheses they need (expr_compare_type, expr_print in expr.c),
    and a parser that reads the meaning back. */
module Printing {
  import opened Exprs

  datatype Token = Word(text: string) | BangTok | AndTok | OrTok | EqTok | NeTok | OpenTok | CloseTok

  datatype Kind = KNone | KOr | KAnd | KNot | KEqual | KUnequal | KList | KSymbol

  function KindOf(e: Expr): Kind {
    match e
    case Sym(_) => KSymbol
    case Not(_) => KNot
    case Bin(AndOp, _, _) => KAnd
    case Bin(OrOp, _, _) => KOr
    case Cmp(eq, _, _) => if eq then KEqual else KUnequal
  }

  /** expr_compare_type(t1, t2): each case of its switch falls through to the ones below. */
  function CompareType(t1: Kind, t2: Kind): int {
    if t1 == t2 then 0
    else if (t1 == KEqual || t1 == KUnequal) && t2 == KNot then 1
    else if (t1 == KEqual || t1 == KUnequal || t1 == KNot) && t2 == KAnd then 1
    else if (t1 == KEqual || t1 == KUnequal || t1 == KNot || t1 == KAnd) && t2 == KOr then 1
    else if (t1 == KEqual || t1 == KUnequal || t1 == KNot || t1 == KAnd || t1 == KOr) && t2 == KList then 1
    else if (t1 == KEqual || t1 == KUnequal || t1 == KNot || t1 == KAnd || t1 == KOr || t1 == KList)
            && t2 == KNone then 1
    else -1
  }

  /** How strongly kinds bind */
  function Binding(k: Kind): nat {
    match k
    case KNone => 0
    case KList => 1
    case KOr => 2
    case KAnd => 3
    case KNot => 4
    case _ => 5
  }

  /** The falling through amounts to comparing how strongly the two kinds bind; symbols are never compared. */
  lemma CompareTypeExactly(t1: Kind, t2: Kind)
    ensures CompareType(t1, t2) == if t1 == t2 then 0
                                   else if t1 != KSymbol && Binding(t1) > Binding(t2) then 1
                                   else -1
  {
  }

  /** The printed name of a symbol; choices have none. */
  function NameOf(s: Symbol, names: map<nat, string>): string {
    match s
    case Const(text) => text
    case Config(id, _) => if id in names then names[id] else "<choice>"
  }

  function OpToken(op: Op): Token { if op.AndOp? then AndTok else OrTok }

  /** expr_print(e, ..., prev) */
  function Print(e: Expr, prev: Kind, names: map<nat, string>): seq<Token>
    decreases e, 1
  {
    if CompareType(prev, KindOf(e)) > 0 then [OpenTok] + PrintBare(e, names) + [CloseTok]
    else PrintBare(e, names)
  }

  function PrintBare(e: Expr, names: map<nat, string>): seq<Token>
    decreases e, 0
  {
    match e
    case Sym(s) => [Word(NameOf(s, names))]
    case Not(a) => [BangTok] + Print(a, KNot, names)
    case Bin(op, l, r) => Print(l, KindOf(e), names) + [OpToken(op)] + Print(r, KindOf(e), names)
    case Cmp(eq, a, b) => [Word(NameOf(a, names)), if eq then EqTok else NeTok, Word(NameOf(b, names))]
  }

  // ----- a precedence parser -----

  type Parsed = Option<(Expr, seq<Token>)>

  /** operand { op operand }, associated to the right */
  function ParseChain(op: Op, ts: seq<Token>): (r: Parsed)
    ensures r.Some? ==> |r.value.1| < |ts|
    decreases |ts|, if op.OrOp? then 2 else 1
  {
    match (if op.OrOp? then ParseChain(AndOp, ts) else ParseUnary(ts))
    case None => None
    case Some((a, rest)) =>
      if rest == [] || rest[0] != OpToken(op) then Some((a, rest))
      else match ParseChain(op, rest[1..])
        case None => None
        case Some((b, more)) => Some((Bin(op, a, b), more))
  }

  function ParseUnary(ts: seq<Token>): (r: Parsed)
    ensures r.Some? ==> |r.value.1| < |ts|
    decreases |ts|, 0
  {
    if ts == [] then None
    else match ts[0]
      case BangTok =>
        (match ParseUnary(ts[1..])
         case None => None
         case Some((a, rest)) => Some((Not(a), rest)))
      case OpenTok =>
        (match ParseChain(OrOp, ts[1..])
         case None => None
         case Some((a, rest)) => if rest != [] && rest[0] == CloseTok then Some((a, rest[1..])) else None)
      case Word(x) =>
        if |ts| >= 3 && (ts[1] == EqTok || ts[1] == NeTok) && ts[2].Word?
        then Some((Cmp(ts[1] == EqTok, Const(x), Const(ts[2].text)), ts[3..]))
        else Some((Sym(Const(x)), ts[1..]))
      case _ => None
  }

  // ----- what survives printing -----

  /** The expression with names for symbols */
  function Named(e: Expr, names: map<nat, string>): Expr {
    match e
    case Sym(s) => Sym(Const(NameOf(s, names)))
    case Not(a) => Not(Named(a, names))
    case Bin(op, l, r) => Bin(op, Named(l, names), Named(r, names))
    case Cmp(eq, a, b) => Cmp(eq, Const(NameOf(a, names)), Const(NameOf(b, names)))
  }

  function Append(op: Op, a: Expr, b: Expr): Expr {
    if IsOp(op, a) then Bin(op, a.left, Append(op, a.right, b)) else Bin(op, a, b)
  }

  /** The same expression with all chains associated to the right */
  function RightAssoc(e: Expr): Expr {
    match e
    case Not(a) => Not(RightAssoc(a))
    case Bin(op, l, r) => Append(op, RightAssoc(l), RightAssoc(r))
    case _ => e
  }

  function Shape(e: Expr, names: map<nat, string>): (r: Expr)
    ensures KindOf(r) == KindOf(e)
  {
    RightAssoc(Named(e, names))
  }

  /** What may follow an operand of !, and a chain of op-expressions. */
  predicate EndsWord(rest: seq<Token>) {
    rest != [] ==> rest[0] != EqTok && rest[0] != NeTok
  }
  predicate EndsChain(op: Op, rest: seq<Token>) {
    EndsWord(rest) && (rest != [] ==> rest[0] != AndTok && (op.OrOp? ==> rest[0] != OrTok))
  }

  function KindOfOp(op: Op): Kind { if op.AndOp? then KAnd else KOr }

  lemma {:induction false} AppendAssoc(op: Op, a: Expr, b: Expr, c: Expr)
    ensures Append(op, Append(op, a, b), c) == Append(op, a, Append(op, b, c))
  {
    if IsOp(op, a) {
      AppendAssoc(op, a.right, b, c);
    }
  }

  lemma ReadWord(e: Expr, names: map<nat, string>, rest: seq<Token>)
    requires (e.Sym? || e.Cmp?) && EndsWord(rest)
    ensures ParseUnary(Print(e, KNot, names) + rest) == Some((Shape(e, names), rest))
  {
    var ts := Print(e, KNot, names) + rest;
    if e.Cmp? {
      assert Print(e, KNot, names) ==
             [Word(NameOf(e.lsym, names)), if e.equal then EqTok else NeTok, Word(NameOf(e.rsym, names))];
      assert ts[3..] == rest;
    } else {
      assert Print(e, KNot, names) == [Word(NameOf(e.sym, names))];
      assert ts[1..] == rest;
    }
  }

  lemma {:induction false} ReadUnary(e: Expr, names: map<nat, string>, rest: seq<Token>)
    requires EndsWord(rest)
    ensures ParseUnary(Print(e, KNot, names) + rest) == Some((Shape(e, names), rest))
    decreases e, if e.Bin? then 6 else 1
  {
    var ts := Print(e, KNot, names) + rest;
    match e
    case Sym(_) => ReadWord(e, names, rest);
    case Cmp(_, _, _) => ReadWord(e, names, rest);
    case Not(a) =>
      assert Print(e, KNot, names) == [BangTok] + Print(a, KNot, names);
      assert ts[1..] == Print(a, KNot, names) + rest;
      ReadUnary(a, names, rest);
    case Bin(op, _, _) =>
      assert Print(e, KOr, names) == PrintBare(e, names);
      assert ts[1..] == Print(e, KOr, names) + ([CloseTok] + rest);
      ReadLast(OrOp, e, names, [CloseTok] + rest);
      assert ([CloseTok] + rest)[1..] == rest;
  }

  function ParseOperand(op: Op, ts: seq<Token>): Parsed {
    if op.OrOp? then ParseChain(AndOp, ts) else ParseUnary(ts)
  }

  /** An operand of an op-expression that is not one itself */
  lemma {:induction false} ReadOperand(op: Op, e: Expr, names: map<nat, string>, rest: seq<Token>)
    requires !IsOp(op, e) && EndsWord(rest) && (op.OrOp? ==> EndsChain(AndOp, rest))
    ensures ParseOperand(op, Print(e, KindOfOp(op), names) + rest) == Some((Shape(e, names), rest))
    decreases e, if op.OrOp? then 4 else if IsOp(OrOp, e) then 7 else 2
  {
    if op.OrOp? {
      assert Print(e, KOr, names) == Print(e, KAnd, names);
      ReadLast(AndOp, e, names, rest);
    } else {
      assert Print(e, KAnd, names) == Print(e, KNot, names);
      ReadUnary(e, names, rest);
    }
  }

  lemma PrintChain(op: Op, e: Expr, names: map<nat, string>)
    requires IsOp(op, e)
    ensures Print(e, KindOfOp(op), names) ==
            Print(e.left, KindOfOp(op), names) + [OpToken(op)] + Print(e.right, KindOfOp(op), names)
    ensures Shape(e, names) == Append(op, Shape(e.left, names), Shape(e.right, names))
  {
  }

  lemma StopChain(op: Op, ts: seq<Token>, a: Expr, rest: seq<Token>)
    requires ParseOperand(op, ts) == Some((a, rest)) && EndsChain(op, rest)
    ensures ParseChain(op, ts) == Some((a, rest))
  {
  }

  lemma ContinueChain(op: Op, ts: seq<Token>, a: Expr, more: seq<Token>, x: Expr, rest: seq<Token>)
    requires ParseOperand(op, ts) == Some((a, [OpToken(op)] + more)) && ParseChain(op, more) == Some((x, rest))
    ensures ParseChain(op, ts) == Some((Bin(op, a, x), rest))
  {
    assert ([OpToken(op)] + more)[1..] == more;
  }

  /** The last operands of a chain */
  lemma {:induction false} ReadLast(op: Op, e: Expr, names: map<nat, string>, rest: seq<Token>)
    requires EndsChain(op, rest)
    ensures ParseChain(op, Print(e, KindOfOp(op), names) + rest) == Some((Shape(e, names), rest))
    decreases e, if op.OrOp? then 5 else if IsOp(OrOp, e) then 8 else 3
  {
    var k := KindOfOp(op);
    if IsOp(op, e) {
      var more := Print(e.right, k, names) + rest;
      ReadLast(op, e.right, names, rest);
      ReadMore(op, e.left, names, more, Shape(e.right, names), rest);
      PrintChain(op, e, names);
      SeqAssoc(Print(e.left, k, names), [OpToken(op)], Print(e.right, k, names), rest, []);
    } else {
      ReadOperand(op, e, names, rest);
      StopChain(op, Print(e, k, names) + rest, Shape(e, names), rest);
    }
  }

  /** Operands of a chain that goes on */
  lemma {:induction false} ReadMore(op: Op, e: Expr, names: map<nat, string>,
                                    more: seq<Token>, x: Expr, rest: seq<Token>)
    requires ParseChain(op, more) == Some((x, rest))
    ensures ParseChain(op, Print(e, KindOfOp(op), names) + ([OpToken(op)] + more))
            == Some((Append(op, Shape(e, names), x), rest))
    decreases e, if op.OrOp? then 5 else if IsOp(OrOp, e) then 8 else 3
  {
    var k := KindOfOp(op);
    var tail := [OpToken(op)] + more;
    if IsOp(op, e) {
      var mid := Print(e.right, k, names) + tail;
      var y := Append(op, Shape(e.right, names), x);
      ReadMore(op, e.right, names, more, x, rest);
      ReadMore(op, e.left, names, mid, y, rest);
      PrintChain(op, e, names);
      SeqAssoc(Print(e.left, k, names), [OpToken(op)], Print(e.right, k, names), tail, []);
      AppendAssoc(op, Shape(e.left, names), Shape(e.right, names), x);
    } else {
      ReadOperand(op, e, names, tail);
      ContinueChain(op, Print(e, k, names) + tail, Shape(e, names), more, x, rest);
    }
  }

  /** Reading a printed expression back gives it with names for symbols and chains associated right. */
  lemma ReadPrinted(e: Expr, names: map<nat, string>)
    ensures ParseChain(OrOp, Print(e, KNone, names)) == Some((Shape(e, names), []))
  {
    assert Print(e, KNone, names) == Print(e, KOr, names) + [];
    ReadLast(OrOp, e, names, []);
  }

  // ----- meaning -----

  lemma {:induction false} EvalAppend(op: Op, a: Expr, b: Expr, v: Valuation)
    ensures Eval(Append(op, a, b), v) == Apply(op, Eval(a, v), Eval(b, v))
  {
    if IsOp(op, a) {
      EvalAppend(op, a.right, b, v);
    }
  }

  lemma {:induction false} EvalRightAssoc(e: Expr, v: Valuation)
    ensures Eval(RightAssoc(e), v) == Eval(e, v)
  {
    match e
    case Not(a) => EvalRightAssoc(a, v);
    case Bin(op, l, r) =>
      EvalRightAssoc(l, v);
      EvalRightAssoc(r, v);
      EvalAppend(op, RightAssoc(l), RightAssoc(r), v);
    case _ =>
  }

  /** No two different symbols of the two expressions print the same. */
  ghost predicate NamesTell(a: Expr, b: Expr, names: map<nat, string>) {
    forall s, t :: (Contains(a, s) && Contains(b, t) && NameOf(s, names) == NameOf(t, names)) ==> s == t
  }

  lemma {:induction false} NamedInjective(a: Expr, b: Expr, names: map<nat, string>)
    requires Named(a, names) == Named(b, names) && NamesTell(a, b, names)
    ensures a == b
  {
    match a
    case Sym(s) => assert Contains(a, s) && Contains(b, b.sym);
    case Cmp(_, s, t) =>
      assert Contains(a, s) && Contains(a, t) && Contains(b, b.lsym) && Contains(b, b.rsym);
    case Not(x) =>
      assert forall s :: (Contains(x, s) ==> Contains(a, s)) && (Contains(b.arg, s) ==> Contains(b, s));
      NamedInjective(x, b.arg, names);
    case Bin(_, l, r) =>
      assert forall s :: (Contains(l, s) || Contains(r, s) ==> Contains(a, s));
      assert forall s :: (Contains(b.left, s) || Contains(b.right, s) ==> Contains(b, s));
      NamedInjective(l, b.left, names);
      NamedInjective(r, b.right, names);
  }

  lemma {:induction false} NamedAppend(op: Op, a: Expr, b: Expr, s: Symbol, names: map<nat, string>)
    ensures Named(Append(op, a, b), names) == Append(op, Named(a, names), Named(b, names))
    ensures Contains(Append(op, a, b), s) <==> Contains(a, s) || Contains(b, s)
  {
    if IsOp(op, a) {
      NamedAppend(op, a.right, b, s, names);
    }
  }

  lemma {:induction false} NamedRightAssoc(e: Expr, s: Symbol, names: map<nat, string>)
    ensures Named(RightAssoc(e), names) == RightAssoc(Named(e, names))
    ensures Contains(RightAssoc(e), s) <==> Contains(e, s)
  {
    match e
    case Not(a) => NamedRightAssoc(a, s, names);
    case Bin(op, l, r) =>
      NamedRightAssoc(l, s, names);
      NamedRightAssoc(r, s, names);
      NamedAppend(op, RightAssoc(l), RightAssoc(r), s, names);
    case _ =>
  }

  lemma SeqAssoc(a: seq<Token>, b: seq<Token>, c: seq<Token>, d: seq<Token>, e: seq<Token>)
    ensures a + b + (c + d + e) == (a + b + c) + d + e
    ensures (a + b + c) + d == a + (b + (c + d))
  {
  }

  lemma {:induction false} PrintAppend(op: Op, a: Expr, b: Expr, names: map<nat, string>)
    ensures Print(Append(op, a, b), KindOfOp(op), names) ==
            Print(a, KindOfOp(op), names) + [OpToken(op)] + Print(b, KindOfOp(op), names)
  {
    var k := KindOfOp(op);
    PrintChain(op, Append(op, a, b), names);
    if IsOp(op, a) {
      PrintChain(op, a, names);
      PrintAppend(op, a.right, b, names);
      SeqAssoc(Print(a.left, k, names), [OpToken(op)], Print(a.right, k, names), [OpToken(op)], Print(b, k, names));
    }
  }

  lemma {:induction false} PrintRightAssoc(e: Expr, prev: Kind, names: map<nat, string>)
    ensures Print(RightAssoc(e), prev, names) == Print(e, prev, names)
    ensures PrintBare(RightAssoc(e), names) == PrintBare(e, names)
  {
    match e
    case Not(a) => PrintRightAssoc(a, KNot, names);
    case Bin(op, l, r) =>
      PrintRightAssoc(l, KindOfOp(op), names);
      PrintRightAssoc(r, KindOfOp(op), names);
      PrintAppend(op, RightAssoc(l), RightAssoc(r), names);
    case _ =>
  }

  /** Two expressions print the same if and only if they differ in association only. */
  lemma PrintTellsApart(a: Expr, b: Expr, names: map<nat, string>)
    requires NamesTell(a, b, names)
    ensures Print(a, KNone, names) == Print(b, KNone, names) <==> RightAssoc(a) == RightAssoc(b)
  {
    if RightAssoc(a) == RightAssoc(b) {
      PrintRightAssoc(a, KNone, names);
      PrintRightAssoc(b, KNone, names);
    }
    if Print(a, KNone, names) == Print(b, KNone, names) {
      ReadPrinted(a, names);
      ReadPrinted(b, names);
      forall s
        ensures (Contains(RightAssoc(a), s) <==> Contains(a, s)) && (Contains(RightAssoc(b), s) <==> Contains(b, s))
      {
        NamedRightAssoc(a, s, names);
        NamedRightAssoc(b, s, names);
      }
      NamedRightAssoc(a, SYM_Y, names);
      NamedRightAssoc(b, SYM_Y, names);
      NamedInjective(RightAssoc(a), RightAssoc(b), names);
    }
  }

  /** So what is printed fixes the value. */
  lemma PrintFixesValue(a: Expr, b: Expr, names: map<nat, string>, v: Valuation)
    requires NamesTell(a, b, names) && Print(a, KNone, names) == Print(b, KNone, names)
    ensures Eval(a, v) == Eval(b, v)
  {
    PrintTellsApart(a, b, names);
    EvalRightAssoc(a, v);
    EvalRightAssoc(b, v);
  }

  /** Without distinct names it does not: any two symbols that print the same can differ. */
  lemma PrintNeedsNames(s: Symbol, t: Symbol, names: map<nat, string>)
    requires s.Config? && t.Config? && IsLogical(s) && s != t && NameOf(s, names) == NameOf(t, names)
    ensures Print(Sym(s), KNone, names) == Print(Sym(t), KNone, names)
    ensures exists v :: Typed(v) && Eval(Sym(s), v) != Eval(Sym(t), v)
  {
    var v := map[s := Value(YES, "")];
    assert Typed(v) && Eval(Sym(s), v) == YES && Eval(Sym(t), v) == NO;
  }

  /** Parentheses are around a disjunction in a conjunction or below a !, and around a conjunction below a !, only. */
  lemma Parentheses(e: Expr, names: map<nat, string>)
    ensures var bare := Print(e, KNone, names);
            && Print(e, KOr, names) == bare
            && Print(e, KAnd, names) == (if IsOp(OrOp, e) then [OpenTok] + bare + [CloseTok] else bare)
            && Print(e, KNot, names) == (if e.Bin? then [OpenTok] + bare + [CloseTok] else bare)
  {
  }

  /** How each kind of expression is written */
  lemma PrintedForms(l: Expr, r: Expr, a: Symbol, b: Symbol, names: map<nat, string>)
    ensures Print(Bin(AndOp, l, r), KNone, names) == Print(l, KAnd, names) + [AndTok] + Print(r, KAnd, names)
    ensures Print(Bin(OrOp, l, r), KNone, names) == Print(l, KOr, names) + [OrTok] + Print(r, KOr, names)
    ensures Print(Not(l), KNone, names) == [BangTok] + Print(l, KNot, names)
    ensures Print(Cmp(true, a, b), KNone, names) == [Word(NameOf(a, names)), EqTok, Word(NameOf(b, names))]
    ensures Print(Cmp(false, a, b), KNone, names) == [Word(NameOf(a, names)), NeTok, Word(NameOf(b, names))]
  {
  }
}
