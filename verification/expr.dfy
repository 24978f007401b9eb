/** Three-valued logic, symbols and dependency expressions (expr.h). */
module Exprs {

  datatype Option<+T> = None | Some(value: T)

  /** n, m and y are numbered 0, 1 and 2. */
  type Tristate = t: int | 0 <= t <= 2
  const NO: Tristate := 0
  const MOD: Tristate := 1
  const YES: Tristate := 2

  datatype Op = AndOp | OrOp

  datatype SymType = SUnknown | SBoolean | STristate | SInt | SHex | SString

  /** A symbol is known by its address. Constants are interned, so a constant is its text;
      every other symbol has a number of its own, because choices have no name. */
  datatype Symbol = Const(text: string) | Config(id: nat, stype: SymType)

  const SYM_Y := Const("y")
  const SYM_M := Const("m")
  const SYM_N := Const("n")

  datatype Expr =
    | Sym(sym: Symbol)
    | Not(arg: Expr)
    | Bin(op: Op, left: Expr, right: Expr)
    | Cmp(equal: bool, lsym: Symbol, rsym: Symbol)

  /** The current value of a symbol: a tristate and a text. */
  datatype Value = Value(tri: Tristate, text: string)

  type Valuation = map<Symbol, Value>

  function TypeOf(s: Symbol): SymType {
    match s
    case Const(_) => SUnknown
    case Config(_, t) => t
  }

  predicate IsLogical(s: Symbol) {
    TypeOf(s) == SBoolean || TypeOf(s) == STristate
  }

  /** What symbol types promise about values: a boolean is never m, and only
      boolean and tristate symbols carry a tristate. */
  ghost predicate Typed(v: Valuation) {
    forall s :: s in v && s.Config? ==>
      && (s.stype == SBoolean ==> v[s].tri != MOD)
      && (!IsLogical(s) ==> v[s].tri == NO)
  }

  /** Every configurable symbol is n or y. */
  ghost predicate TwoValued(v: Valuation) {
    forall s :: s in v && s.Config? ==> v[s].tri != MOD
  }

  function TriText(t: Tristate): (r: string)
    ensures |r| == 1
    ensures r[0] == (if t == NO then 'n' else if t == MOD then 'm' else 'y')
  {
    if t == NO then "n" else if t == MOD then "m" else "y"
  }

  function TriOf(s: Symbol, v: Valuation): Tristate {
    match s
    case Const(text) => if text == "y" then YES else if text == "m" then MOD else NO
    case Config(_, _) => if s in v then v[s].tri else NO
  }

  function TextOf(s: Symbol, v: Valuation): string {
    match s
    case Const(text) => text
    case Config(_, _) =>
      if IsLogical(s) then TriText(TriOf(s, v))
      else if s in v then v[s].text else ""
  }

  function Apply(op: Op, a: Tristate, b: Tristate): Tristate {
    match op
    case AndOp => if a < b then a else b
    case OrOp => if a > b then a else b
  }

  function Neg(a: Tristate): Tristate { 2 - a }

  function Truth(b: bool): Tristate { if b then YES else NO }

  function Eval(e: Expr, v: Valuation): Tristate {
    match e
    case Sym(s) => TriOf(s, v)
    case Not(a) => Neg(Eval(a, v))
    case Bin(op, l, r) => Apply(op, Eval(l, v), Eval(r, v))
    case Cmp(eq, a, b) => Truth((TextOf(a, v) == TextOf(b, v)) == eq)
  }

  function Dual(op: Op): Op { if op.AndOp? then OrOp else AndOp }

  /** The operand that does not matter, and the one that decides. */
  function Neutral(op: Op): Expr { if op.AndOp? then Sym(SYM_Y) else Sym(SYM_N) }
  function Absorbing(op: Op): Expr { Neutral(Dual(op)) }

  lemma EvalYn(v: Valuation)
    ensures Eval(Sym(SYM_Y), v) == YES && Eval(Sym(SYM_M), v) == MOD && Eval(Sym(SYM_N), v) == NO
  {
    assert SYM_M.text[0] == 'm' && SYM_N.text[0] == 'n';
  }

  lemma EvalNeutral(op: Op, t: Tristate, v: Valuation)
    ensures Apply(op, Eval(Neutral(op), v), t) == t == Apply(op, t, Eval(Neutral(op), v))
    ensures Apply(op, Eval(Absorbing(op), v), t) == Eval(Absorbing(op), v) == Apply(op, t, Eval(Absorbing(op), v))
  {
    EvalYn(v);
  }

  predicate IsYn(e: Expr) { e == Sym(SYM_Y) || e == Sym(SYM_N) }

  function Size(e: Expr): (n: nat)
    ensures n >= 1
  {
    match e
    case Sym(_) => 1
    case Not(a) => 1 + Size(a)
    case Bin(_, l, r) => 1 + Size(l) + Size(r)
    case Cmp(_, _, _) => 1
  }

  predicate IsOp(op: Op, e: Expr) { e.Bin? && e.op == op }

  /** The information order of three-valued logic: m may become anything, n and y stay. */
  predicate Refines(a: Tristate, b: Tristate) { a == MOD || a == b }

  /** expr_contains_symbol */
  predicate Contains(e: Expr, s: Symbol) {
    match e
    case Sym(x) => x == s
    case Not(a) => Contains(a, s)
    case Bin(_, l, r) => Contains(l, s) || Contains(r, s)
    case Cmp(_, a, b) => a == s || b == s
  }

  /** expr_depends_symbol */
  predicate Depends(e: Expr, s: Symbol) {
    match e
    case Sym(x) => x == s
    case Bin(AndOp, l, r) => Depends(l, s) || Depends(r, s)
    case Cmp(true, a, b) => a == s && (b == SYM_Y || b == SYM_M)
    case Cmp(false, a, b) => a == s && b == SYM_N
    case _ => false
  }

  /** An expression that depends on a symbol is n whenever that symbol is n. */
  lemma {:induction false} DependsForcesSymbol(e: Expr, s: Symbol, v: Valuation)
    requires Depends(e, s) && Typed(v) && Eval(e, v) != NO
    ensures TextOf(s, v) != "n"
  {
    match e
    case Bin(AndOp, l, r) =>
      if Depends(l, s) {
        DependsForcesSymbol(l, s, v);
      } else {
        DependsForcesSymbol(r, s, v);
      }
    case _ =>
  }

  /** A comparison is about texts: that of a string, int or hex, and n, m or y for a boolean or tristate. */
  lemma ComparisonMeans(equal: bool, s: Symbol, text: string, v: Valuation)
    requires s in v && s.Config?
    ensures !IsLogical(s) ==> Eval(Cmp(equal, s, Const(text)), v) == if (v[s].text == text) == equal then 2 else 0
    ensures IsLogical(s) ==> Eval(Cmp(equal, s, SYM_N), v) == if (v[s].tri == 0) == equal then 2 else 0
    ensures IsLogical(s) ==> Eval(Cmp(equal, s, SYM_M), v) == if (v[s].tri == 1) == equal then 2 else 0
    ensures IsLogical(s) ==> Eval(Cmp(equal, s, SYM_Y), v) == if (v[s].tri == 2) == equal then 2 else 0
  {
    assert SYM_Y.text[0] == 'y' && SYM_M.text[0] == 'm' && SYM_N.text[0] == 'n';
  }

  /** Only the symbols an expression mentions decide its value. */
  lemma {:induction false} EvalReadsMentioned(e: Expr, v: Valuation, w: Valuation)
    requires forall s :: Contains(e, s) ==> TriOf(s, v) == TriOf(s, w) && TextOf(s, v) == TextOf(s, w)
    ensures Eval(e, v) == Eval(e, w)
  {
    match e
    case Sym(s) => assert Contains(e, s);
    case Not(a) =>
      assert forall s :: Contains(a, s) ==> Contains(e, s);
      EvalReadsMentioned(a, v, w);
    case Bin(_, l, r) =>
      assert forall s :: Contains(l, s) || Contains(r, s) ==> Contains(e, s);
      EvalReadsMentioned(l, v, w);
      EvalReadsMentioned(r, v, w);
    case Cmp(_, a, b) =>
      assert Contains(e, a) && Contains(e, b);
  }
}
