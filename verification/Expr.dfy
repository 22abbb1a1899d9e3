// Symbols, dependency expressions and their value (expr.h and expr_calc_value of expr.c).
module Expr {
  import opened Tristate

  datatype Type = Unknown | Boolean | Tri3 | Int | Hex | String

  /** A symbol. Symbols are interned by name, so pointer equality is equality of values here.
      A Const is a symbol carrying SYMBOL_CONST; y, m and n are the constants spelled so. */
  datatype Sym = Const(text: string) | Var(name: string, typ: Type)

  const SYM_YES: Sym := Const("y")
  const SYM_MOD: Sym := Const("m")
  const SYM_NO: Sym := Const("n")

  function TypeOf(s: Sym): Type {
    if s.Var? then s.typ else Unknown
  }

  predicate IsLogical(s: Sym) {
    TypeOf(s).Boolean? || TypeOf(s).Tri3?
  }

  datatype Rel = Eq | Ne | Lt | Le | Gt | Ge

  datatype Expr =
    | Symbol(sym: Sym)
    | Not(arg: Expr)
    | And(left: Expr, right: Expr)
    | Or(left: Expr, right: Expr)
    | Cmp(rel: Rel, lhs: Sym, rhs: Sym)

  /** A pointer to an expression that may be NULL. */
  type Dep = Option<Expr>

  function Size(e: Expr): (n: nat)
    ensures n >= 1
  {
    match e
    case Symbol(_) => 1
    case Not(a) => 1 + Size(a)
    case And(l, r) => 1 + Size(l) + Size(r)
    case Or(l, r) => 1 + Size(l) + Size(r)
    case Cmp(_, _, _) => 1
  }

  function Syms(e: Expr): set<Sym> {
    match e
    case Symbol(s) => {s}
    case Not(a) => Syms(a)
    case And(l, r) => Syms(l) + Syms(r)
    case Or(l, r) => Syms(l) + Syms(r)
    case Cmp(_, a, b) => {a, b}
  }

  function DepSyms(d: Dep): set<Sym> {
    if d.None? then {} else Syms(d.value)
  }

  // ----- strings and numbers, as strcmp, strtoll and strtoull treat them -----

  function StrCmp(a: string, b: string): int {
    if a == [] && b == [] then 0
    else if a == [] then -1
    else if b == [] then 1
    else if a[0] != b[0] then (if a[0] < b[0] then -1 else 1)
    else StrCmp(a[1..], b[1..])
  }

  function DigitOf(c: char): nat {
    if '0' <= c <= '9' then c as int - '0' as int
    else if 'a' <= c <= 'z' then c as int - 'a' as int + 10
    else if 'A' <= c <= 'Z' then c as int - 'A' as int + 10
    else 36
  }

  function SkipSpace(s: string): string {
    if s != [] && (s[0] == ' ' || 9 <= s[0] as int <= 13) then SkipSpace(s[1..]) else s
  }

  // The value of a string of digits; None when some character is not a digit.
  function Digits(s: string, base: nat, acc: nat): Option<nat> {
    if s == [] then Some(acc)
    else if DigitOf(s[0]) < base then Digits(s[1..], base, acc * base + DigitOf(s[0]))
    else None
  }

  predicate HasHexPrefix(s: string) {
    |s| >= 3 && s[0] == '0' && (s[1] == 'x' || s[1] == 'X') && DigitOf(s[2]) < 16
  }

  // The magnitude read by strtoll and strtoull when they consume the whole string.
  function Magnitude(s: string, base: nat): Option<nat> {
    if s == [] then None
    else if (base == 0 || base == 16) && HasHexPrefix(s) then Digits(s[2..], 16, 0)
    else if base == 0 then Digits(s, if s[0] == '0' then 8 else 10, 0)
    else Digits(s, base, 0)
  }

  const TWO63: int := 0x8000_0000_0000_0000
  const TWO64: int := 0x1_0000_0000_0000_0000

  datatype Parsed = Text | Signed(i: int) | Unsigned(u: int)

  function ParseNumber(str: string, base: nat, unsigned: bool): Parsed {
    var t := SkipSpace(str);
    var negative := t != [] && t[0] == '-';
    var body := if t != [] && (t[0] == '-' || t[0] == '+') then t[1..] else t;
    match Magnitude(body, base)
    case None => Text
    case Some(v) =>
      if unsigned then
        if v >= TWO64 then Text else Unsigned(if negative then (TWO64 - v) % TWO64 else v)
      else
        var w: int := if negative then 0 - v as int else v as int;
        if -TWO63 <= w < TWO63 then Signed(w) else Text
  }

  /** expr_parse_string: how the text of a symbol of the given type enters a comparison. */
  function ParseString(str: string, typ: Type): Parsed {
    match typ
    case Boolean => Signed(if str == "n" then 0 else if str == "m" then 1 else if str == "y" then 2 else -1)
    case Tri3 => Signed(if str == "n" then 0 else if str == "m" then 1 else if str == "y" then 2 else -1)
    case Int => ParseNumber(str, 10, false)
    case Hex => ParseNumber(str, 16, true)
    case _ => ParseNumber(str, 0, false)
  }

  function Sign(n: int): int {
    if n < 0 then -1 else if n > 0 then 1 else 0
  }

  function AsUnsigned(p: Parsed): int
    requires !p.Text?
  {
    if p.Signed? then p.i % TWO64 else p.u
  }

  /** The sign of the comparison of two symbols, given their types and texts. */
  function Compare(lt: Type, ls: string, rt: Type, rs: string): int {
    var k1 := if lt.String? && rt.String? then Text else ParseString(ls, lt);
    var k2 := if lt.String? && rt.String? then Text else ParseString(rs, rt);
    if k1.Text? || k2.Text? then StrCmp(ls, rs)
    else if k1.Unsigned? || k2.Unsigned? then Sign(AsUnsigned(k1) - AsUnsigned(k2))
    else Sign(k1.i - k2.i)
  }

  predicate Holds(rel: Rel, res: int) {
    match rel
    case Eq => res == 0
    case Ne => res != 0
    case Lt => res < 0
    case Le => res <= 0
    case Gt => res > 0
    case Ge => res >= 0
  }

  // ----- values -----

  datatype Val = Val(tri: Tri, str: string)

  type Env = map<Sym, Val>

  // The value of a symbol nothing is known about. A symbol without a type stands for its name.
  function Unset(s: Sym): Val {
    Val(NO, if IsLogical(s) then "n" else if s.Var? && s.typ.Unknown? then s.name else "")
  }

  /** The value of a symbol. A symbol the environment does not list is unset. */
  function Lookup(env: Env, s: Sym): Val {
    match s
    case Const(t) => Val(if t == "y" then YES else if t == "m" then MOD else NO, t)
    case Var(_, _) =>
      if s in env then env[s]
      else Unset(s)
  }

  function CmpResult(env: Env, a: Sym, b: Sym): int {
    Compare(TypeOf(a), Lookup(env, a).str, TypeOf(b), Lookup(env, b).str)
  }

  /** expr_calc_value, for symbols whose values are given. */
  function Eval(e: Expr, env: Env): Tri {
    match e
    case Symbol(s) => Lookup(env, s).tri
    case Not(a) => Negate(Eval(a, env))
    case And(l, r) => Min(Eval(l, env), Eval(r, env))
    case Or(l, r) => Max(Eval(l, env), Eval(r, env))
    case Cmp(rel, a, b) => FromBool(Holds(rel, CmpResult(env, a, b)))
  }

  /** A missing expression means y. */
  function EvalDep(d: Dep, env: Env): Tri {
    if d.None? then YES else Eval(d.value, env)
  }

  /** The values a symbol of each type can take: a bool is n or y, and the text of a bool or
      tristate is the letter of its value. Everything else counts as n. */
  ghost predicate WellTyped(env: Env) {
    forall s <- env ::
      (TypeOf(s).Boolean? ==> env[s].tri != MOD) &&
      (if IsLogical(s) then env[s].str == Letter(env[s].tri) else env[s].tri == NO)
  }

  lemma LookupTyped(env: Env, s: Sym)
    requires WellTyped(env)
    ensures TypeOf(s).Boolean? ==> Lookup(env, s).tri != MOD
    ensures IsLogical(s) ==> Lookup(env, s).str == Letter(Lookup(env, s).tri)
  {
  }

  /** The value depends only on the symbols that occur. */
  lemma {:induction false} EvalAgrees(e: Expr, env: Env, env': Env)
    requires forall s <- Syms(e) :: Lookup(env, s) == Lookup(env', s)
    ensures Eval(e, env) == Eval(e, env')
  {
    match e
    case Symbol(s) => assert s in Syms(e);
    case Not(a) => EvalAgrees(a, env, env');
    case And(l, r) => EvalAgrees(l, env, env'); EvalAgrees(r, env, env');
    case Or(l, r) => EvalAgrees(l, env, env'); EvalAgrees(r, env, env');
    case Cmp(_, a, b) => assert a in Syms(e) && b in Syms(e);
  }

  // ----- comparing a bool or tristate symbol with a constant -----

  lemma LettersAreText(t: Tri)
    ensures ParseNumber(Letter(t), 0, false).Text?
  {
    assert DigitOf(Letter(t)[0]) >= 10;
    assert SkipSpace(Letter(t)) == Letter(t);
  }

  lemma LetterOrder(a: Tri, b: Tri)
    ensures StrCmp(Letter(a), Letter(b)) == 0 <==> a == b
  {
    assert Letter(a)[1..] == [] && Letter(b)[1..] == [];
  }

  /** Comparing a bool or tristate symbol for equality with n, m or y tests its value. */
  lemma CmpWithLetter(env: Env, s: Sym, t: Tri)
    requires WellTyped(env) && IsLogical(s)
    ensures CmpResult(env, s, Const(Letter(t))) == 0 <==> Lookup(env, s).tri == t
  {
    LettersAreText(t);
    LookupTyped(env, s);
    LetterOrder(Lookup(env, s).tri, t);
  }

  /** The value of a tristate that compares equal to a constant, if there is one. Besides the
      three letters it is reached by numerals: the text "2" compares equal to y. */
  function Denotes(text: string): Option<Tri> {
    match ParseNumber(text, 0, false)
    case Signed(i) => if 0 <= i <= 2 then Some(i) else None
    case _ =>
      if text == "n" then Some(NO) else if text == "m" then Some(MOD)
      else if text == "y" then Some(YES) else None
  }

  lemma StrCmpEqual(a: string, b: string)
    ensures StrCmp(a, b) == 0 <==> a == b
  {
    if a != [] && b != [] {
      StrCmpEqual(a[1..], b[1..]);
      assert a == [a[0]] + a[1..] && b == [b[0]] + b[1..];
    }
  }

  lemma CmpWithConst(env: Env, s: Sym, text: string)
    requires WellTyped(env) && IsLogical(s)
    ensures CmpResult(env, s, Const(text)) == 0 <==> Denotes(text) == Some(Lookup(env, s).tri)
  {
    LookupTyped(env, s);
    StrCmpEqual(Lookup(env, s).str, text);
  }
}
