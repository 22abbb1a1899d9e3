// Normalisation of expressions and the rewritings built on it (expr_transform, expr_trans_bool and
// expr_trans_compare of expr.c).
module Transform {
  import opened Tristate
  import opened Expr
  import opened Eliminate
  import opened Dups

  // ----- expr_transform -----

  // A test for equality or inequality of a bool with n, m or y, which the transformation removes.
  predicate IsBoolTest(e: Expr) {
    e.Cmp? && (e.rel.Eq? || e.rel.Ne?) && TypeOf(e.lhs).Boolean? && IsLetter(e.rhs)
  }

  predicate IsLetter(s: Sym) {
    s == SYM_YES || s == SYM_MOD || s == SYM_NO
  }

  function FlipRel(rel: Rel): Rel {
    match rel
    case Eq => Ne
    case Ne => Eq
    case Le => Gt
    case Ge => Lt
    case Lt => Ge
    case Gt => Le
  }

  /** What every call of the transformation makes smaller. A NOT counts double what is below it,
      so that De Morgan's rules make progress. */
  function Weight(e: Expr): (w: nat)
    ensures w >= 1
  {
    match e
    case Symbol(_) => 1
    case Cmp(_, _, _) => 3
    case Not(a) => 2 * Weight(a)
    case And(l, r) => 1 + Weight(l) + Weight(r)
    case Or(l, r) => 1 + Weight(l) + Weight(r)
  }

  // De Morgan's rules: !(a || b) as !a && !b, and !(a && b) as !a || !b.
  function Dual(e: Expr): (r: Expr)
    requires IsJunction(e)
    ensures Weight(r) < 2 * Weight(e)
    ensures forall env :: Eval(r, env) == Negate(Eval(e, env))
  {
    var l, r := Not(e.left), Not(e.right);
    assert Weight(l) == 2 * Weight(e.left) && Weight(r) == 2 * Weight(e.right);
    assert forall env :: Eval(l, env) == Negate(Eval(e.left, env)) && Eval(r, env) == Negate(Eval(e.right, env));
    if e.Or? then And(l, r) else Or(l, r)
  }

  /** expr_transform. */
  function Transform(e: Expr): (r: Expr)
    ensures Weight(r) <= Weight(e)
    decreases Weight(e)
  {
    match e
    case Symbol(_) => e
    case Cmp(_, _, _) => TransformTest(e)
    case And(l, r) => And(Transform(l), Transform(r))
    case Or(l, r) => Or(Transform(l), Transform(r))
    case Not(x) =>
      match Transform(x)
      case Not(a) => Transform(a)
      case Cmp(rel, a, b) => Cmp(FlipRel(rel), a, b)
      case Or(a, b) => Transform(Dual(Or(a, b)))
      case And(a, b) => Transform(Dual(And(a, b)))
      case Symbol(s) =>
        if s == SYM_YES then Symbol(SYM_NO)
        else if s == SYM_MOD then Symbol(SYM_MOD)
        else if s == SYM_NO then Symbol(SYM_YES)
        else Not(Symbol(s))
  }

  // The rewriting of a test of a bool against n, m or y.
  function TransformTest(e: Expr): Expr
    requires e.Cmp?
  {
    if !IsBoolTest(e) then e
    else if e.rel.Eq? then
      if e.rhs == SYM_NO then Not(Symbol(e.lhs))
      else if e.rhs == SYM_MOD then Symbol(SYM_NO)
      else Symbol(e.lhs)
    else
      if e.rhs == SYM_NO then Symbol(e.lhs)
      else if e.rhs == SYM_MOD then Symbol(SYM_YES)
      else Not(Symbol(e.lhs))
  }

  /** NOT stands only directly above a symbol other than n, m and y, and no bool on the left of an
      equality or inequality test is compared with n, m or y. */
  predicate Normal(e: Expr) {
    match e
    case Symbol(_) => true
    case Cmp(_, _, _) => !IsBoolTest(e)
    case Not(a) => a.Symbol? && !IsLetter(a.sym)
    case And(l, r) => Normal(l) && Normal(r)
    case Or(l, r) => Normal(l) && Normal(r)
  }

  lemma TransformTestSound(e: Expr, env: Env)
    requires e.Cmp? && WellTyped(env)
    ensures Eval(TransformTest(e), env) == Eval(e, env)
  {
    if IsBoolTest(e) {
      var t: Tri := if e.rhs == SYM_YES then YES else if e.rhs == SYM_MOD then MOD else NO;
      assert e.rhs == Const(Letter(t));
      CmpWithLetter(env, e.lhs, t);
      LookupTyped(env, e.lhs);
    }
  }

  /** The transformation preserves the value under every assignment that respects the types. */
  lemma {:induction false} TransformSound(e: Expr, env: Env)
    requires WellTyped(env)
    ensures Eval(Transform(e), env) == Eval(e, env)
    decreases Weight(e)
  {
    match e
    case Symbol(_) =>
    case Cmp(_, _, _) => TransformTestSound(e, env);
    case And(l, r) => TransformSound(l, env); TransformSound(r, env);
    case Or(l, r) => TransformSound(l, env); TransformSound(r, env);
    case Not(x) =>
      TransformSound(x, env);
      match Transform(x)
      case Not(a) => TransformSound(a, env);
      case Or(a, b) => TransformSound(Dual(Or(a, b)), env);
      case And(a, b) => TransformSound(Dual(And(a, b)), env);
      case _ =>
  }

  /** The result is in normal form, and normal forms are left as they are. */
  lemma {:induction false} TransformNormal(e: Expr)
    ensures Normal(Transform(e))
    ensures Normal(e) ==> Transform(e) == e
    decreases Weight(e)
  {
    match e
    case Symbol(_) =>
    case Cmp(_, _, _) =>
    case And(l, r) => TransformNormal(l); TransformNormal(r);
    case Or(l, r) => TransformNormal(l); TransformNormal(r);
    case Not(x) =>
      TransformNormal(x);
      match Transform(x)
      case Not(a) => TransformNormal(a);
      case Or(a, b) => TransformNormal(Dual(Or(a, b)));
      case And(a, b) => TransformNormal(Dual(And(a, b)));
      case _ =>
  }

  // A test for equality or inequality of n, m or y with a bool, which the transformation overlooks.
  predicate IsReversedTest(e: Expr) {
    e.Cmp? && (e.rel.Eq? || e.rel.Ne?) && IsLetter(e.lhs) && TypeOf(e.rhs).Boolean?
  }

  predicate HasReversed(e: Expr) {
    match e
    case Not(a) => HasReversed(a)
    case And(l, r) => HasReversed(l) || HasReversed(r)
    case Or(l, r) => HasReversed(l) || HasReversed(r)
    case _ => IsReversedTest(e)
  }

  /** NOT stands only above symbols other than n, m and y, and no bool is compared with n, m or y for
      equality or inequality, on whichever side it stands. */
  predicate FullyNormal(e: Expr) {
    match e
    case Symbol(_) => true
    case Cmp(_, _, _) => !IsBoolTest(e) && !IsReversedTest(e)
    case Not(a) => a.Symbol? && !IsLetter(a.sym)
    case And(l, r) => FullyNormal(l) && FullyNormal(r)
    case Or(l, r) => FullyNormal(l) && FullyNormal(r)
  }

  /** The transformation neither removes nor makes tests with the constant on the left. */
  lemma {:induction false} TransformKeepsReversed(e: Expr)
    ensures HasReversed(Transform(e)) <==> HasReversed(e)
    decreases Weight(e)
  {
    match e
    case Symbol(_) =>
    case Cmp(_, _, _) =>
    case And(l, r) => TransformKeepsReversed(l); TransformKeepsReversed(r);
    case Or(l, r) => TransformKeepsReversed(l); TransformKeepsReversed(r);
    case Not(x) =>
      TransformKeepsReversed(x);
      match Transform(x)
      case Not(a) => TransformKeepsReversed(a);
      case Or(a, b) => TransformKeepsReversed(Dual(Or(a, b)));
      case And(a, b) => TransformKeepsReversed(Dual(And(a, b)));
      case _ =>
  }

  lemma {:induction false} FullyNormalIs(e: Expr)
    ensures FullyNormal(e) <==> Normal(e) && !HasReversed(e)
  {
    if IsJunction(e) {
      FullyNormalIs(e.left);
      FullyNormalIs(e.right);
    }
  }

  /** The result is free of tests of bools against n, m and y on either side exactly when no test had
      the constant on the left from the start. */
  lemma {:induction false} TransformFullyNormal(e: Expr)
    ensures FullyNormal(Transform(e)) <==> !HasReversed(e)
  {
    TransformNormal(e);
    TransformKeepsReversed(e);
    FullyNormalIs(Transform(e));
  }

  /** Constants on the left escape the normal form: y=A stays as it is for a bool A. */
  lemma ConstantOnTheLeftStays(a: Sym)
    requires TypeOf(a).Boolean?
    ensures Transform(Cmp(Eq, SYM_YES, a)) == Cmp(Eq, SYM_YES, a)
    ensures Transform(Cmp(Eq, a, SYM_YES)) == Symbol(a)
  {
  }

  lemma {:induction false} TransformPlain(e: Expr)
    requires Plain(e)
    ensures Plain(Transform(e))
    decreases Weight(e)
  {
    match e
    case Symbol(_) =>
    case Cmp(_, _, _) =>
    case And(l, r) => TransformPlain(l); TransformPlain(r);
    case Or(l, r) => TransformPlain(l); TransformPlain(r);
    case Not(x) =>
      TransformPlain(x);
      match Transform(x)
      case Not(a) => TransformPlain(a);
      case Or(a, b) => TransformPlain(Dual(Or(a, b)));
      case And(a, b) => TransformPlain(Dual(And(a, b)));
      case _ =>
  }

  // ----- expr_trans_bool -----

  /** expr_trans_bool: FOO!=n becomes FOO for a tristate FOO. */
  function TransBool(e: Expr): Expr {
    match e
    case And(l, r) => And(TransBool(l), TransBool(r))
    case Or(l, r) => Or(TransBool(l), TransBool(r))
    case Not(a) => Not(TransBool(a))
    case Cmp(Ne, a, b) => if TypeOf(a).Tri3? && b == SYM_NO then Symbol(a) else e
    case _ => e
  }

  // NOT stands only directly above a symbol.
  predicate NotsAtSymbols(e: Expr) {
    match e
    case Not(a) => a.Symbol?
    case And(l, r) => NotsAtSymbols(l) && NotsAtSymbols(r)
    case Or(l, r) => NotsAtSymbols(l) && NotsAtSymbols(r)
    case _ => true
  }

  // No test that expr_trans_bool converts occurs under a NOT.
  predicate NotsUnconverted(e: Expr) {
    match e
    case Not(a) => TransBool(a) == a
    case And(l, r) => NotsUnconverted(l) && NotsUnconverted(r)
    case Or(l, r) => NotsUnconverted(l) && NotsUnconverted(r)
    case _ => true
  }

  lemma {:induction false} SymbolsUnconverted(e: Expr)
    requires NotsAtSymbols(e)
    ensures NotsUnconverted(e)
  {
    if IsJunction(e) {
      SymbolsUnconverted(e.left);
      SymbolsUnconverted(e.right);
    }
  }

  /** Where it converts nothing under a NOT, expr_trans_bool keeps whether the value is n, and never
      raises the value. */
  lemma {:induction false} TransBoolKeepsNo(e: Expr, env: Env)
    requires WellTyped(env) && NotsUnconverted(e)
    ensures Eval(TransBool(e), env) == NO <==> Eval(e, env) == NO
    ensures Eval(TransBool(e), env) <= Eval(e, env)
  {
    match e
    case And(l, r) => TransBoolKeepsNo(l, env); TransBoolKeepsNo(r, env);
    case Or(l, r) => TransBoolKeepsNo(l, env); TransBoolKeepsNo(r, env);
    case Cmp(Ne, a, b) =>
      if TypeOf(a).Tri3? && b == SYM_NO {
        CmpWithLetter(env, a, NO);
      }
    case _ =>
  }

  // No tristate whose test against n is converted has the value m.
  predicate NoModTest(e: Expr, env: Env) {
    match e
    case Not(a) => NoModTest(a, env)
    case And(l, r) => NoModTest(l, env) && NoModTest(r, env)
    case Or(l, r) => NoModTest(l, env) && NoModTest(r, env)
    case Cmp(Ne, a, b) => TypeOf(a).Tri3? && b == SYM_NO ==> Lookup(env, a).tri != MOD
    case _ => true
  }

  // The conversion changes the value of no part of e.
  predicate KeepsParts(e: Expr, env: Env) {
    Eval(TransBool(e), env) == Eval(e, env) &&
    match e
    case Not(a) => KeepsParts(a, env)
    case And(l, r) => KeepsParts(l, env) && KeepsParts(r, env)
    case Or(l, r) => KeepsParts(l, env) && KeepsParts(r, env)
    case _ => true
  }

  /** expr_trans_bool keeps the value of an expression and of all its parts exactly where no tristate in
      a test that it converts is m, whether below NOT or not. */
  lemma {:induction false} TransBoolKeepsParts(e: Expr, env: Env)
    requires WellTyped(env)
    ensures KeepsParts(e, env) <==> NoModTest(e, env)
    ensures NoModTest(e, env) ==> Eval(TransBool(e), env) == Eval(e, env)
  {
    match e
    case Not(a) => TransBoolKeepsParts(a, env);
    case And(l, r) => TransBoolKeepsParts(l, env); TransBoolKeepsParts(r, env);
    case Or(l, r) => TransBoolKeepsParts(l, env); TransBoolKeepsParts(r, env);
    case Cmp(Ne, a, b) =>
      if TypeOf(a).Tri3? && b == SYM_NO {
        CmpWithLetter(env, a, NO);
      }
    case _ =>
  }

  /** Under a NOT it does not: !(FOO!=n) is n and !FOO is m when FOO is m. */
  lemma TransBoolUnderNot(a: Sym)
    requires a.Var? && a.typ.Tri3?
    ensures var e, env := Not(Cmp(Ne, a, SYM_NO)), map[a := Val(MOD, "m")];
      WellTyped(env) && Eval(e, env) == NO && Eval(TransBool(e), env) == MOD
  {
    CmpWithLetter(map[a := Val(MOD, "m")], a, NO);
  }

  lemma {:induction false} NormalHasNotsAtSymbols(e: Expr)
    requires Normal(e)
    ensures NotsAtSymbols(e)
  {
    if IsJunction(e) {
      NormalHasNotsAtSymbols(e.left);
      NormalHasNotsAtSymbols(e.right);
    }
  }

  // ----- expr_trans_compare -----

  function Negated(neg: bool, e: Expr): Expr {
    if neg then Not(e) else e
  }

  /** expr_trans_compare: e compared with sym for equality, or for inequality when neg holds. */
  function TransCompare(e: Expr, neg: bool, sym: Sym): Expr {
    match e
    case And(l, r) =>
      var a, b := TransCompare(l, false, sym), TransCompare(r, false, sym);
      Negated(neg, if sym == SYM_YES then And(a, b) else if sym == SYM_NO then Or(a, b) else e)
    case Or(l, r) =>
      var a, b := TransCompare(l, false, sym), TransCompare(r, false, sym);
      Negated(neg, if sym == SYM_YES then Or(a, b) else if sym == SYM_NO then And(a, b) else e)
    case Not(a) => TransCompare(a, !neg, sym)
    case Symbol(s) => Cmp(if neg then Ne else Eq, s, sym)
    case Cmp(_, _, _) =>
      if sym == SYM_MOD then Symbol(if neg then SYM_YES else SYM_NO)
      else Negated(neg != (sym == SYM_NO), e)
  }

  /** expr_trans_compare for a pointer that may be NULL. */
  function TransCompareDep(d: Dep, neg: bool, sym: Sym): Expr {
    if d.None? then Negated(neg, Symbol(sym)) else TransCompare(d.value, neg, sym)
  }

  // Every symbol standing alone is a bool, a tristate, or one of n, m and y.
  predicate LogicalSymbols(e: Expr) {
    match e
    case Symbol(s) => IsLogical(s) || IsLetter(s)
    case Not(a) => LogicalSymbols(a)
    case And(l, r) => LogicalSymbols(l) && LogicalSymbols(r)
    case Or(l, r) => LogicalSymbols(l) && LogicalSymbols(r)
    case Cmp(_, _, _) => true
  }

  lemma SymbolCompare(env: Env, s: Sym, t: Tri)
    requires WellTyped(env) && (IsLogical(s) || IsLetter(s))
    ensures CmpResult(env, s, Const(Letter(t))) == 0 <==> Lookup(env, s).tri == t
  {
    if IsLogical(s) {
      CmpWithLetter(env, s, t);
    } else {
      var u := Lookup(env, s).tri;
      assert s == Const(Letter(u));
      LettersAreText(t);
      LetterOrder(u, t);
    }
  }

  /** What expr_trans_compare takes e to say: whether e has the value t, if NOT turned one truth value
      into the other, and a symbol had the value its text says. */
  predicate Reads(e: Expr, t: Tri, env: Env) {
    match e
    case Symbol(s) => CmpResult(env, s, Const(Letter(t))) == 0
    case Not(a) => !Reads(a, t, env)
    case And(l, r) =>
      if t == YES then Reads(l, t, env) && Reads(r, t, env) else Reads(l, t, env) || Reads(r, t, env)
    case Or(l, r) =>
      if t == YES then Reads(l, t, env) || Reads(r, t, env) else Reads(l, t, env) && Reads(r, t, env)
    case Cmp(_, _, _) => Eval(e, env) == t
  }

  /** Comparing with n or y gives y where the two-valued reading holds, and n otherwise, whatever the
      values below a NOT. */
  lemma {:induction false} TransCompareReads(e: Expr, neg: bool, t: Tri, env: Env)
    requires t == NO || t == YES
    ensures Eval(TransCompare(e, neg, Const(Letter(t))), env) == FromBool(Reads(e, t, env) != neg)
  {
    match e
    case And(l, r) => TransCompareReads(l, false, t, env); TransCompareReads(r, false, t, env);
    case Or(l, r) => TransCompareReads(l, false, t, env); TransCompareReads(r, false, t, env);
    case Not(a) => TransCompareReads(a, !neg, t, env);
    case _ =>
  }

  /** Comparing with n or y is exact, the result being y when the comparison holds and n otherwise,
      exactly where the two-valued reading agrees with the value. */
  lemma {:induction false} TransCompareExact(e: Expr, neg: bool, t: Tri, env: Env)
    requires t == NO || t == YES
    ensures Eval(TransCompare(e, neg, Const(Letter(t))), env) == FromBool((Eval(e, env) == t) != neg)
            <==> (Reads(e, t, env) <==> Eval(e, env) == t)
  {
    TransCompareReads(e, neg, t, env);
  }

  /** Comparing with m, which the program never does, is exact for a symbol and for a comparison, and leaves
      an AND or OR as it is, except for the NOT of an inequality. */
  lemma TransCompareWithMod(e: Expr, neg: bool, env: Env)
    requires WellTyped(env) && LogicalSymbols(e)
    ensures e.Symbol? || e.Cmp? ==> Eval(TransCompare(e, neg, SYM_MOD), env) == FromBool((Eval(e, env) == MOD) != neg)
    ensures e.And? || e.Or? ==> TransCompare(e, neg, SYM_MOD) == if neg then Not(e) else e
  {
    if e.Symbol? {
      SymbolCompare(env, e.sym, MOD);
    }
  }

  /** For !A where A is m it is not: the code takes !A to be n wherever A is not n. */
  lemma TransCompareUnderNot(a: Sym)
    requires a.Var? && a.typ.Tri3?
    ensures var e, env := Not(Symbol(a)), map[a := Val(MOD, "m")];
      WellTyped(env) && Eval(e, env) == MOD &&
      Eval(TransCompare(e, true, SYM_NO), env) == NO
  {
    var env := map[a := Val(MOD, "m")];
    CmpWithLetter(env, a, NO);
  }

  // Nothing directly below a NOT has the value m.
  predicate TwoValuedNots(e: Expr, env: Env) {
    match e
    case Not(a) => Eval(a, env) != MOD && TwoValuedNots(a, env)
    case And(l, r) => TwoValuedNots(l, env) && TwoValuedNots(r, env)
    case Or(l, r) => TwoValuedNots(l, env) && TwoValuedNots(r, env)
    case _ => true
  }

  /** Where no m occurs under a NOT and only bools and tristates stand alone, the reading agrees with
      the value. */
  lemma {:induction false} TwoValuedReads(e: Expr, t: Tri, env: Env)
    requires WellTyped(env) && LogicalSymbols(e) && TwoValuedNots(e, env) && (t == NO || t == YES)
    ensures Reads(e, t, env) <==> Eval(e, env) == t
  {
    match e
    case Not(a) => TwoValuedReads(a, t, env);
    case And(l, r) => TwoValuedReads(l, t, env); TwoValuedReads(r, t, env);
    case Or(l, r) => TwoValuedReads(l, t, env); TwoValuedReads(r, t, env);
    case Symbol(s) => SymbolCompare(env, s, t);
    case Cmp(_, _, _) =>
  }
}
