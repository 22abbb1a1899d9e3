// Joining of redundant operands (expr_join_or, expr_join_and, expr_eliminate_dups1 and
// expr_eliminate_dups of expr.c).
module Dups {
  import opened Tristate
  import opened Expr
  import opened Eliminate

  // ----- joining two operands -----

  /** The symbol an operand is about, if it is a symbol, an equality or inequality test, or the
      negation of one. Only the first operand of a join may be a negated test. */
  function Subject(e: Expr, first: bool): Option<Sym> {
    match e
    case Symbol(s) => Some(s)
    case Cmp(rel, a, _) => if rel.Eq? || rel.Ne? then Some(a) else None
    case Not(Symbol(s)) => Some(s)
    case Not(Cmp(rel, a, _)) => if first && (rel.Eq? || rel.Ne?) then Some(a) else None
    case _ => None
  }

  predicate Test(e: Expr, rel: Rel, s: Sym) {
    e.Cmp? && e.rel == rel && e.rhs == s
  }

  // e1 tests against a and e2 against b, or the other way round.
  predicate Tests(e1: Expr, e2: Expr, rel: Rel, a: Sym, b: Sym) {
    (Test(e1, rel, a) && Test(e2, rel, b)) || (Test(e1, rel, b) && Test(e2, rel, a))
  }

  // One operand is a bare symbol and the other a test against b.
  predicate SymbolAndTest(e1: Expr, e2: Expr, rel: Rel, b: Sym) {
    (e1.Symbol? && Test(e2, rel, b)) || (e2.Symbol? && Test(e1, rel, b))
  }

  predicate NotSymbol(e: Expr) {
    e.Not? && e.arg.Symbol?
  }

  /** expr_join_or: one operand that can stand for e1 || e2. */
  function JoinOr(e1: Expr, e2: Expr): Dep {
    if ExprEq(e1, e2) then Some(e1)
    else
      match (Subject(e1, true), Subject(e2, false))
      case (Some(a), Some(b)) =>
        if a != b || !IsLogical(a) then None
        else if TypeOf(a).Tri3? then
          if Tests(e1, e2, Eq, SYM_YES, SYM_MOD) then Some(Cmp(Ne, a, SYM_NO))
          else if Tests(e1, e2, Eq, SYM_YES, SYM_NO) then Some(Cmp(Ne, a, SYM_MOD))
          else if Tests(e1, e2, Eq, SYM_MOD, SYM_NO) then Some(Cmp(Ne, a, SYM_YES))
          else None
        else if (NotSymbol(e1) && e2.Symbol?) || (NotSymbol(e2) && e1.Symbol?) then Some(Symbol(SYM_YES))
        else None
      case _ => None
  }

  /** expr_join_and: one operand that can stand for e1 && e2. */
  function JoinAnd(e1: Expr, e2: Expr): Dep {
    if ExprEq(e1, e2) then Some(e1)
    else
      match (Subject(e1, true), Subject(e2, false))
      case (Some(a), Some(b)) =>
        if a != b || !IsLogical(a) then None
        else if SymbolAndTest(e1, e2, Eq, SYM_YES) then Some(Cmp(Eq, a, SYM_YES))
        else if SymbolAndTest(e1, e2, Ne, SYM_NO) then Some(Symbol(a))
        else if SymbolAndTest(e1, e2, Ne, SYM_MOD) then Some(Cmp(Eq, a, SYM_YES))
        else if TypeOf(a).Tri3? then
          if e1.Cmp? && e2.Cmp? && e1.rel.Eq? && e2.rel.Ne? && e1.rhs.Const? && e2.rhs.Const? then
            Some(if e1.rhs != e2.rhs then Cmp(Eq, a, e1.rhs) else Symbol(SYM_NO))
          else if e1.Cmp? && e2.Cmp? && e1.rel.Ne? && e2.rel.Eq? && e1.rhs.Const? && e2.rhs.Const? then
            Some(if e1.rhs != e2.rhs then Cmp(Eq, a, e2.rhs) else Symbol(SYM_NO))
          else if Tests(e1, e2, Ne, SYM_YES, SYM_NO) then Some(Cmp(Eq, a, SYM_MOD))
          else if Tests(e1, e2, Ne, SYM_YES, SYM_MOD) then Some(Cmp(Eq, a, SYM_NO))
          else if Tests(e1, e2, Ne, SYM_MOD, SYM_NO) then Some(Cmp(Eq, a, SYM_YES))
          else None
        else None
      case _ => None
  }

  function JoinPair(op: Op, e1: Expr, e2: Expr): Dep {
    if op.OrOp? then JoinOr(e1, e2) else JoinAnd(e1, e2)
  }

  /** Operands that expr_eq takes to be equal are joined to one of them. */
  lemma EqualOperandsJoin(op: Op, e1: Expr, e2: Expr)
    requires ExprEq(e1, e2)
    ensures JoinPair(op, e1, e2) == Some(e1)
  {
    hide ExprEq;
  }

  // ----- soundness of the joins -----

  /** Wherever a tristate symbol is tested against a constant, the constant is not a numeral
      that compares equal to one of n, m and y. */
  predicate Plain(e: Expr) {
    match e
    case Symbol(_) => true
    case Not(a) => Plain(a)
    case And(l, r) => Plain(l) && Plain(r)
    case Or(l, r) => Plain(l) && Plain(r)
    case Cmp(_, a, b) => TypeOf(a).Tri3? && b.Const? ==> PlainConst(b.text)
  }

  predicate PlainConst(text: string) {
    Denotes(text).None? || text == "n" || text == "m" || text == "y"
  }

  lemma LettersDenote()
    ensures Denotes("n") == Some(NO) && Denotes("m") == Some(MOD) && Denotes("y") == Some(YES)
  {
    LettersAreText(NO);
    LettersAreText(MOD);
    LettersAreText(YES);
  }

  // The value of an operand about a bool or tristate symbol of value v, if it needs nothing else.
  function ValueAt(e: Expr, v: Tri): Tri {
    match e
    case Symbol(_) => v
    case Not(Symbol(_)) => Negate(v)
    case Cmp(Eq, _, Const(c)) => FromBool(Denotes(c) == Some(v))
    case Cmp(Ne, _, Const(c)) => FromBool(Denotes(c) != Some(v))
    case _ => NO
  }

  predicate Determined(e: Expr) {
    e.Symbol? || NotSymbol(e) || (e.Cmp? && (e.rel.Eq? || e.rel.Ne?) && e.rhs.Const?)
  }

  lemma {:induction false} ValueOfOperand(e: Expr, a: Sym, env: Env)
    requires WellTyped(env) && IsLogical(a) && Determined(e) && Subject(e, true) == Some(a)
    ensures Eval(e, env) == ValueAt(e, Lookup(env, a).tri)
  {
    if e.Cmp? {
      CmpWithConst(env, a, e.rhs.text);
    }
  }

  // A rule other than the one for equal operands applies to determined operands about one symbol.
  lemma JoinOperands(op: Op, e1: Expr, e2: Expr)
    requires !ExprEq(e1, e2) && JoinPair(op, e1, e2).Some?
    ensures Determined(e1) && Determined(e2) && Determined(JoinPair(op, e1, e2).value)
    ensures op.AndOp? ==> e1.Symbol? || e2.Symbol? || (e1.Cmp? && e2.Cmp?)
    ensures Subject(e1, true) == Subject(e2, true)
    ensures Subject(e1, true).Some? && IsLogical(Subject(e1, true).value)
  {
  }

  // What the rules do to the value of the symbol.
  ghost predicate Joins(op: Op, e1: Expr, e2: Expr, r: Expr, v: Tri) {
    Plain(r) &&
    (if r == Symbol(SYM_YES) then YES else if r == Symbol(SYM_NO) then NO else ValueAt(r, v)) ==
    Apply(op, ValueAt(e1, v), ValueAt(e2, v))
  }

  lemma {:induction false} JoinOrRules(e1: Expr, e2: Expr, v: Tri)
    requires !ExprEq(e1, e2) && JoinOr(e1, e2).Some?
    requires Subject(e1, true).Some? && TypeOf(Subject(e1, true).value).Boolean? ==> v != MOD
    ensures Joins(OrOp, e1, e2, JoinOr(e1, e2).value, v)
  {
    hide Denotes, ExprEq;
    LettersDenote();
  }

  lemma {:induction false} JoinAndSymbol(e1: Expr, e2: Expr, v: Tri)
    requires !ExprEq(e1, e2) && JoinAnd(e1, e2).Some? && (e1.Symbol? || e2.Symbol?)
    ensures Joins(AndOp, e1, e2, JoinAnd(e1, e2).value, v)
  {
    hide Denotes, ExprEq;
    LettersDenote();
    var test := if e1.Symbol? then e2 else e1;
    assert test.Cmp? && (test.rhs == SYM_YES || test.rhs == SYM_NO || test.rhs == SYM_MOD);
  }

  lemma {:induction false} JoinAndTests(e1: Expr, e2: Expr, v: Tri)
    requires !ExprEq(e1, e2) && JoinAnd(e1, e2).Some? && Plain(e1) && Plain(e2)
    requires e1.Cmp? && e2.Cmp?
    ensures Joins(AndOp, e1, e2, JoinAnd(e1, e2).value, v)
  {
    hide Denotes, ExprEq;
    LettersDenote();
    assert TypeOf(e1.lhs).Tri3? && e1.lhs == e2.lhs && e1.rhs.Const? && e2.rhs.Const?;
    if e1.rel == e2.rel {
    } else if e1.rhs == e2.rhs {
    } else {
      assert Denotes(e1.rhs.text).None? || Denotes(e1.rhs.text) != Denotes(e2.rhs.text);
    }
  }

  lemma {:induction false} JoinPairSound(op: Op, e1: Expr, e2: Expr, env: Env)
    requires WellTyped(env) && Plain(e1) && Plain(e2)
    ensures var t := JoinPair(op, e1, e2);
      t.Some? ==> Plain(t.value) && Eval(t.value, env) == Apply(op, Eval(e1, env), Eval(e2, env))
  {
    if ExprEq(e1, e2) {
      ExprEqSound(e1, e2, env);
    } else if JoinPair(op, e1, e2).Some? {
      JoinOperands(op, e1, e2);
      var a, r := Subject(e1, true).value, JoinPair(op, e1, e2).value;
      LookupTyped(env, a);
      ValueOfOperand(e1, a, env);
      ValueOfOperand(e2, a, env);
      if op.OrOp? {
        JoinOrRules(e1, e2, Lookup(env, a).tri);
      } else if e1.Symbol? || e2.Symbol? {
        JoinAndSymbol(e1, e2, Lookup(env, a).tri);
      } else {
        JoinAndTests(e1, e2, Lookup(env, a).tri);
      }
      if r != Symbol(SYM_YES) && r != Symbol(SYM_NO) {
        JoinSubject(op, e1, e2);
        ValueOfOperand(r, a, env);
      }
    }
  }

  lemma JoinSubject(op: Op, e1: Expr, e2: Expr)
    requires !ExprEq(e1, e2) && JoinPair(op, e1, e2).Some?
    ensures var r := JoinPair(op, e1, e2).value;
      r == Symbol(SYM_YES) || r == Symbol(SYM_NO) || Subject(r, true) == Subject(e1, true)
  {
  }

  /** The rule (a='b') && (a!='c') -> (a='b') for different constants b and c is right exactly
      when the two constants do not compare equal to the same value of a tristate. */
  lemma {:induction false} EqualUnequalRule(a: Sym, b: string, c: string)
    requires a.Var? && a.typ.Tri3? && b != c
    ensures JoinAnd(Cmp(Eq, a, Const(b)), Cmp(Ne, a, Const(c))) == Some(Cmp(Eq, a, Const(b)))
    ensures (forall env: Env :: WellTyped(env) ==>
              Eval(Cmp(Eq, a, Const(b)), env) == Eval(And(Cmp(Eq, a, Const(b)), Cmp(Ne, a, Const(c))), env))
            <==> Denotes(b).None? || Denotes(b) != Denotes(c)
  {
    var e1, e2 := Cmp(Eq, a, Const(b)), Cmp(Ne, a, Const(c));
    if Denotes(b).None? || Denotes(b) != Denotes(c) {
      forall env: Env | WellTyped(env)
        ensures Eval(e1, env) == Eval(And(e1, e2), env)
      {
        ValueOfOperand(e1, a, env);
        ValueOfOperand(e2, a, env);
      }
    } else {
      var t := Denotes(b).value;
      var env: Env := map[a := Val(t, Letter(t))];
      assert WellTyped(env);
      ValueOfOperand(e1, a, env);
      ValueOfOperand(e2, a, env);
      assert Eval(e1, env) != Eval(And(e1, e2), env);
    }
  }

  /** The text "2" compares equal to y, so joining (a="2") && (a!=y) changes the value when a is y. */
  lemma NumeralBreaksJoin(a: Sym)
    requires a.Var? && a.typ.Tri3?
    ensures var e1, e2, env := Cmp(Eq, a, Const("2")), Cmp(Ne, a, SYM_YES), map[a := Val(YES, "y")];
      WellTyped(env) && JoinAnd(e1, e2).Some? &&
      Eval(And(e1, e2), env) == NO && Eval(JoinAnd(e1, e2).value, env) == YES
  {
    LettersDenote();
    assert SkipSpace("2") == "2";
    assert Digits("2", 10, 0) == Digits("2"[1..], 10, 2);
    var env: Env := map[a := Val(YES, "y")];
    ValueOfOperand(Cmp(Eq, a, Const("2")), a, env);
    ValueOfOperand(Cmp(Ne, a, SYM_YES), a, env);
  }

  // ----- which operands are joined -----

  /** Two different tests of one tristate symbol against letters are always joined, except two
      equalities under AND and pairs with an inequality under OR. */
  lemma {:induction false} TestsOfOneSymbolJoin(a: Sym, r1: Rel, t1: Tri, r2: Rel, t2: Tri)
    requires a.Var? && a.typ.Tri3? && (r1.Eq? || r1.Ne?) && (r2.Eq? || r2.Ne?)
    requires (r1, t1) != (r2, t2)
    ensures var e1, e2 := Cmp(r1, a, Const(Letter(t1))), Cmp(r2, a, Const(Letter(t2)));
      (JoinOr(e1, e2).Some? <==> r1.Eq? && r2.Eq?) &&
      (JoinAnd(e1, e2).Some? <==> r1.Ne? || r2.Ne?)
  {
    assert Letter(t1) == Letter(t2) ==> t1 == t2;
  }

  /** A symbol is joined with a test of itself under AND exactly when the test decides whether the
      value is y or only excludes values below the symbol. A bool and its negation join to y. */
  lemma {:induction false} SymbolWithTestJoins(a: Sym, rel: Rel, t: Tri)
    requires IsLogical(a) && (rel.Eq? || rel.Ne?)
    ensures var e := Cmp(rel, a, Const(Letter(t)));
      (JoinAnd(Symbol(a), e).Some? <==> (if rel.Eq? then t == YES else t != YES)) &&
      (JoinAnd(e, Symbol(a)).Some? <==> (if rel.Eq? then t == YES else t != YES))
    ensures JoinOr(Symbol(a), Not(Symbol(a))).Some? <==> TypeOf(a).Boolean?
    ensures JoinOr(Not(Symbol(a)), Symbol(a)).Some? <==> TypeOf(a).Boolean?
  {
  }

  // ----- one pass over the operands of an expression -----

  // No operand belongs to the level of op itself.
  predicate Slots(op: Op, ls: seq<Expr>) {
    forall l <- ls :: !IsOp(op, l)
  }

  /** The operands of e on its level of op, in order. They are the slots that
      expr_eliminate_dups1 reads and overwrites. */
  function Leaves(op: Op, e: Expr): (ls: seq<Expr>)
    ensures |ls| >= 1 && (IsOp(op, e) ==> |ls| >= 2)
    ensures Total(ls) <= Size(e) && (IsOp(op, e) ==> Total(ls) < Size(e))
    ensures forall l <- ls :: !IsOp(op, l)
  {
    if IsOp(op, e) then
      TotalConcat(Leaves(op, e.left), Leaves(op, e.right));
      Leaves(op, e.left) + Leaves(op, e.right)
    else
      TotalOne(e);
      [e]
  }

  function Total(ls: seq<Expr>): nat {
    if ls == [] then 0 else Size(ls[0]) + Total(ls[1..])
  }

  lemma {:induction false} TotalConcat(a: seq<Expr>, b: seq<Expr>)
    ensures Total(a + b) == Total(a) + Total(b)
  {
    if a == [] {
      assert a + b == b;
    } else {
      assert (a + b)[1..] == a[1..] + b;
      TotalConcat(a[1..], b);
    }
  }

  lemma TotalOne(e: Expr)
    ensures Total([e]) == Size(e)
  {
    assert [e][1..] == [];
  }

  lemma {:induction false} TotalUpdate(ls: seq<Expr>, i: nat, e: Expr)
    requires i < |ls|
    ensures Total(ls[i := e]) == Total(ls) - Size(ls[i]) + Size(e)
    ensures |ls| >= 2 ==> Size(ls[i]) < Total(ls)
  {
    if i == 0 {
      assert ls[0 := e][1..] == ls[1..];
      if |ls| >= 2 {
        assert Total(ls[1..]) >= Size(ls[1]);
      }
    } else {
      assert ls[i := e][1..] == ls[1..][i - 1 := e];
      TotalUpdate(ls[1..], i - 1, e);
      assert |ls| == 2 ==> Total(ls[1..]) == Size(ls[1]) + Total(ls[2..]);
    }
  }

  /** The expression e with its operands on the level of op replaced. */
  function Rebuild(op: Op, e: Expr, ls: seq<Expr>): Expr
    requires |ls| == |Leaves(op, e)|
  {
    if IsOp(op, e) then
      var n := |Leaves(op, e.left)|;
      Join(op, Rebuild(op, e.left, ls[..n]), Rebuild(op, e.right, ls[n..]))
    else ls[0]
  }

  lemma LeavesOfJoin(op: Op, l: Expr, r: Expr)
    ensures Leaves(op, Join(op, l, r)) == Leaves(op, l) + Leaves(op, r)
    ensures Size(Join(op, l, r)) == 1 + Size(l) + Size(r)
  {
  }

  lemma {:induction false} LeavesOfRebuild(op: Op, e: Expr, ls: seq<Expr>)
    requires |ls| == |Leaves(op, e)| && Slots(op, ls)
    ensures Leaves(op, Rebuild(op, e, ls)) == ls
    ensures IsOp(op, e) ==> IsOp(op, Rebuild(op, e, ls))
    ensures Size(Rebuild(op, e, ls)) == Size(e) - Total(Leaves(op, e)) + Total(ls)
  {
    if IsOp(op, e) {
      var n := |Leaves(op, e.left)|;
      var a, b := ls[..n], ls[n..];
      assert Slots(op, a) && Slots(op, b) by {
        assert forall l <- a :: l in ls;
        assert forall l <- b :: l in ls;
      }
      assert ls == a + b;
      LeavesOfRebuild(op, e.left, a);
      LeavesOfRebuild(op, e.right, b);
      RebuildJoin(op, e, Rebuild(op, e.left, a), Rebuild(op, e.right, b));
    } else {
      assert ls == [ls[0]];
      TotalOne(ls[0]);
      TotalOne(e);
    }
  }

  lemma {:induction false} RebuildJoin(op: Op, e: Expr, l: Expr, r: Expr)
    requires IsOp(op, e)
    requires Size(l) == Size(e.left) - Total(Leaves(op, e.left)) + Total(Leaves(op, l))
    requires Size(r) == Size(e.right) - Total(Leaves(op, e.right)) + Total(Leaves(op, r))
    ensures Leaves(op, Join(op, l, r)) == Leaves(op, l) + Leaves(op, r)
    ensures Size(Join(op, l, r)) == Size(e) - Total(Leaves(op, e)) + Total(Leaves(op, l) + Leaves(op, r))
  {
    LeavesOfJoin(op, l, r);
    LeavesOfJoin(op, e.left, e.right);
    assert e == Join(op, e.left, e.right);
    TotalConcat(Leaves(op, l), Leaves(op, r));
    TotalConcat(Leaves(op, e.left), Leaves(op, e.right));
  }

  lemma {:induction false} RebuildSame(op: Op, e: Expr)
    ensures Rebuild(op, e, Leaves(op, e)) == e
  {
    if IsOp(op, e) {
      var l, r := Leaves(op, e.left), Leaves(op, e.right);
      assert (l + r)[..|l|] == l && (l + r)[|l|..] == r;
      RebuildSame(op, e.left);
      RebuildSame(op, e.right);
    }
  }

  /** The operands after some comparisons, and how many joins were made. */
  datatype Pass = Pass(ls: seq<Expr>, joins: nat)

  datatype Rewritten = Rewritten(e: Expr, joins: nat)

  /** expr_eliminate_dups1(e->type, &e, &e): every operand is compared with every operand. */
  function Dups1(e: Expr): (r: Rewritten)
    requires IsJunction(e)
    ensures Size(r.e) <= Size(e) && IsOp(OpOf(e), r.e)
    decreases Size(e), 3, 0
  {
    var op := OpOf(e);
    var p := Rows(op, Leaves(op, e), 0);
    LeavesOfRebuild(op, e, p.ls);
    Rewritten(Rebuild(op, e, p.ls), p.joins)
  }

  // The rows of comparisons from operand i on.
  function Rows(op: Op, ls: seq<Expr>, i: nat): (p: Pass)
    requires |ls| >= 2 && Slots(op, ls) && i <= |ls|
    ensures |p.ls| == |ls| && Slots(op, p.ls) && Total(p.ls) <= Total(ls)
    decreases Total(ls), 3, |ls| - i
  {
    if i == |ls| then Pass(ls, 0)
    else
      var a := Row(op, ls, i, 0, |ls|);
      var b := Rows(op, a.ls, i + 1);
      Pass(b.ls, a.joins + b.joins)
  }

  // Operand i is compared with the operands from j up to n.
  function Row(op: Op, ls: seq<Expr>, i: nat, j: nat, n: nat): (p: Pass)
    requires |ls| >= 2 && Slots(op, ls) && i < |ls| && j <= n <= |ls|
    ensures |p.ls| == |ls| && Slots(op, p.ls) && Total(p.ls) <= Total(ls)
    decreases Total(ls), 2, n - j
  {
    if j == n then Pass(ls, 0)
    else
      var a := Visit(op, ls, i, j);
      var b := Row(op, a.ls, i, j + 1, n);
      Pass(b.ls, a.joins + b.joins)
  }

  // One comparison: operand i is itself simplified first, then joined with operand j if possible.
  function Visit(op: Op, ls: seq<Expr>, i: nat, j: nat): (p: Pass)
    requires |ls| >= 2 && Slots(op, ls) && i < |ls| && j < |ls|
    ensures |p.ls| == |ls| && Slots(op, p.ls) && Total(p.ls) <= Total(ls)
    decreases Total(ls), 1, 0
  {
    if i == j then Pass(ls, 0)
    else
      TotalUpdate(ls, i, ls[i]);
      var inner := if IsJunction(ls[i]) then Dups1(ls[i]) else Rewritten(ls[i], 0);
      var t := JoinPair(op, inner.e, ls[j]);
      TotalUpdate(ls, i, inner.e);
      if t.None? then Pass(ls[i := inner.e], inner.joins)
      else
        TotalUpdate(ls, i, Unit(op));
        TotalUpdate(ls[i := Unit(op)], j, t.value);
        JoinPairSize(op, inner.e, ls[j]);
        Pass(ls[i := Unit(op)][j := t.value], inner.joins + 1)
  }

  lemma JoinPairSize(op: Op, e1: Expr, e2: Expr)
    ensures var t := JoinPair(op, e1, e2);
      t.Some? ==> Size(t.value) <= Size(e1) && (IsJunction(t.value) ==> t.value == e1)
  {
  }

  // ----- a pass preserves the value -----

  predicate AllPlain(ls: seq<Expr>) {
    forall l <- ls :: Plain(l)
  }

  lemma {:induction false} LeavesValue(op: Op, e: Expr, env: Env)
    ensures Eval(e, env) == Eval(Fold(op, Leaves(op, e)), env)
    ensures Plain(e) <==> AllPlain(Leaves(op, e))
  {
    if IsOp(op, e) {
      LeavesValue(op, e.left, env);
      LeavesValue(op, e.right, env);
      FoldConcat(op, Leaves(op, e.left), Leaves(op, e.right), env);
    } else {
      assert Fold(op, [e]) == Join(op, e, Fold(op, []));
    }
  }

  // An operand can be taken out, leaving the unit in its slot.
  lemma {:induction false} FoldTakeOut(op: Op, ls: seq<Expr>, i: nat, env: Env)
    requires i < |ls|
    ensures Eval(Fold(op, ls), env) == Apply(op, Eval(ls[i], env), Eval(Fold(op, ls[i := Unit(op)]), env))
  {
    var rest, u := ls[1..], ls[i := Unit(op)];
    FoldStep(op, ls, env);
    FoldStep(op, u, env);
    hide Fold, Eval;
    if i == 0 {
      assert u[1..] == rest;
      UnitChangesNothing(op, Fold(op, rest), env);
    } else {
      assert u[1..] == rest[i - 1 := Unit(op)];
      FoldTakeOut(op, rest, i - 1, env);
    }
  }

  lemma FoldStep(op: Op, ls: seq<Expr>, env: Env)
    requires ls != []
    ensures Eval(Fold(op, ls), env) == Apply(op, Eval(ls[0], env), Eval(Fold(op, ls[1..]), env))
  {
    EvalJoin(op, ls[0], Fold(op, ls[1..]), env);
  }

  lemma UnitChangesNothing(op: Op, e: Expr, env: Env)
    ensures Apply(op, Eval(Unit(op), env), Eval(e, env)) == Eval(e, env)
  {
  }

  lemma {:induction false} FoldReplace(op: Op, ls: seq<Expr>, i: nat, e: Expr, env: Env)
    requires i < |ls| && Eval(e, env) == Eval(ls[i], env)
    ensures Eval(Fold(op, ls[i := e]), env) == Eval(Fold(op, ls), env)
  {
    FoldTakeOut(op, ls, i, env);
    FoldTakeOut(op, ls[i := e], i, env);
    assert ls[i := e][i := Unit(op)] == ls[i := Unit(op)];
  }

  lemma {:induction false} FoldMerge(op: Op, ls: seq<Expr>, i: nat, j: nat, t: Expr, env: Env)
    requires i < |ls| && j < |ls| && i != j
    requires Eval(t, env) == Apply(op, Eval(ls[i], env), Eval(ls[j], env))
    ensures Eval(Fold(op, ls[i := Unit(op)][j := t]), env) == Eval(Fold(op, ls), env)
  {
    var u := ls[i := Unit(op)];
    FoldTakeOut(op, ls, i, env);
    FoldTakeOut(op, u, j, env);
    FoldTakeOut(op, u[j := t], j, env);
    assert u[j := t][j := Unit(op)] == u[j := Unit(op)];
  }

  lemma {:induction false} Dups1Sound(e: Expr, env: Env)
    requires IsJunction(e) && WellTyped(env) && Plain(e)
    ensures Eval(Dups1(e).e, env) == Eval(e, env) && Plain(Dups1(e).e)
    decreases Size(e), 3, 0
  {
    var op := OpOf(e);
    var p := Rows(op, Leaves(op, e), 0);
    LeavesValue(op, e, env);
    RowsSound(op, Leaves(op, e), 0, env);
    LeavesOfRebuild(op, e, p.ls);
    LeavesValue(op, Dups1(e).e, env);
  }

  lemma {:induction false} RowsSound(op: Op, ls: seq<Expr>, i: nat, env: Env)
    requires |ls| >= 2 && Slots(op, ls) && i <= |ls| && WellTyped(env) && AllPlain(ls)
    ensures Eval(Fold(op, Rows(op, ls, i).ls), env) == Eval(Fold(op, ls), env) && AllPlain(Rows(op, ls, i).ls)
    decreases Total(ls), 3, |ls| - i
  {
    if i < |ls| {
      RowSound(op, ls, i, 0, |ls|, env);
      RowsSound(op, Row(op, ls, i, 0, |ls|).ls, i + 1, env);
    }
  }

  lemma {:induction false} RowSound(op: Op, ls: seq<Expr>, i: nat, j: nat, n: nat, env: Env)
    requires |ls| >= 2 && Slots(op, ls) && i < |ls| && j <= n <= |ls| && WellTyped(env) && AllPlain(ls)
    ensures Eval(Fold(op, Row(op, ls, i, j, n).ls), env) == Eval(Fold(op, ls), env)
    ensures AllPlain(Row(op, ls, i, j, n).ls)
    decreases Total(ls), 2, n - j
  {
    if j < n {
      VisitSound(op, ls, i, j, env);
      RowSound(op, Visit(op, ls, i, j).ls, i, j + 1, n, env);
    }
  }

  // The first operand of a comparison after its own simplification.
  function Inner(e: Expr): (r: Rewritten)
    ensures Size(r.e) <= Size(e)
    decreases Size(e), 4
  {
    if IsJunction(e) then Dups1(e) else Rewritten(e, 0)
  }

  lemma {:induction false} VisitSound(op: Op, ls: seq<Expr>, i: nat, j: nat, env: Env)
    requires |ls| >= 2 && Slots(op, ls) && i < |ls| && j < |ls| && WellTyped(env) && AllPlain(ls)
    ensures Eval(Fold(op, Visit(op, ls, i, j).ls), env) == Eval(Fold(op, ls), env)
    ensures AllPlain(Visit(op, ls, i, j).ls)
    decreases Total(ls), 1, 0
  {
    if i != j {
      TotalUpdate(ls, i, ls[i]);
      var inner := Inner(ls[i]).e;
      assert Plain(ls[i]) && Plain(ls[j]);
      if IsJunction(ls[i]) {
        Dups1Sound(ls[i], env);
      }
      VisitIs(op, ls, i, j);
      hide Visit, Inner, JoinPair, Plain, AllPlain, Eval, Slots, Fold, Apply, Total, WellTyped;
      FoldReplace(op, ls, i, inner, env);
      PlainUpdate(ls, i, inner);
      JoinPairSound(op, inner, ls[j], env);
      var t := JoinPair(op, inner, ls[j]);
      if t.Some? {
        var ls' := ls[i := inner];
        FoldMerge(op, ls', i, j, t.value, env);
        assert ls'[i := Unit(op)] == ls[i := Unit(op)];
        UnitIsPlain(op);
        PlainUpdate(ls, i, Unit(op));
        PlainUpdate(ls[i := Unit(op)], j, t.value);
      }
    }
  }

  lemma PlainUpdate(ls: seq<Expr>, i: nat, e: Expr)
    requires AllPlain(ls) && i < |ls| && Plain(e)
    ensures AllPlain(ls[i := e])
  {
  }

  lemma UnitIsPlain(op: Op)
    ensures Plain(Unit(op))
  {
  }

  // What a comparison does with the operands.
  lemma VisitIs(op: Op, ls: seq<Expr>, i: nat, j: nat)
    requires |ls| >= 2 && Slots(op, ls) && i < |ls| && j < |ls| && i != j
    ensures var inner := Inner(ls[i]).e;
      var t := JoinPair(op, inner, ls[j]);
      Visit(op, ls, i, j).ls == if t.None? then ls[i := inner] else ls[i := Unit(op)][j := t.value]
  {
    hide JoinPair, Dups1;
  }

  // ----- a pass that joined something leaves a y or n to eliminate -----

  predicate HasMark(ls: seq<Expr>) {
    exists k :: 0 <= k < |ls| && Marked(ls[k])
  }

  predicate Marked(e: Expr) {
    IsYesNo(e) || HasYesNo(e)
  }

  lemma {:induction false} MarkedLeaf(op: Op, e: Expr)
    requires IsOp(op, e)
    ensures HasYesNo(e) <==> HasMark(Leaves(op, e))
    decreases e, 0
  {
    MarkedSpine(op, e.left);
    MarkedSpine(op, e.right);
    var a, b := Leaves(op, e.left), Leaves(op, e.right);
    assert HasMark(a + b) <==> HasMark(a) || HasMark(b) by {
      if HasMark(a) {
        var k :| 0 <= k < |a| && Marked(a[k]);
        assert Marked((a + b)[k]);
      }
      if HasMark(b) {
        var k :| 0 <= k < |b| && Marked(b[k]);
        assert Marked((a + b)[|a| + k]);
      }
    }
  }

  lemma {:induction false} MarkedSpine(op: Op, e: Expr)
    ensures Marked(e) <==> HasMark(Leaves(op, e))
    decreases e, 1
  {
    if IsOp(op, e) {
      MarkedLeaf(op, e);
    } else {
      assert Leaves(op, e)[0] == e;
    }
  }

  lemma {:induction false} Dups1Marks(e: Expr)
    requires IsJunction(e)
    ensures Dups1(e).joins > 0 || HasYesNo(e) ==> HasYesNo(Dups1(e).e)
    decreases Size(e), 3, 0
  {
    var op := OpOf(e);
    var p := Rows(op, Leaves(op, e), 0);
    RowsMark(op, Leaves(op, e), 0);
    LeavesOfRebuild(op, e, p.ls);
    MarkedLeaf(op, e);
    MarkedLeaf(op, Dups1(e).e);
  }

  lemma {:induction false} RowsMark(op: Op, ls: seq<Expr>, i: nat)
    requires |ls| >= 2 && Slots(op, ls) && i <= |ls|
    ensures Rows(op, ls, i).joins > 0 || HasMark(ls) ==> HasMark(Rows(op, ls, i).ls)
    decreases Total(ls), 3, |ls| - i
  {
    if i < |ls| {
      RowMarks(op, ls, i, 0, |ls|);
      RowsMark(op, Row(op, ls, i, 0, |ls|).ls, i + 1);
    }
  }

  lemma {:induction false} RowMarks(op: Op, ls: seq<Expr>, i: nat, j: nat, n: nat)
    requires |ls| >= 2 && Slots(op, ls) && i < |ls| && j <= n <= |ls|
    ensures Row(op, ls, i, j, n).joins > 0 || HasMark(ls) ==> HasMark(Row(op, ls, i, j, n).ls)
    decreases Total(ls), 2, n - j
  {
    if j < n {
      VisitMarks(op, ls, i, j);
      RowMarks(op, Visit(op, ls, i, j).ls, i, j + 1, n);
    }
  }

  lemma {:induction false} VisitMarks(op: Op, ls: seq<Expr>, i: nat, j: nat)
    requires |ls| >= 2 && Slots(op, ls) && i < |ls| && j < |ls|
    ensures Visit(op, ls, i, j).joins > 0 || HasMark(ls) ==> HasMark(Visit(op, ls, i, j).ls)
    decreases Total(ls), 1, 0
  {
    if i != j {
      TotalUpdate(ls, i, ls[i]);
      var inner := Inner(ls[i]);
      if IsJunction(ls[i]) {
        Dups1Marks(ls[i]);
      }
      var r := Visit(op, ls, i, j);
      if JoinPair(op, inner.e, ls[j]).Some? {
        assert r.ls[i] == Unit(op) && Marked(r.ls[i]);
      } else if inner.joins > 0 {
        assert Marked(r.ls[i]);
      } else if HasMark(ls) {
        var k :| 0 <= k < |ls| && Marked(ls[k]);
        assert k == i || r.ls[k] == ls[k];
        assert Marked(r.ls[k]);
      }
    }
  }

  // ----- a pass that joined nothing found nothing to join -----

  /** No two different operands of a level can be joined, on any level of AND and OR. */
  ghost predicate Settled(e: Expr)
    decreases Size(e)
  {
    IsJunction(e) ==>
      var op := OpOf(e);
      var ls := Leaves(op, e);
      (forall i, j :: 0 <= i < |ls| && 0 <= j < |ls| && i != j ==> JoinPair(op, ls[i], ls[j]).None?) &&
      (forall i :: 0 <= i < |ls| ==> (TotalUpdate(ls, i, ls[i]); Settled(ls[i])))
  }

  /** No two operands of a level are equal, on any level of AND and OR. */
  ghost predicate Distinct(e: Expr)
    decreases Size(e)
  {
    IsJunction(e) ==>
      var ls := Leaves(OpOf(e), e);
      (forall i, j :: 0 <= i < |ls| && 0 <= j < |ls| && i != j ==> !ExprEq(ls[i], ls[j])) &&
      (forall i :: 0 <= i < |ls| ==> (TotalUpdate(ls, i, ls[i]); Distinct(ls[i])))
  }

  lemma {:induction false} SettledIsDistinct(e: Expr)
    requires Settled(e)
    ensures Distinct(e)
    decreases Size(e)
  {
    if IsJunction(e) {
      var op, ls := OpOf(e), Leaves(OpOf(e), e);
      hide ExprEq, JoinPair;
      forall i, j | 0 <= i < |ls| && 0 <= j < |ls| && i != j ensures !ExprEq(ls[i], ls[j]) {
        if ExprEq(ls[i], ls[j]) {
          EqualOperandsJoin(op, ls[i], ls[j]);
        }
      }
      forall i | 0 <= i < |ls| ensures Distinct(ls[i]) {
        TotalUpdate(ls, i, ls[i]);
        SettledIsDistinct(ls[i]);
      }
    }
  }

  ghost predicate Quiet(op: Op, ls: seq<Expr>, i: nat, j: nat)
    requires i < |ls| && j < |ls|
  {
    i != j ==> JoinPair(op, ls[i], ls[j]).None? && Settled(ls[i])
  }

  lemma {:induction false} Dups1Settles(e: Expr)
    requires IsJunction(e)
    ensures Dups1(e).joins == 0 <==> Settled(e)
    ensures Dups1(e).joins == 0 ==> Dups1(e).e == e
    decreases Size(e), 3, 0
  {
    var op := OpOf(e);
    var ls := Leaves(op, e);
    RowsSettle(op, ls, 0);
    RebuildSame(op, e);
    if Rows(op, ls, 0).joins == 0 {
      forall i | 0 <= i < |ls| ensures Settled(ls[i]) {
        assert Quiet(op, ls, i, if i == 0 then 1 else 0);
      }
      forall i, j | 0 <= i < |ls| && 0 <= j < |ls| && i != j ensures JoinPair(op, ls[i], ls[j]).None? {
        assert Quiet(op, ls, i, j);
      }
    }
  }

  lemma {:induction false} RowsSettle(op: Op, ls: seq<Expr>, i: nat)
    requires |ls| >= 2 && Slots(op, ls) && i <= |ls|
    ensures Rows(op, ls, i).joins == 0 <==> forall k, j :: i <= k < |ls| && 0 <= j < |ls| ==> Quiet(op, ls, k, j)
    ensures Rows(op, ls, i).joins == 0 ==> Rows(op, ls, i).ls == ls
    decreases Total(ls), 3, |ls| - i
  {
    if i < |ls| {
      RowSettles(op, ls, i, 0, |ls|);
      var a := Row(op, ls, i, 0, |ls|);
      if a.joins == 0 {
        RowsSettle(op, ls, i + 1);
      }
    }
  }

  lemma {:induction false} RowSettles(op: Op, ls: seq<Expr>, i: nat, j: nat, n: nat)
    requires |ls| >= 2 && Slots(op, ls) && i < |ls| && j <= n <= |ls|
    ensures Row(op, ls, i, j, n).joins == 0 <==> forall k :: j <= k < n ==> Quiet(op, ls, i, k)
    ensures Row(op, ls, i, j, n).joins == 0 ==> Row(op, ls, i, j, n).ls == ls
    decreases Total(ls), 2, n - j
  {
    if j < n {
      VisitSettles(op, ls, i, j);
      if Visit(op, ls, i, j).joins == 0 {
        RowSettles(op, ls, i, j + 1, n);
      }
    }
  }

  lemma {:induction false} VisitSettles(op: Op, ls: seq<Expr>, i: nat, j: nat)
    requires |ls| >= 2 && Slots(op, ls) && i < |ls| && j < |ls|
    ensures Visit(op, ls, i, j).joins == 0 <==> Quiet(op, ls, i, j)
    ensures Visit(op, ls, i, j).joins == 0 ==> Visit(op, ls, i, j).ls == ls
    decreases Total(ls), 1, 0
  {
    if i != j {
      TotalUpdate(ls, i, ls[i]);
      if IsJunction(ls[i]) {
        Dups1Settles(ls[i]);
      }
    }
  }

  // ----- the outer loop -----

  /** expr_eliminate_dups, for an expression that is present. It ends because a pass that joined
      something, followed by expr_eliminate_yn, makes the expression smaller. */
  function EliminateDups(e: Expr): Expr
    decreases Size(e)
  {
    if !IsJunction(e) then e
    else
      var r := Dups1(e);
      if r.joins == 0 then r.e
      else
        Dups1Marks(e);
        EliminateYnComplete(r.e);
        EliminateDups(EliminateYn(r.e))
  }

  lemma {:induction false} EliminateYnPlain(e: Expr)
    requires Plain(e)
    ensures Plain(EliminateYn(e))
  {
    if IsJunction(e) {
      EliminateYnPlain(e.left);
      EliminateYnPlain(e.right);
    }
  }

  /** Removing duplicates preserves the value under every assignment that respects the types. */
  lemma {:induction false} EliminateDupsSound(e: Expr, env: Env)
    requires WellTyped(env) && Plain(e)
    ensures Eval(EliminateDups(e), env) == Eval(e, env) && Plain(EliminateDups(e))
    decreases Size(e)
  {
    if IsJunction(e) {
      var r := Dups1(e);
      Dups1Sound(e, env);
      if r.joins > 0 {
        Dups1Marks(e);
        EliminateYnComplete(r.e);
        EliminateYnSound(r.e, env);
        EliminateYnPlain(r.e);
        EliminateDupsSound(EliminateYn(r.e), env);
      }
    }
  }

  /** The result offers nothing more to join, and such expressions are left as they are. */
  lemma {:induction false} EliminateDupsSettles(e: Expr)
    ensures Settled(EliminateDups(e))
    ensures Settled(e) ==> EliminateDups(e) == e
    ensures Size(EliminateDups(e)) <= Size(e)
    decreases Size(e)
  {
    if IsJunction(e) {
      var r := Dups1(e);
      Dups1Settles(e);
      if r.joins > 0 {
        Dups1Marks(e);
        EliminateYnComplete(r.e);
        EliminateDupsSettles(EliminateYn(r.e));
      }
    }
  }

  /** Removing duplicates removes them: no two operands that expr_eq takes to be equal are left, on any level. */
  lemma {:induction false} NoDuplicatesLeft(e: Expr)
    ensures Distinct(EliminateDups(e))
  {
    EliminateDupsSettles(e);
    SettledIsDistinct(EliminateDups(e));
  }
}
