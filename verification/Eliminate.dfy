// Removal of y/n operands and of operands common to two expressions
// (expr_eliminate_yn, __expr_eliminate_eq, expr_eliminate_eq and expr_eq of expr.c).
module Eliminate {
  import opened Tristate
  import opened Expr

  datatype Op = AndOp | OrOp

  function Other(op: Op): Op {
    if op.AndOp? then OrOp else AndOp
  }

  predicate IsOp(op: Op, e: Expr) {
    if op.AndOp? then e.And? else e.Or?
  }

  predicate IsJunction(e: Expr) {
    e.And? || e.Or?
  }

  function OpOf(e: Expr): Op
    requires IsJunction(e)
  {
    if e.And? then AndOp else OrOp
  }

  function Join(op: Op, l: Expr, r: Expr): Expr {
    if op.AndOp? then And(l, r) else Or(l, r)
  }

  function Apply(op: Op, a: Tri, b: Tri): Tri {
    if op.AndOp? then Min(a, b) else Max(a, b)
  }

  // The operand that changes nothing: y for AND, n for OR.
  function Unit(op: Op): Expr {
    Symbol(if op.AndOp? then SYM_YES else SYM_NO)
  }

  predicate IsYesNo(e: Expr) {
    e == Symbol(SYM_YES) || e == Symbol(SYM_NO)
  }

  /** expr_eliminate_yn. */
  function EliminateYn(e: Expr): (r: Expr)
    ensures Size(r) <= Size(e)
  {
    match e
    case And(a, b) =>
      var l, r := EliminateYn(a), EliminateYn(b);
      if l == Symbol(SYM_NO) then Symbol(SYM_NO)
      else if l == Symbol(SYM_YES) then r
      else if r == Symbol(SYM_NO) then Symbol(SYM_NO)
      else if r == Symbol(SYM_YES) then l
      else And(l, r)
    case Or(a, b) =>
      var l, r := EliminateYn(a), EliminateYn(b);
      if l == Symbol(SYM_NO) then r
      else if l == Symbol(SYM_YES) then Symbol(SYM_YES)
      else if r == Symbol(SYM_NO) then l
      else if r == Symbol(SYM_YES) then Symbol(SYM_YES)
      else Or(l, r)
    case _ => e
  }

  /** Some operand of the AND/OR spine is y or n. */
  predicate HasYesNo(e: Expr) {
    IsJunction(e) &&
    (IsYesNo(e.left) || IsYesNo(e.right) || HasYesNo(e.left) || HasYesNo(e.right))
  }

  lemma {:induction false} EliminateYnSound(e: Expr, env: Env)
    ensures Eval(EliminateYn(e), env) == Eval(e, env)
  {
    if IsJunction(e) {
      EliminateYnSound(e.left, env);
      EliminateYnSound(e.right, env);
    }
  }

  /** No y or n is left as an operand, and an expression that had one gets smaller. */
  lemma {:induction false} EliminateYnComplete(e: Expr)
    ensures !HasYesNo(EliminateYn(e))
    ensures HasYesNo(e) ==> Size(EliminateYn(e)) < Size(e)
    ensures !HasYesNo(e) ==> EliminateYn(e) == e
  {
    if IsJunction(e) {
      EliminateYnComplete(e.left);
      EliminateYnComplete(e.right);
    }
  }

  // ----- common operands -----

  /** What __expr_eliminate_eq leaves behind. The operands it replaced are recorded in the order
      of their removal, so that trans_count grows by their number. */
  datatype Eliminated = Eliminated(e1: Expr, e2: Expr, removed: seq<Expr>)

  /** __expr_eliminate_eq: compare every operand of e1 under op with every operand of e2 and
      replace equal pairs by the unit of op. */
  function EliminateEqual(op: Op, e1: Expr, e2: Expr): (r: Eliminated)
    ensures Size(r.e1) <= Size(e1) && Size(r.e2) <= Size(e2)
    ensures IsOp(op, e1) ==> IsOp(op, r.e1)
    ensures IsOp(op, e2) ==> IsOp(op, r.e2)
    decreases Size(e1) + Size(e2), if IsOp(op, e1) || IsOp(op, e2) then 0 else 3, 0
  {
    if IsOp(op, e1) then
      var a := EliminateEqual(op, e1.left, e2);
      var b := EliminateEqual(op, e1.right, a.e2);
      Eliminated(Join(op, a.e1, b.e1), b.e2, a.removed + b.removed)
    else if IsOp(op, e2) then
      var a := EliminateEqual(op, e1, e2.left);
      var b := EliminateEqual(op, a.e1, e2.right);
      Eliminated(b.e1, Join(op, a.e2, b.e2), a.removed + b.removed)
    else if e1 == e2 && IsYesNo(e1) then Eliminated(e1, e2, [])
    else if !ExprEq(e1, e2) then Eliminated(e1, e2, [])
    else Eliminated(Unit(op), Unit(op), [e1])
  }

  // The two passes of expr_eliminate_eq, before the final expr_eliminate_yn.
  function EliminatePasses(e1: Expr, e2: Expr): (r: Eliminated)
    ensures Size(r.e1) <= Size(e1) && Size(r.e2) <= Size(e2)
    decreases Size(e1) + Size(e2), 1
  {
    var a := FirstPass(e1, e2);
    var b := SecondPass(a.e1, a.e2);
    Eliminated(b.e1, b.e2, a.removed + b.removed)
  }

  function FirstPass(e1: Expr, e2: Expr): (r: Eliminated)
    ensures Size(r.e1) <= Size(e1) && Size(r.e2) <= Size(e2)
    decreases Size(e1) + Size(e2), 0, 1
  {
    if IsJunction(e1) then EliminateEqual(OpOf(e1), e1, e2) else Eliminated(e1, e2, [])
  }

  function SecondPass(e1: Expr, e2: Expr): (r: Eliminated)
    ensures Size(r.e1) <= Size(e1) && Size(r.e2) <= Size(e2)
    decreases Size(e1) + Size(e2), 0, 1
  {
    if IsJunction(e2) && !(IsJunction(e1) && OpOf(e1) == OpOf(e2)) then EliminateEqual(OpOf(e2), e1, e2)
    else Eliminated(e1, e2, [])
  }

  /** expr_eq. */
  predicate ExprEq(e1: Expr, e2: Expr)
    decreases Size(e1) + Size(e2), 2
  {
    match (e1, e2)
    case (Cmp(_, _, _), Cmp(_, _, _)) => e1 == e2
    case (Symbol(_), Symbol(_)) => e1 == e2
    case (Not(a), Not(b)) => ExprEq(a, b)
    case (And(_, _), And(_, _)) => SameSymbol(EliminatePasses(e1, e2))
    case (Or(_, _), Or(_, _)) => SameSymbol(EliminatePasses(e1, e2))
    case _ => false
  }

  predicate SameSymbol(r: Eliminated) {
    var a, b := EliminateYn(r.e1), EliminateYn(r.e2);
    a.Symbol? && a == b
  }

  /** expr_eliminate_eq, for two expressions that are both present. */
  function EliminateEq(e1: Expr, e2: Expr): Eliminated {
    var r := EliminatePasses(e1, e2);
    Eliminated(EliminateYn(r.e1), EliminateYn(r.e2), r.removed)
  }

  // The operands es combined by op.
  function Fold(op: Op, es: seq<Expr>): Expr {
    if es == [] then Unit(op) else Join(op, es[0], Fold(op, es[1..]))
  }

  lemma {:induction false} FoldConcat(op: Op, a: seq<Expr>, b: seq<Expr>, env: Env)
    ensures Eval(Fold(op, a + b), env) == Apply(op, Eval(Fold(op, a), env), Eval(Fold(op, b), env))
  {
    if a == [] {
      assert a + b == b;
    } else {
      assert (a + b)[1..] == a[1..] + b;
      FoldConcat(op, a[1..], b, env);
    }
  }

  // Both inputs are the removed operands combined with what is left.
  ghost predicate Factored(op: Op, e1: Expr, e2: Expr, r: Eliminated, env: Env) {
    var c := Eval(Fold(op, r.removed), env);
    Eval(e1, env) == Apply(op, c, Eval(r.e1, env)) &&
    Eval(e2, env) == Apply(op, c, Eval(r.e2, env))
  }

  lemma ApplyAssoc(op: Op, a: Tri, b: Tri, c: Tri)
    ensures Apply(op, a, Apply(op, b, c)) == Apply(op, Apply(op, a, b), c)
    ensures Apply(op, a, b) == Apply(op, b, a)
  {
  }

  lemma ApplyMiddle(op: Op, a: Tri, b: Tri, c: Tri, d: Tri)
    ensures Apply(op, Apply(op, a, b), Apply(op, c, d)) == Apply(op, Apply(op, a, c), Apply(op, b, d))
  {
  }

  lemma EvalJoin(op: Op, l: Expr, r: Expr, env: Env)
    ensures Eval(Join(op, l, r), env) == Apply(op, Eval(l, env), Eval(r, env))
  {
  }

  lemma {:induction false} EliminateEqualFactors(op: Op, e1: Expr, e2: Expr, env: Env)
    ensures Factored(op, e1, e2, EliminateEqual(op, e1, e2), env)
    decreases Size(e1) + Size(e2), if IsOp(op, e1) || IsOp(op, e2) then 0 else 3
  {
    if IsOp(op, e1) {
      var a := EliminateEqual(op, e1.left, e2);
      var b := EliminateEqual(op, e1.right, a.e2);
      EliminateEqualFactors(op, e1.left, e2, env);
      EliminateEqualFactors(op, e1.right, a.e2, env);
      assert e1 == Join(op, e1.left, e1.right);
      FactorsCompose(op, e1.left, e1.right, e2, a, b, env);
    } else if IsOp(op, e2) {
      var a := EliminateEqual(op, e1, e2.left);
      var b := EliminateEqual(op, a.e1, e2.right);
      EliminateEqualFactors(op, e1, e2.left, env);
      EliminateEqualFactors(op, a.e1, e2.right, env);
      assert e2 == Join(op, e2.left, e2.right);
      FactorsCompose(op, e2.left, e2.right, e1, Flip(a), Flip(b), env);
    } else {
      if ExprEq(e1, e2) {
        ExprEqSound(e1, e2, env);
      }
      FactorsOfLeaves(op, e1, e2, env);
    }
  }

  // Two operands are left alone, or are taken out and leave the unit.
  lemma FactorsOfLeaves(op: Op, e1: Expr, e2: Expr, env: Env)
    requires !IsOp(op, e1) && !IsOp(op, e2) && (ExprEq(e1, e2) ==> Eval(e1, env) == Eval(e2, env))
    ensures Factored(op, e1, e2, EliminateEqual(op, e1, e2), env)
  {
    hide ExprEq;
    assert Fold(op, [e1]) == Join(op, e1, Fold(op, []));
  }

  function Flip(r: Eliminated): Eliminated {
    Eliminated(r.e2, r.e1, r.removed)
  }

  // Factoring l and then r against the same expression factors their combination.
  lemma {:induction false} FactorsCompose(op: Op, l: Expr, r: Expr, e: Expr, a: Eliminated, b: Eliminated, env: Env)
    requires Factored(op, l, e, a, env)
    requires Factored(op, r, a.e2, b, env)
    ensures Factored(op, Join(op, l, r), e, Eliminated(Join(op, a.e1, b.e1), b.e2, a.removed + b.removed), env)
  {
    var ca, cb := Eval(Fold(op, a.removed), env), Eval(Fold(op, b.removed), env);
    FoldConcat(op, a.removed, b.removed, env);
    EvalJoin(op, l, r, env);
    EvalJoin(op, a.e1, b.e1, env);
    ApplyMiddle(op, ca, Eval(a.e1, env), cb, Eval(b.e1, env));
    ApplyAssoc(op, ca, cb, Eval(b.e2, env));
  }

  // A removal under op turns an expression that is not an op into the unit symbol.
  lemma {:induction false} EliminateEqualKind(op: Op, e1: Expr, e2: Expr)
    ensures var r := EliminateEqual(op, e1, e2);
      !IsOp(op, e1) ==> r.e1 == e1 || r.e1 == Unit(op)
    ensures var r := EliminateEqual(op, e1, e2);
      !IsOp(op, e2) ==> r.e2 == e2 || r.e2 == Unit(op)
    ensures var r := EliminateEqual(op, e1, e2);
      (!IsOp(op, e1) && r.e1 == e1 != Unit(op)) || (!IsOp(op, e2) && r.e2 == e2 != Unit(op)) ==> r.removed == []
    decreases Size(e1) + Size(e2)
  {
    hide ExprEq;
    var r := EliminateEqual(op, e1, e2);
    if IsOp(op, e1) {
      var a := EliminateEqual(op, e1.left, e2);
      var b := EliminateEqual(op, e1.right, a.e2);
      assert r.e2 == b.e2 && r.removed == a.removed + b.removed;
      hide EliminateEqual;
      EliminateEqualKind(op, e1.left, e2);
      EliminateEqualKind(op, e1.right, a.e2);
    } else if IsOp(op, e2) {
      var a := EliminateEqual(op, e1, e2.left);
      var b := EliminateEqual(op, a.e1, e2.right);
      assert r.e1 == b.e1 && r.removed == a.removed + b.removed;
      hide EliminateEqual;
      EliminateEqualKind(op, e1, e2.left);
      EliminateEqualKind(op, a.e1, e2.right);
    } else {
      hide ExprEq;
    }
  }

  // The operator under which operands were removed.
  function PassOp(e1: Expr, e2: Expr): Op {
    if IsJunction(e1) && (!IsJunction(e2) || EliminateEqual(OpOf(e1), e1, e2).removed != []) then OpOf(e1)
    else if IsJunction(e2) then OpOf(e2)
    else AndOp
  }

  lemma {:induction false} NothingRemoved(op: Op, e1: Expr, e2: Expr)
    requires EliminateEqual(op, e1, e2).removed == []
    ensures EliminateEqual(op, e1, e2) == Eliminated(e1, e2, [])
    decreases Size(e1) + Size(e2)
  {
    if IsOp(op, e1) {
      NothingRemoved(op, e1.left, e2);
      NothingRemoved(op, e1.right, e2);
    } else if IsOp(op, e2) {
      NothingRemoved(op, e1, e2.left);
      NothingRemoved(op, e1, e2.right);
    }
  }

  // Of the two passes only one removes anything.
  lemma OnePass(e1: Expr, e2: Expr)
    requires IsJunction(e1) || IsJunction(e2)
    ensures EliminatePasses(e1, e2) == EliminateEqual(PassOp(e1, e2), e1, e2)
  {
    if IsJunction(e1) {
      var a := EliminateEqual(OpOf(e1), e1, e2);
      EliminateEqualKind(OpOf(e1), e1, e2);
      if a.removed == [] {
        NothingRemoved(OpOf(e1), e1, e2);
      }
    }
    if IsJunction(e2) {
      var b := EliminateEqual(OpOf(e2), e1, e2);
      assert [] + b.removed == b.removed;
    }
  }

  lemma {:induction false} EliminatePassesFactor(e1: Expr, e2: Expr, env: Env)
    ensures Factored(PassOp(e1, e2), e1, e2, EliminatePasses(e1, e2), env)
    decreases Size(e1) + Size(e2), 1
  {
    if IsJunction(e1) || IsJunction(e2) {
      OnePass(e1, e2);
      EliminateEqualFactors(PassOp(e1, e2), e1, e2, env);
    }
  }

  /** expr_eq answers true only for expressions with the same value everywhere. */
  lemma {:induction false} ExprEqSound(e1: Expr, e2: Expr, env: Env)
    requires ExprEq(e1, e2)
    ensures Eval(e1, env) == Eval(e2, env)
    decreases Size(e1) + Size(e2), 2
  {
    if e1.Not? {
      ExprEqSound(e1.arg, e2.arg, env);
    } else if IsJunction(e1) {
      var r := EliminatePasses(e1, e2);
      EliminatePassesFactor(e1, e2, env);
      EliminateYnSound(r.e1, env);
      EliminateYnSound(r.e2, env);
    }
  }

  /** expr_eliminate_eq takes out a common factor: one operator and one expression, the same for
      every assignment, give back both inputs from both outputs. */
  lemma {:induction false} EliminateEqFactors(e1: Expr, e2: Expr, env: Env)
    ensures Factored(PassOp(e1, e2), e1, e2, EliminateEq(e1, e2), env)
  {
    var r := EliminatePasses(e1, e2);
    EliminatePassesFactor(e1, e2, env);
    EliminateYnSound(r.e1, env);
    EliminateYnSound(r.e2, env);
  }
}
