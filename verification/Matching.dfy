// What expr_eq and __expr_eliminate_eq decide: equality of operands up to order and grouping.
module Matching {
  import opened Expr
  import opened Eliminate

  /** An expression up to associativity and commutativity of AND and OR: the operands of one
      level form a multiset. */
  datatype Flat =
    | FlatSym(sym: Sym)
    | FlatCmp(rel: Rel, lhs: Sym, rhs: Sym)
    | FlatNot(arg: Flat)
    | FlatNode(op: Op, args: multiset<Flat>)

  function Flatten(e: Expr): Flat
    decreases Size(e), 0
  {
    match e
    case Symbol(s) => FlatSym(s)
    case Cmp(rel, a, b) => FlatCmp(rel, a, b)
    case Not(a) => FlatNot(Flatten(a))
    case And(l, r) => FlatNode(AndOp, Operands(AndOp, l) + Operands(AndOp, r))
    case Or(l, r) => FlatNode(OrOp, Operands(OrOp, l) + Operands(OrOp, r))
  }

  /** The operands of e on its level of op. The constants y and n do not count. */
  function Operands(op: Op, e: Expr): multiset<Flat>
    decreases Size(e), 1
  {
    if IsOp(op, e) then Operands(op, e.left) + Operands(op, e.right)
    else if IsYesNo(e) then multiset{}
    else multiset{Flatten(e)}
  }

  /** No y or n occurs as an operand anywhere, not even under a NOT. */
  predicate Clean(e: Expr) {
    match e
    case Not(a) => Clean(a)
    case And(l, r) => Clean(l) && Clean(r) && !IsYesNo(l) && !IsYesNo(r)
    case Or(l, r) => Clean(l) && Clean(r) && !IsYesNo(l) && !IsYesNo(r)
    case _ => true
  }

  // Operands may already have been replaced by the unit of op; the rest is clean.
  predicate Cleared(op: Op, e: Expr) {
    if IsOp(op, e) then Cleared(op, e.left) && Cleared(op, e.right)
    else e == Unit(op) || (Clean(e) && !IsYesNo(e))
  }

  lemma {:induction false} CleanIsCleared(op: Op, e: Expr)
    requires Clean(e) && !IsYesNo(e)
    ensures Cleared(op, e)
    decreases e
  {
    if IsOp(op, e) {
      CleanIsCleared(op, e.left);
      CleanIsCleared(op, e.right);
    }
  }

  lemma CancelInTurn(a: multiset<Flat>, b: multiset<Flat>, c: multiset<Flat>)
    ensures (a - c) + (b - (c - a)) == (a + b) - c
    ensures (c - a) - b == c - (a + b)
  {
  }

  lemma OperandsOfJoin(op: Op, l: Expr, r: Expr)
    ensures Operands(op, Join(op, l, r)) == Operands(op, l) + Operands(op, r)
    ensures Cleared(op, Join(op, l, r)) <==> Cleared(op, l) && Cleared(op, r)
  {
  }

  // Each side keeps the operands the other does not match.
  ghost predicate Matched(op: Op, e1: Expr, e2: Expr, r: Eliminated) {
    Cleared(op, r.e1) && Cleared(op, r.e2) &&
    Operands(op, r.e1) == Operands(op, e1) - Operands(op, e2) &&
    Operands(op, r.e2) == Operands(op, e2) - Operands(op, e1)
  }

  lemma {:induction false} MatchesCompose(op: Op, l: Expr, r: Expr, e: Expr, a: Eliminated, b: Eliminated)
    requires Matched(op, l, e, a) && Matched(op, r, a.e2, b)
    ensures Matched(op, Join(op, l, r), e, Eliminated(Join(op, a.e1, b.e1), b.e2, a.removed + b.removed))
  {
    OperandsOfJoin(op, l, r);
    OperandsOfJoin(op, a.e1, b.e1);
    CancelInTurn(Operands(op, l), Operands(op, r), Operands(op, e));
  }

  lemma SingletonDifference(f: Flat, g: Flat)
    ensures multiset{f} - multiset{g} == if f == g then multiset{} else multiset{f}
    ensures multiset{f} - multiset{} == multiset{f}
    ensures multiset{} - multiset{f} == multiset{}
  {
  }

  // The operand a leaf stands for, if it is not y or n.
  lemma OperandsOfLeaf(op: Op, e: Expr)
    requires !IsOp(op, e)
    ensures Operands(op, e) == if IsYesNo(e) then multiset{} else multiset{Flatten(e)}
  {
  }

  lemma {:induction false} LeavesMatch(op: Op, e1: Expr, e2: Expr)
    requires !IsOp(op, e1) && !IsOp(op, e2) && Cleared(op, e1) && Cleared(op, e2)
    requires !IsYesNo(e1) && !IsYesNo(e2) ==> (ExprEq(e1, e2) <==> Flatten(e1) == Flatten(e2))
    ensures Matched(op, e1, e2, EliminateEqual(op, e1, e2))
  {
    OperandsOfLeaf(op, e1);
    OperandsOfLeaf(op, e2);
    OperandsOfLeaf(op, Unit(op));
    SingletonDifference(Flatten(e1), Flatten(e2));
    SingletonDifference(Flatten(e2), Flatten(e1));
    if IsYesNo(e1) || IsYesNo(e2) {
      assert e1 != e2 ==> !ExprEq(e1, e2);
      assert EliminateEqual(op, e1, e2) == Eliminated(e1, e2, []);
    } else if ExprEq(e1, e2) {
      assert EliminateEqual(op, e1, e2) == Eliminated(Unit(op), Unit(op), [e1]);
    } else {
      assert EliminateEqual(op, e1, e2) == Eliminated(e1, e2, []);
    }
  }

  /** __expr_eliminate_eq removes from each side exactly the operands the other side matches,
      counted with multiplicity. */
  lemma {:induction false} EliminateEqualMatches(op: Op, e1: Expr, e2: Expr)
    requires Cleared(op, e1) && Cleared(op, e2)
    ensures Matched(op, e1, e2, EliminateEqual(op, e1, e2))
    decreases Size(e1) + Size(e2), if IsOp(op, e1) || IsOp(op, e2) then 0 else 3
  {
    if IsOp(op, e1) {
      var a := EliminateEqual(op, e1.left, e2);
      EliminateEqualMatches(op, e1.left, e2);
      EliminateEqualMatches(op, e1.right, a.e2);
      assert e1 == Join(op, e1.left, e1.right);
      MatchesCompose(op, e1.left, e1.right, e2, a, EliminateEqual(op, e1.right, a.e2));
    } else if IsOp(op, e2) {
      var a := EliminateEqual(op, e1, e2.left);
      var b := EliminateEqual(op, a.e1, e2.right);
      EliminateEqualMatches(op, e1, e2.left);
      EliminateEqualMatches(op, a.e1, e2.right);
      assert e2 == Join(op, e2.left, e2.right);
      MatchesCompose(op, e2.left, e2.right, e1, Flip(a), Flip(b));
    } else {
      if !IsYesNo(e1) && !IsYesNo(e2) {
        ExprEqIsFlatEquality(e1, e2);
      }
      LeavesMatch(op, e1, e2);
    }
  }

  // What expr_eliminate_yn makes of an expression whose operands were partly replaced by units:
  // the operands that were left, or the unit when none was.
  ghost predicate Swept(op: Op, e: Expr, r: Expr) {
    Cleared(op, r) && Operands(op, r) == Operands(op, e) &&
    (IsYesNo(r) ==> r == Unit(op)) && (r == Unit(op) <==> Operands(op, e) == multiset{})
  }

  // Without the absorbing constant only units disappear.
  lemma EliminateYnOfJoin(op: Op, e: Expr)
    requires IsOp(op, e)
    ensures var l, r := EliminateYn(e.left), EliminateYn(e.right);
      (IsYesNo(l) ==> l == Unit(op)) && (IsYesNo(r) ==> r == Unit(op)) ==>
      EliminateYn(e) == if l == Unit(op) then r else if r == Unit(op) then l else Join(op, l, r)
  {
  }

  lemma {:induction false} EliminateYnSweeps(op: Op, e: Expr)
    requires Cleared(op, e)
    ensures Swept(op, e, EliminateYn(e))
    decreases e
  {
    if IsOp(op, e) {
      EliminateYnSweeps(op, e.left);
      EliminateYnSweeps(op, e.right);
      EliminateYnOfJoin(op, e);
      SweepsCompose(op, e.left, e.right, EliminateYn(e.left), EliminateYn(e.right));
      assert e == Join(op, e.left, e.right);
      hide EliminateYn, Operands, Cleared;
    } else if e != Unit(op) {
      CleanHasNoYesNo(e);
      EliminateYnComplete(e);
      assert Flatten(e) in Operands(op, e);
    }
  }

  lemma {:induction false} SweepsCompose(op: Op, a: Expr, b: Expr, l: Expr, r: Expr)
    requires Swept(op, a, l) && Swept(op, b, r)
    ensures Swept(op, Join(op, a, b), if l == Unit(op) then r else if r == Unit(op) then l else Join(op, l, r))
  {
    OperandsOfJoin(op, a, b);
    OperandsOfJoin(op, l, r);
    var m, n := Operands(op, a), Operands(op, b);
    assert m + n == multiset{} <==> m == multiset{} && n == multiset{} by {
      if m != multiset{} {
        var f :| f in m;
        assert f in m + n;
      }
      if n != multiset{} {
        var f :| f in n;
        assert f in m + n;
      }
    }
  }

  lemma {:induction false} CleanHasNoYesNo(e: Expr)
    requires Clean(e)
    ensures !HasYesNo(e)
  {
    if IsJunction(e) {
      CleanHasNoYesNo(e.left);
      CleanHasNoYesNo(e.right);
    }
  }

  /** On expressions without y/n operands, expr_eq answers true exactly for those that are equal
      up to the order and grouping of operands, at every level. */
  lemma {:induction false} ExprEqIsFlatEquality(e1: Expr, e2: Expr)
    requires Clean(e1) && Clean(e2)
    ensures ExprEq(e1, e2) <==> Flatten(e1) == Flatten(e2)
    decreases Size(e1) + Size(e2), 2
  {
    match (e1, e2)
    case (Not(a), Not(b)) => ExprEqIsFlatEquality(a, b);
    case (And(_, _), And(_, _)) => JunctionsMatch(AndOp, e1, e2);
    case (Or(_, _), Or(_, _)) => JunctionsMatch(OrOp, e1, e2);
    case _ =>
  }

  // Two symbols left over by the matching are equal only if nothing was left over.
  lemma {:induction false} LeftoversDiffer(op: Op, m1: multiset<Flat>, m2: multiset<Flat>, a: Expr)
    requires Operands(op, a) == m1 - m2 == m2 - m1 && a.Symbol?
    ensures m1 == m2
  {
    forall f ensures m1[f] == m2[f] {
      assert (m1 - m2)[f] == 0 && (m2 - m1)[f] == 0;
    }
  }

  lemma {:induction false} JunctionsMatch(op: Op, e1: Expr, e2: Expr)
    requires Clean(e1) && Clean(e2) && IsOp(op, e1) && IsOp(op, e2)
    ensures SameSymbol(EliminatePasses(e1, e2)) <==> Operands(op, e1) == Operands(op, e2)
    decreases Size(e1) + Size(e2), 1
  {
    var r := EliminateEqual(op, e1, e2);
    assert r == EliminatePasses(e1, e2) by {
      assert OpOf(e1) == op && IsOp(op, r.e2) && IsOp(op, r.e1);
    }
    CleanIsCleared(op, e1);
    CleanIsCleared(op, e2);
    EliminateEqualMatches(op, e1, e2);
    EliminateYnSweeps(op, r.e1);
    EliminateYnSweeps(op, r.e2);
    var m1, m2 := Operands(op, e1), Operands(op, e2);
    if m1 == m2 {
      assert m1 - m2 == multiset{};
    } else if SameSymbol(r) {
      LeftoversDiffer(op, m1, m2, EliminateYn(r.e1));
    }
  }

  /** expr_eliminate_eq keeps on each side exactly the operands that the other side does not
      match, under the operator it worked with. Two expressions without operands are left alone. */
  lemma {:induction false} EliminateEqMatches(e1: Expr, e2: Expr)
    requires Clean(e1) && Clean(e2) && !IsYesNo(e1) && !IsYesNo(e2)
    requires IsJunction(e1) || IsJunction(e2)
    ensures var op, r := PassOp(e1, e2), EliminateEq(e1, e2);
      Operands(op, r.e1) == Operands(op, e1) - Operands(op, e2) &&
      Operands(op, r.e2) == Operands(op, e2) - Operands(op, e1)
  {
    var op := PassOp(e1, e2);
    var r := EliminateEqual(op, e1, e2);
    OnePass(e1, e2);
    CleanIsCleared(op, e1);
    CleanIsCleared(op, e2);
    EliminateEqualMatches(op, e1, e2);
    EliminateYnSweeps(op, r.e1);
    EliminateYnSweeps(op, r.e2);
  }

  /** The comment above expr_eq asks only that every operand equals some operand of the other
      side; repeated operands show that the code asks for more. */
  lemma RepeatedOperandsDiffer(a: Sym, b: Sym)
    requires a != b && a != SYM_YES && a != SYM_NO && b != SYM_YES && b != SYM_NO
    ensures !ExprEq(And(Symbol(a), And(Symbol(a), Symbol(b))), And(Symbol(a), Symbol(b)))
  {
    var e1, e2 := And(Symbol(a), And(Symbol(a), Symbol(b))), And(Symbol(a), Symbol(b));
    ExprEqIsFlatEquality(e1, e2);
    var fa, fb := Flatten(Symbol(a)), Flatten(Symbol(b));
    assert Operands(AndOp, e2) == multiset{fa} + multiset{fb};
    assert Operands(AndOp, And(Symbol(a), Symbol(b))) == multiset{fa} + multiset{fb};
    assert Operands(AndOp, e1) == multiset{fa} + (multiset{fa} + multiset{fb});
    assert Flatten(e1).args[fa] == 2 && Flatten(e2).args[fa] == 1;
  }
}
