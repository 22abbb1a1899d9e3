// Which of the following items a symbol takes into its submenu (menu_finalize of menu.c, with
// expr_contains_symbol, expr_depends_symbol and expr_eliminate_eq of expr.c): exactly which, and that
// the ones that depend on it are taken.
module Taking {
  import opened Expr
  import opened Eliminate
  import opened Matching
  import opened Dups
  import opened Depends
  import opened Submenus
  import M = Menus

  // ----- depending on a symbol -----

  /** An operand that is n unless s is not: s itself, s=y, s=m or s!=n. */
  predicate Demands(e: Expr, s: Sym) {
    e == Symbol(s) || e == Cmp(Eq, s, SYM_YES) || e == Cmp(Eq, s, SYM_MOD) || e == Cmp(Ne, s, SYM_NO)
  }

  /** expr_depends_symbol looks for such an operand among all operands of AND. */
  lemma {:induction false} DependsSymbolIsOperand(e: Expr, s: Sym)
    ensures DependsSymbol(e, s) <==> exists l <- Leaves(AndOp, e) :: Demands(l, s)
  {
    if e.And? {
      DependsSymbolIsOperand(e.left, s);
      DependsSymbolIsOperand(e.right, s);
      assert Leaves(AndOp, e) == Leaves(AndOp, e.left) + Leaves(AndOp, e.right);
    } else {
      assert Leaves(AndOp, e) == [e];
      assert e in Leaves(AndOp, e);
    }
  }

  // ----- supersets -----

  /** The second expression reduces to y, and is a superset for the code, exactly if it is y, or one of
      the two is an AND and its operands, with their multiplicities, are among those of the first. */
  lemma {:induction false} SupersetIsSubset(e1: Expr, e2: Expr)
    requires Clean(e1) && Clean(e2) && !IsYesNo(e1) && !IsYesNo(e2)
    ensures EliminateEq(e1, e2).e2 == Symbol(SYM_YES) <==>
            (e1.And? || e2.And?) && Operands(AndOp, e2) <= Operands(AndOp, e1)
  {
    if IsJunction(e1) || IsJunction(e2) {
      LeftUnder(e1, e2);
      var op := PassOp(e1, e2);
      NoneLeft(Operands(op, e2), Operands(op, e1));
      if op.OrOp? && (e1.And? || e2.And?) {
        NotUnderOr(e1, e2);
      }
      assert op.AndOp? ==> e1.And? || e2.And?;
      hide Operands, EliminateEq, Clean, PassOp;
    } else {
      assert EliminatePasses(e1, e2) == Eliminated(e1, e2, []);
    }
  }

  // What is left of the second expression.
  lemma {:induction false} LeftUnder(e1: Expr, e2: Expr)
    requires Clean(e1) && Clean(e2) && !IsYesNo(e1) && !IsYesNo(e2) && (IsJunction(e1) || IsJunction(e2))
    ensures var op, r := PassOp(e1, e2), EliminateEq(e1, e2).e2;
      (IsYesNo(r) ==> r == Unit(op)) && (r == Unit(op) <==> Operands(op, e2) - Operands(op, e1) == multiset{})
  {
    var op := PassOp(e1, e2);
    OnePass(e1, e2);
    CleanIsCleared(op, e1);
    CleanIsCleared(op, e2);
    EliminateEqualMatches(op, e1, e2);
    hide Operands, EliminateEqual, EliminateYn, Cleared, Clean, PassOp, Unit;
    EliminateYnSweeps(op, EliminateEqual(op, e1, e2).e2);
  }

  // Where operands of OR were looked at, those of AND do not match.
  lemma {:induction false} NotUnderOr(e1: Expr, e2: Expr)
    requires Clean(e1) && Clean(e2) && !IsYesNo(e1) && !IsYesNo(e2)
    requires (IsJunction(e1) || IsJunction(e2)) && PassOp(e1, e2).OrOp? && (e1.And? || e2.And?)
    ensures !(Operands(AndOp, e2) <= Operands(AndOp, e1))
  {
    if e1.And? {
      assert Operands(AndOp, e2) == multiset{Flatten(e2)};
      CleanIsCleared(AndOp, e1);
      CleanIsCleared(AndOp, e2);
      EliminateEqualMatches(AndOp, e1, e2);
      NothingRemoved(AndOp, e1, e2);
      NoneLeft(Operands(AndOp, e2), Operands(AndOp, e1));
    } else {
      assert Operands(AndOp, e1) == multiset{Flatten(e1)};
      HasOperand(e2.left);
      HasOperand(e2.right);
      assert |Operands(AndOp, e2)| >= 2;
      assert Operands(AndOp, e2) <= Operands(AndOp, e1) ==> |Operands(AndOp, e1) - Operands(AndOp, e2)| + |Operands(AndOp, e2)| == 1;
    }
  }

  lemma {:induction false} HasOperand(e: Expr)
    requires Clean(e) && !IsYesNo(e)
    ensures |Operands(AndOp, e)| >= 1
  {
    if e.And? {
      HasOperand(e.left);
    }
  }

  lemma NoneLeft(a: multiset<Flat>, b: multiset<Flat>)
    ensures a - b == multiset{} <==> a <= b
  {
    if a - b == multiset{} {
      forall f | f in a ensures a[f] <= b[f] {
        assert (a - b)[f] == 0;
      }
    }
  }

  // The dependency as the code compares it: without n or y as an operand.
  predicate Comparable(d: Dep) {
    Clean(Reduced(d)) && !IsYesNo(Reduced(d))
  }

  /** An item goes into the submenu of a symbol exactly if its dependency mentions the symbol, and either
      has an operand that is n unless the symbol is not, or has all operands of the condition of the prompt
      of the symbol, both as reduced by the code, one of them being an AND. */
  lemma {:induction false} BelongsExactly(s: Sym, base: Dep, dep: Dep)
    requires Comparable(base) && Comparable(dep)
    ensures Belongs(s, base, dep) <==>
      dep.Some? && s in Syms(dep.value) &&
      ((exists l <- Leaves(AndOp, dep.value) :: Demands(l, s)) ||
       ((Reduced(dep).And? || Reduced(base).And?) &&
        Operands(AndOp, Reduced(base)) <= Operands(AndOp, Reduced(dep))))
  {
    hide Reduced;
    SupersetIsSubset(Reduced(dep), Reduced(base));
    hide EliminateEq, Clean, Operands;
    if dep.Some? {
      ContainsIsOccurs(dep.value, s);
      DependsSymbolIsOperand(dep.value, s);
      hide ContainsSymbol, DependsSymbol;
    }
  }

  // ----- the items that are taken -----

  ghost predicate IsSuffix<T>(a: seq<T>, b: seq<T>) {
    |a| <= |b| && a == b[|b| - |a|..]
  }

  lemma {:induction false} FinalizeLeavesSuffix(k: M.Kind, t: M.Tree, rest: seq<M.Tree>)
    ensures IsSuffix(M.Finalize(k, t, rest).rest, rest)
    decreases 1 + M.Size(t.children) + M.Size(rest), 1
  {
    if t.children == [] && k.sym(t.id) {
      AbsorbLeavesSuffix(k, t.id, rest, 0);
    }
  }

  // The siblings that are left, when the next n siblings are such that the symbol takes them.
  lemma {:induction false} AbsorbLeavesSuffix(k: M.Kind, s: M.Id, rest: seq<M.Tree>, n: nat)
    requires n <= |rest| && forall u <- rest[..n] :: k.takes(s, u.id)
    ensures var a := M.Absorb(k, s, rest); IsSuffix(a.rest, rest) && n + |a.rest| <= |rest|
    decreases M.Size(rest), 2
  {
    if rest != [] && k.takes(s, rest[0].id) {
      var left := M.Finalize(k, rest[0], rest[1..]).rest;
      FinalizeLeavesSuffix(k, rest[0], rest[1..]);
      hide M.Finalize;
      var n' := SuffixOfNext(rest, left, n);
      AbsorbLeavesSuffix(k, s, left, n');
      hide M.Absorb;
      SuffixOfSuffix(rest, left, M.Absorb(k, s, left).rest);
    } else if n > 0 {
      assert rest[0] in rest[..n];
    }
  }

  lemma SuffixOfNext<T>(a: seq<T>, b: seq<T>, n: nat) returns (n': nat)
    requires a != [] && IsSuffix(b, a[1..]) && n <= |a|
    ensures IsSuffix(b, a) && n' <= |b| && n <= |a| - |b| + n' && forall u <- b[..n'] :: u in a[..n]
  {
    var taken := |a| - |b|;
    n' := if n <= taken then 0 else n - taken;
    forall u | u in b[..n'] ensures u in a[..n] {
      var i :| 0 <= i < n' && b[i] == u;
      assert a[..n][i + taken] == u;
    }
  }

  lemma SuffixOfSuffix<T>(a: seq<T>, b: seq<T>, c: seq<T>)
    requires IsSuffix(b, a) && IsSuffix(c, b)
    ensures IsSuffix(c, a)
  {
  }

  /** Whether the item i is to show only with the symbol s: an operand of the condition of its prompt, or
      of its dependency if it has no prompt, is n unless s is not. */
  ghost predicate DependsOn(items: Items, s: Sym, i: M.Id) {
    i in items &&
    var dep := if items[i].prompt.Some? then items[i].prompt.value else items[i].dep;
    dep.Some? && exists l <- Leaves(AndOp, dep.value) :: Demands(l, s)
  }

  // The condition by which an item is judged.
  ghost function ConditionOf(item: Item): Dep {
    if item.prompt.Some? then item.prompt.value else item.dep
  }

  /** What a symbol with a prompt takes, and what one without takes. */
  lemma {:induction false} TakesExactly(items: Items, p: M.Id, i: M.Id)
    requires HasSymbol(items, p) && i in items
    requires items[p].prompt.Some? ==> Comparable(items[p].prompt.value) && Comparable(ConditionOf(items[i]))
    ensures var s, dep := items[p].sym.value, ConditionOf(items[i]);
      Takes(items, p, i) <==>
      dep.Some? && s in Syms(dep.value) &&
      (items[p].prompt.None? || DependsOn(items, s, i) ||
       (var e, base := Reduced(dep), Reduced(items[p].prompt.value);
        (e.And? || base.And?) && Operands(AndOp, base) <= Operands(AndOp, e)))
  {
    var s, dep := items[p].sym.value, ConditionOf(items[i]);
    if items[p].prompt.Some? {
      BelongsExactly(s, items[p].prompt.value, dep);
    } else {
      PromptlessTakesAll(s, dep);
      if dep.Some? {
        ContainsIsOccurs(dep.value, s);
      }
    }
    hide Belongs, Reduced, Comparable;
  }

  lemma {:induction false} DependentIsTaken(items: Items, p: M.Id, i: M.Id)
    requires HasSymbol(items, p) && DependsOn(items, items[p].sym.value, i)
    ensures Takes(items, p, i)
  {
    var s := items[p].sym.value;
    var dep := if items[i].prompt.Some? then items[i].prompt.value else items[i].dep;
    DependsSymbolIsOperand(dep.value, s);
    OperandOccurs(dep.value, s);
    hide EliminateEq, Reduced;
  }

  lemma {:induction false} OperandOccurs(e: Expr, s: Sym)
    requires DependsSymbol(e, s)
    ensures ContainsSymbol(e, s)
  {
    if e.And? {
      if DependsSymbol(e.left, s) {
        OperandOccurs(e.left, s);
      } else {
        OperandOccurs(e.right, s);
      }
    }
  }

  lemma {:induction false} PreorderOfSplit(f: seq<M.Tree>, n: nat)
    requires n <= |f|
    ensures M.Preorder(f) == M.Preorder(f[..n]) + M.Preorder(f[n..])
  {
    assert f == f[..n] + f[n..];
    M.PreorderAppend(f[..n], f[n..]);
  }

  // The same for any decisions about which items to take.
  lemma {:induction false} SubmenuOf(k: M.Kind, t: M.Tree, rest: seq<M.Tree>, n: nat)
    requires t.children == [] && k.sym(t.id) && n <= |rest| && forall u <- rest[..n] :: k.takes(t.id, u.id)
    ensures var x := M.Finalize(k, t, rest);
      var m := |rest| - |x.rest|;
      n <= m <= |rest| && x.rest == rest[m..] && M.Preorder(x.t.children) == M.Preorder(rest[..m]) &&
      (m < |rest| ==> !k.takes(t.id, rest[m].id))
  {
    AbsorbLeavesSuffix(k, t.id, rest, n);
    AbsorbTakes(k, t.id, rest);
    var x, a := M.Finalize(k, t, rest), M.Absorb(k, t.id, rest);
    M.AbsorbKeepsOrder(k, t.id, rest);
    M.FlattenKeepsOrder(k, a.f);
    assert x.rest == a.rest && M.Preorder(x.t.children) == M.Preorder(a.f);
    hide M.Finalize, M.Absorb, M.Preorder;
    var m := |rest| - |a.rest|;
    PreorderOfSplit(rest, m);
    assert rest[m..] == a.rest;
    assert M.Preorder(a.f) + M.Preorder(a.rest) == M.Preorder(rest[..m]) + M.Preorder(a.rest);
    SameFront(M.Preorder(a.f), M.Preorder(rest[..m]), M.Preorder(a.rest));
  }

  lemma SameFront<T>(a: seq<T>, b: seq<T>, c: seq<T>)
    requires a + c == b + c
    ensures a == b
  {
    assert |a| == |b|;
    assert (a + c)[..|a|] == a && (b + c)[..|b|] == b;
  }

  /** The submenu of a symbol without children of its own holds the next m siblings with all that is below
      them, in their order, and nothing else. The sibling after them is one that the symbol does not take,
      and the first n siblings are among them if they depend on the symbol. */
  lemma {:induction false} SubmenuHolds(items: Items, t: M.Tree, rest: seq<M.Tree>, n: nat)
    requires t.children == [] && HasSymbol(items, t.id) && n <= |rest|
    requires forall u <- rest[..n] :: DependsOn(items, items[t.id].sym.value, u.id)
    ensures var x := M.Finalize(KindOf(items), t, rest);
      var m := |rest| - |x.rest|;
      n <= m <= |rest| && x.rest == rest[m..] && M.Preorder(x.t.children) == M.Preorder(rest[..m]) &&
      (m < |rest| ==> !Takes(items, t.id, rest[m].id) && !DependsOn(items, items[t.id].sym.value, rest[m].id))
  {
    hide DependsOn, Takes, M.Finalize, M.Preorder;
    var k := KindOf(items);
    forall u | u in rest[..n] ensures k.takes(t.id, u.id) {
      DependentIsTaken(items, t.id, u.id);
    }
    SubmenuOf(k, t, rest, n);
    var m := |rest| - |M.Finalize(k, t, rest).rest|;
    if m < |rest| && DependsOn(items, items[t.id].sym.value, rest[m].id) {
      DependentIsTaken(items, t.id, rest[m].id);
    }
  }
}
