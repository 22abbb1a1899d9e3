// What menu_finalize does with dependencies: propagation from the parents, selects and implies, and
// the decision which items belong into the submenu of a symbol (menu.c, with rewrite_m, and
// expr_contains_symbol and expr_depends_symbol of expr.c).
module Depends {
  import opened Tristate
  import opened Expr
  import opened Eliminate
  import opened Dups
  import opened Transform

  // ----- the constant m without modules -----

  /** rewrite_m: m becomes m && MODULES. */
  function RewriteM(e: Expr, modules: Sym): Expr {
    match e
    case Not(a) => Not(RewriteM(a, modules))
    case And(l, r) => And(RewriteM(l, modules), RewriteM(r, modules))
    case Or(l, r) => Or(RewriteM(l, modules), RewriteM(r, modules))
    case Symbol(s) => if s == SYM_MOD then And(e, Symbol(modules)) else e
    case Cmp(_, _, _) => e
  }

  /** The value of e where the constant m, standing alone, has the value v. */
  function EvalWithM(e: Expr, env: Env, v: Tri): Tri {
    match e
    case Not(a) => Negate(EvalWithM(a, env, v))
    case And(l, r) => Min(EvalWithM(l, env, v), EvalWithM(r, env, v))
    case Or(l, r) => Max(EvalWithM(l, env, v), EvalWithM(r, env, v))
    case Symbol(s) => if s == SYM_MOD then v else Lookup(env, s).tri
    case Cmp(_, _, _) => Eval(e, env)
  }

  /** After the rewriting, m is n where modules are off, and nothing changes where they are on. */
  lemma {:induction false} RewriteMMeans(e: Expr, modules: Sym, env: Env)
    ensures Eval(RewriteM(e, modules), env) == EvalWithM(e, env, Min(MOD, Lookup(env, modules).tri))
    ensures EvalWithM(e, env, MOD) == Eval(e, env)
    ensures Plain(e) ==> Plain(RewriteM(e, modules))
  {
    match e
    case Not(a) => RewriteMMeans(a, modules, env);
    case And(l, r) => RewriteMMeans(l, modules, env); RewriteMMeans(r, modules, env);
    case Or(l, r) => RewriteMMeans(l, modules, env); RewriteMMeans(r, modules, env);
    case _ =>
  }

  // ----- expressions that may be missing -----

  /** expr_alloc_and. */
  function AllocAnd(a: Dep, b: Dep): Dep {
    if a.None? then b else if b.None? then a else Some(And(a.value, b.value))
  }

  /** expr_alloc_or. */
  function AllocOr(a: Dep, b: Dep): Dep {
    if a.None? then b else if b.None? then a else Some(Or(a.value, b.value))
  }

  lemma AllocAndMeans(a: Dep, b: Dep, env: Env)
    ensures EvalDep(AllocAnd(a, b), env) == Min(EvalDep(a, env), EvalDep(b, env))
  {
  }

  predicate PlainDep(d: Dep) {
    d.Some? ==> Plain(d.value)
  }

  predicate NotsDep(d: Dep) {
    d.Some? ==> NotsAtSymbols(d.value)
  }

  // ----- propagation -----

  function RewriteMDep(d: Dep, modules: Sym): Dep {
    if d.None? then None else Some(RewriteM(d.value, modules))
  }

  // A dependency as it is before the parent's is added.
  function Prepare(d: Dep, modules: Sym): Dep {
    if d.None? then None else Some(Transform.Transform(RewriteM(d.value, modules)))
  }

  /** The dependency of a menu entry with that of its parent added. */
  function Propagate(parent: Dep, d: Dep, modules: Sym): Dep {
    var x := AllocAnd(parent, Prepare(d, modules));
    if x.None? then None else Some(EliminateDups(x.value))
  }

  /** The condition of a property with the dependency of its menu entry added. */
  function PropagateCondition(base: Dep, d: Dep, modules: Sym, tristate: bool): Dep {
    var x := Propagate(base, d, modules);
    if x.Some? && !tristate then Some(TransBool(x.value)) else x
  }

  // The value of a dependency as it was written, with m meaning m && MODULES.
  function Written(d: Dep, modules: Sym, env: Env): Tri {
    if d.None? then YES else EvalWithM(d.value, env, Min(MOD, Lookup(env, modules).tri))
  }

  /** Propagation conjoins the values, whatever the simplifications did. */
  lemma {:induction false} PropagateSound(parent: Dep, d: Dep, modules: Sym, env: Env)
    requires WellTyped(env) && PlainDep(parent) && PlainDep(d)
    ensures var r := Propagate(parent, d, modules);
      EvalDep(r, env) == Min(EvalDep(parent, env), Written(d, modules, env)) && PlainDep(r)
  {
    if d.Some? {
      var m := RewriteM(d.value, modules);
      RewriteMMeans(d.value, modules, env);
      TransformSound(m, env);
      TransformPlain(m);
    }
    var x := AllocAnd(parent, Prepare(d, modules));
    if x.Some? {
      EliminateDupsSound(x.value, env);
    }
  }

  /** What is propagated offers nothing more to join, and it is missing only if both parts are. */
  lemma {:induction false} PropagateSettles(parent: Dep, d: Dep, modules: Sym)
    ensures var r := Propagate(parent, d, modules);
      (r.None? <==> parent.None? && d.None?) && (r.Some? ==> Settled(r.value))
  {
    var x := AllocAnd(parent, Prepare(d, modules));
    if x.Some? {
      EliminateDupsSettles(x.value);
    }
    hide EliminateDups, Settled;
  }

  /** A menu entry on the way down to an item: its dependency, and the choice symbol if it is a
      choice, which then stands in for everything above. */
  datatype Entry = Entry(dep: Dep, choice: Option<Sym>)

  /** The dependency handed to the children of the last entry of the path. */
  function PathDep(path: seq<Entry>, modules: Sym): Dep {
    if path == [] then None
    else
      var last := path[|path| - 1];
      if last.choice.Some? then Some(Symbol(last.choice.value))
      else Propagate(PathDep(path[..|path| - 1], modules), last.dep, modules)
  }

  function PathValue(path: seq<Entry>, modules: Sym, env: Env): Tri {
    if path == [] then YES
    else
      var last := path[|path| - 1];
      if last.choice.Some? then Lookup(env, last.choice.value).tri
      else Min(PathValue(path[..|path| - 1], modules, env), Written(last.dep, modules, env))
  }

  /** An item inherits the conjunction of the dependencies of all entries above it, up to the innermost
      choice, whose own value takes the place of what lies above. */
  lemma {:induction false} PathMeans(path: seq<Entry>, modules: Sym, env: Env)
    requires WellTyped(env) && forall e <- path :: PlainDep(e.dep)
    ensures EvalDep(PathDep(path, modules), env) == PathValue(path, modules, env) && PlainDep(PathDep(path, modules))
    decreases |path|
  {
    if path != [] {
      var last, above := path[|path| - 1], path[..|path| - 1];
      PathMeans(above, modules, env);
      if last.choice.None? {
        PropagateSound(PathDep(above, modules), last.dep, modules, env);
      }
    }
  }

  // ----- what removing duplicates keeps -----

  /** A property of expressions that holds of a junction when it holds of both operands, and that the
      joining of operands does not lose. */
  ghost predicate Stable(q: Expr -> bool) {
    (forall l, r :: q(And(l, r)) <==> q(l) && q(r)) && (forall l, r :: q(Or(l, r)) <==> q(l) && q(r)) &&
    q(Symbol(SYM_YES)) && q(Symbol(SYM_NO)) &&
    forall op, e1, e2 :: q(e1) && q(e2) && JoinPair(op, e1, e2).Some? ==> q(JoinPair(op, e1, e2).value)
  }

  predicate All(q: Expr -> bool, ls: seq<Expr>) {
    forall l <- ls :: q(l)
  }

  lemma {:induction false} LeavesKeep(q: Expr -> bool, op: Op, e: Expr)
    requires Stable(q)
    ensures q(e) <==> All(q, Leaves(op, e))
  {
    if IsOp(op, e) {
      LeavesKeep(q, op, e.left);
      LeavesKeep(q, op, e.right);
    }
  }

  lemma {:induction false} Dups1Keeps(q: Expr -> bool, e: Expr)
    requires Stable(q) && IsJunction(e) && q(e)
    ensures q(Dups1(e).e)
    decreases Size(e), 3, 0
  {
    var op := OpOf(e);
    LeavesKeep(q, op, e);
    RowsKeep(q, op, Leaves(op, e), 0);
    LeavesOfRebuild(op, e, Rows(op, Leaves(op, e), 0).ls);
    LeavesKeep(q, op, Dups1(e).e);
  }

  lemma {:induction false} RowsKeep(q: Expr -> bool, op: Op, ls: seq<Expr>, i: nat)
    requires Stable(q) && |ls| >= 2 && Slots(op, ls) && i <= |ls| && All(q, ls)
    ensures All(q, Rows(op, ls, i).ls)
    decreases Total(ls), 3, |ls| - i
  {
    hide Stable;
    if i < |ls| {
      RowKeeps(q, op, ls, i, 0, |ls|);
      RowsKeep(q, op, Row(op, ls, i, 0, |ls|).ls, i + 1);
    }
  }

  lemma {:induction false} RowKeeps(q: Expr -> bool, op: Op, ls: seq<Expr>, i: nat, j: nat, n: nat)
    requires Stable(q) && |ls| >= 2 && Slots(op, ls) && i < |ls| && j <= n <= |ls| && All(q, ls)
    ensures All(q, Row(op, ls, i, j, n).ls)
    decreases Total(ls), 2, n - j
  {
    hide Stable;
    if j < n {
      VisitKeeps(q, op, ls, i, j);
      RowKeeps(q, op, Visit(op, ls, i, j).ls, i, j + 1, n);
    }
  }

  lemma {:induction false} VisitKeeps(q: Expr -> bool, op: Op, ls: seq<Expr>, i: nat, j: nat)
    requires Stable(q) && |ls| >= 2 && Slots(op, ls) && i < |ls| && j < |ls| && All(q, ls)
    ensures All(q, Visit(op, ls, i, j).ls)
    decreases Total(ls), 1, 0
  {
    hide JoinPair;
    if i != j {
      TotalUpdate(ls, i, ls[i]);
      assert q(ls[i]) && q(ls[j]);
      if IsJunction(ls[i]) {
        Dups1Keeps(q, ls[i]);
      }
    }
  }

  lemma {:induction false} EliminateYnKeeps(q: Expr -> bool, e: Expr)
    requires Stable(q) && q(e)
    ensures q(EliminateYn(e))
  {
    if IsJunction(e) {
      EliminateYnKeeps(q, e.left);
      EliminateYnKeeps(q, e.right);
    }
  }

  /** Removing duplicates keeps every such property. */
  lemma {:induction false} EliminateDupsKeeps(q: Expr -> bool, e: Expr)
    requires Stable(q) && q(e)
    ensures q(EliminateDups(e))
    decreases Size(e)
  {
    if IsJunction(e) {
      var r := Dups1(e);
      Dups1Keeps(q, e);
      if r.joins > 0 {
        Dups1Marks(e);
        EliminateYnComplete(r.e);
        EliminateYnKeeps(q, r.e);
        EliminateDupsKeeps(q, EliminateYn(r.e));
      }
    }
  }

  // ----- the shape of propagated dependencies -----

  /** All symbols of e belong to ss, or are n, m or y. */
  predicate Within(e: Expr, ss: set<Sym>) {
    forall s <- Syms(e) :: s in ss || IsLetter(s)
  }

  // The three shapes that propagation keeps.
  lemma NotsAreStable()
    ensures Stable(NotsAtSymbols)
  {
    hide ExprEq;
  }

  lemma LogicalIsStable()
    ensures Stable(LogicalSymbols)
  {
    hide ExprEq;
  }

  lemma WithinIsStable(ss: set<Sym>)
    ensures Stable((e: Expr) => Within(e, ss))
  {
    hide ExprEq;
  }

  /** No numerals are compared, NOT stands only above symbols, and only bools and tristates stand
      alone. */
  predicate Propagated(d: Dep) {
    PlainDep(d) && NotsDep(d) && (d.Some? ==> LogicalSymbols(d.value))
  }

  predicate Shaped(d: Dep, ss: set<Sym>) {
    Propagated(d) && WithinDep(d, ss)
  }

  predicate WithinDep(d: Dep, ss: set<Sym>) {
    d.Some? ==> Within(d.value, ss)
  }

  // A dependency as it may be written, where NOT may stand anywhere.
  predicate Writable(d: Dep) {
    PlainDep(d) && (d.Some? ==> LogicalSymbols(d.value))
  }

  lemma {:induction false} RewriteMKeeps(e: Expr, modules: Sym)
    requires LogicalSymbols(e) && (IsLogical(modules) || IsLetter(modules))
    ensures LogicalSymbols(RewriteM(e, modules))
  {
    match e
    case Not(a) => RewriteMKeeps(a, modules);
    case And(l, r) => RewriteMKeeps(l, modules); RewriteMKeeps(r, modules);
    case Or(l, r) => RewriteMKeeps(l, modules); RewriteMKeeps(r, modules);
    case _ =>
  }

  lemma {:induction false} TransformKeeps(e: Expr, ss: set<Sym>)
    requires LogicalSymbols(e) && Within(e, ss)
    ensures LogicalSymbols(Transform.Transform(e)) && Within(Transform.Transform(e), ss)
    decreases Weight(e)
  {
    match e
    case Symbol(_) =>
    case Cmp(_, a, b) => assert a in Syms(e) && b in Syms(e);
    case And(l, r) => TransformKeeps(l, ss); TransformKeeps(r, ss);
    case Or(l, r) => TransformKeeps(l, ss); TransformKeeps(r, ss);
    case Not(x) =>
      TransformKeeps(x, ss);
      match Transform.Transform(x)
      case Not(a) => TransformKeeps(a, ss);
      case Or(a, b) => TransformKeeps(Dual(Or(a, b)), ss);
      case And(a, b) => TransformKeeps(Dual(And(a, b)), ss);
      case _ =>
  }

  lemma {:induction false} TransBoolKeeps(e: Expr, ss: set<Sym>)
    requires Shaped(Some(e), ss)
    ensures Shaped(Some(TransBool(e)), ss)
  {
    match e
    case And(l, r) => TransBoolKeeps(l, ss); TransBoolKeeps(r, ss);
    case Or(l, r) => TransBoolKeeps(l, ss); TransBoolKeeps(r, ss);
    case Not(a) =>
    case Cmp(_, a, b) => assert a in Syms(e);
    case Symbol(_) =>
  }

  predicate NoModTestDep(d: Dep, env: Env) {
    d.Some? ==> NoModTest(d.value, env)
  }

  // No tristate that is tested for equality or inequality has the value m.
  predicate NoModCompared(e: Expr, env: Env) {
    match e
    case Not(a) => NoModCompared(a, env)
    case And(l, r) => NoModCompared(l, env) && NoModCompared(r, env)
    case Or(l, r) => NoModCompared(l, env) && NoModCompared(r, env)
    case Cmp(rel, a, _) => (rel.Eq? || rel.Ne?) && TypeOf(a).Tri3? ==> Lookup(env, a).tri != MOD
    case _ => true
  }

  predicate NoModDep(d: Dep, env: Env) {
    d.Some? ==> NoModCompared(d.value, env)
  }

  lemma {:induction false} NoModComparedIsTest(e: Expr, env: Env)
    requires NoModCompared(e, env)
    ensures NoModTest(e, env)
  {
    match e
    case Not(a) => NoModComparedIsTest(a, env);
    case And(l, r) => NoModComparedIsTest(l, env); NoModComparedIsTest(r, env);
    case Or(l, r) => NoModComparedIsTest(l, env); NoModComparedIsTest(r, env);
    case _ =>
  }

  lemma NoModIsStable(env: Env)
    ensures Stable((e: Expr) => NoModCompared(e, env))
  {
    hide ExprEq, Lookup;
  }

  lemma {:induction false} RewriteMNoMod(e: Expr, modules: Sym, env: Env)
    ensures NoModCompared(RewriteM(e, modules), env) <==> NoModCompared(e, env)
  {
    match e
    case Not(a) => RewriteMNoMod(a, modules, env);
    case And(l, r) => RewriteMNoMod(l, modules, env); RewriteMNoMod(r, modules, env);
    case Or(l, r) => RewriteMNoMod(l, modules, env); RewriteMNoMod(r, modules, env);
    case _ =>
  }

  lemma {:induction false} TransformNoMod(e: Expr, env: Env)
    requires NoModCompared(e, env)
    ensures NoModCompared(Transform.Transform(e), env)
    decreases Weight(e)
  {
    hide Lookup;
    match e
    case Symbol(_) =>
    case Cmp(_, _, _) =>
    case And(l, r) => TransformNoMod(l, env); TransformNoMod(r, env);
    case Or(l, r) => TransformNoMod(l, env); TransformNoMod(r, env);
    case Not(x) =>
      TransformNoMod(x, env);
      match Transform.Transform(x)
      case Not(a) => TransformNoMod(a, env);
      case Or(a, b) => TransformNoMod(Dual(Or(a, b)), env);
      case And(a, b) => TransformNoMod(Dual(And(a, b)), env);
      case _ =>
  }

  /** A condition in which no tested tristate is m stays so when it is propagated. */
  lemma {:induction false} PropagateNoMod(base: Dep, d: Dep, modules: Sym, env: Env)
    requires NoModDep(base, env) && NoModDep(d, env)
    ensures NoModDep(Propagate(base, d, modules), env) && NoModTestDep(Propagate(base, d, modules), env)
  {
    if d.Some? {
      RewriteMNoMod(d.value, modules, env);
      TransformNoMod(RewriteM(d.value, modules), env);
    }
    var x := AllocAnd(base, Prepare(d, modules));
    if x.Some? {
      NoModIsStable(env);
      EliminateDupsKeeps((e: Expr) => NoModCompared(e, env), x.value);
      NoModComparedIsTest(EliminateDups(x.value), env);
    }
  }

  lemma {:induction false} TransBoolKeepsNots(e: Expr)
    requires NotsAtSymbols(e)
    ensures NotsAtSymbols(TransBool(e))
  {
    if IsJunction(e) {
      TransBoolKeepsNots(e.left);
      TransBoolKeepsNots(e.right);
    }
  }

  /** The condition of a property says when it holds at all: it is n exactly when its own condition or
      the dependency of its entry is n, and never higher. For a tristate its value is exact, and for
      other types where no tristate in a test that is converted is m. */
  lemma {:induction false} ConditionSound(base: Dep, d: Dep, modules: Sym, tristate: bool, env: Env)
    requires WellTyped(env) && PlainDep(base) && PlainDep(d) && NotsDep(base)
    ensures var r := PropagateCondition(base, d, modules, tristate);
      var v := Min(EvalDep(base, env), Written(d, modules, env));
      (EvalDep(r, env) == NO <==> v == NO) && EvalDep(r, env) <= v && NotsDep(r) &&
      (tristate || NoModTestDep(Propagate(base, d, modules), env) ==> EvalDep(r, env) == v)
    ensures NotsDep(Propagate(base, d, modules))
  {
    PropagateSound(base, d, modules, env);
    if d.Some? {
      TransformNormal(RewriteM(d.value, modules));
      NormalHasNotsAtSymbols(Prepare(d, modules).value);
    }
    var x := AllocAnd(base, Prepare(d, modules));
    if x.Some? {
      NotsAreStable();
      EliminateDupsKeeps(NotsAtSymbols, x.value);
      SymbolsUnconverted(EliminateDups(x.value));
      TransBoolKeepsNo(EliminateDups(x.value), env);
      TransBoolKeepsNots(EliminateDups(x.value));
      TransBoolKeepsParts(EliminateDups(x.value), env);
    }
  }

  /** Propagation brings dependencies into shape and lets no further symbols in. */
  lemma {:induction false} PropagateKeeps(parent: Dep, d: Dep, modules: Sym, ss: set<Sym>)
    requires Shaped(parent, ss) && Writable(d) && WithinDep(RewriteMDep(d, modules), ss)
    requires IsLogical(modules) || IsLetter(modules)
    ensures Shaped(Propagate(parent, d, modules), ss)
  {
    PropagateSound(parent, d, modules, map[]);
    if d.Some? {
      var m := RewriteM(d.value, modules);
      RewriteMKeeps(d.value, modules);
      TransformKeeps(m, ss);
      TransformNormal(m);
      NormalHasNotsAtSymbols(Transform.Transform(m));
    }
    var x := AllocAnd(parent, Prepare(d, modules));
    if x.Some? {
      NotsAreStable();
      LogicalIsStable();
      WithinIsStable(ss);
      EliminateDupsKeeps(NotsAtSymbols, x.value);
      EliminateDupsKeeps(LogicalSymbols, x.value);
      EliminateDupsKeeps((e: Expr) => Within(e, ss), x.value);
    }
  }

  lemma {:induction false} PropagateConditionKeeps(base: Dep, d: Dep, modules: Sym, tristate: bool, ss: set<Sym>)
    requires Shaped(base, ss) && Writable(d) && WithinDep(RewriteMDep(d, modules), ss)
    requires IsLogical(modules) || IsLetter(modules)
    ensures Shaped(PropagateCondition(base, d, modules, tristate), ss)
  {
    PropagateKeeps(base, d, modules, ss);
    var x := Propagate(base, d, modules);
    if x.Some? {
      TransBoolKeeps(x.value, ss);
    }
  }

  // ----- selects, implies and several definitions -----

  /** A missing rev_dep or implied counts as n. */
  function EvalRev(d: Dep, env: Env): Tri {
    if d.None? then NO else Eval(d.value, env)
  }

  /** What a select or imply by sym under the condition cond adds to rev_dep or implied. */
  function AddSelect(rev: Dep, sym: Sym, cond: Dep): Dep {
    AllocOr(rev, AllocAnd(Some(Symbol(sym)), cond))
  }

  lemma AllocOrMeans(a: Dep, b: Dep, env: Env)
    ensures EvalRev(AllocOr(a, b), env) == Max(EvalRev(a, env), EvalRev(b, env))
  {
  }

  function RevOf(selects: seq<(Sym, Dep)>): Dep {
    if selects == [] then None
    else AddSelect(RevOf(selects[..|selects| - 1]), selects[|selects| - 1].0, selects[|selects| - 1].1)
  }

  function HighestSelect(selects: seq<(Sym, Dep)>, env: Env): Tri {
    if selects == [] then NO
    else
      var (s, cond) := selects[|selects| - 1];
      Max(HighestSelect(selects[..|selects| - 1], env), Min(Lookup(env, s).tri, EvalDep(cond, env)))
  }

  /** A symbol is selected as far as one of the symbols that select it is set and the condition of
      that select holds. */
  lemma {:induction false} SelectsMean(selects: seq<(Sym, Dep)>, env: Env)
    ensures EvalRev(RevOf(selects), env) == HighestSelect(selects, env)
    decreases |selects|
  {
    if selects != [] {
      var (s, cond) := selects[|selects| - 1];
      SelectsMean(selects[..|selects| - 1], env);
      AllocAndMeans(Some(Symbol(s)), cond, env);
      AllocOrMeans(RevOf(selects[..|selects| - 1]), AllocAnd(Some(Symbol(s)), cond), env);
    }
  }

  /** The conversion of conditions for bools lowers a select: a select by the bool A if X!=n selects only
      m where X is m, as the condition became X. */
  lemma SelectLowered(a: Sym, x: Sym)
    requires a.Var? && a.typ.Boolean? && x.Var? && x.typ.Tri3?
    ensures var written: Dep := Some(Cmp(Ne, x, SYM_NO));
      var cond, env := PropagateCondition(None, written, SYM_YES, false), map[a := Val(YES, "y"), x := Val(MOD, "m")];
      WellTyped(env) && Eval(RevOf([(a, cond)]).value, env) == MOD && Eval(RevOf([(a, written)]).value, env) == YES
  {
    var e := Cmp(Ne, x, SYM_NO);
    var cond := PropagateCondition(None, Some(e), SYM_YES, false);
    var env := map[a := Val(YES, "y"), x := Val(MOD, "m")];
    assert Transform.Transform(RewriteM(e, SYM_YES)) == e && EliminateDups(e) == e;
    assert cond == Some(Symbol(x));
    CmpWithLetter(env, x, NO);
    var none: seq<(Sym, Dep)> := [];
    assert [(a, cond)][..0] == none && [(a, Some(e))][..0] == none;
    assert RevOf([(a, cond)]) == AddSelect(RevOf(none), a, cond) == Some(And(Symbol(a), Symbol(x)));
    assert RevOf([(a, Some(e))]) == AddSelect(RevOf(none), a, Some(e)) == Some(And(Symbol(a), e));
  }

  /** A select or imply: the symbol, the dependency of its menu entry, and the condition as written. */
  datatype Select = Select(sym: Sym, base: Dep, cond: Dep)

  // What menu_finalize adds for each, and what it would add without simplifying or converting.
  function Converted(selects: seq<Select>, modules: Sym): (r: seq<(Sym, Dep)>)
    ensures |r| == |selects|
  {
    seq(|selects|, i requires 0 <= i < |selects| => (selects[i].sym,
      PropagateCondition(selects[i].base, selects[i].cond, modules, TypeOf(selects[i].sym).Tri3?)))
  }

  function Unconverted(selects: seq<Select>, modules: Sym): (r: seq<(Sym, Dep)>)
    ensures |r| == |selects|
  {
    seq(|selects|, i requires 0 <= i < |selects| => (selects[i].sym,
      AllocAnd(selects[i].base, RewriteMDep(selects[i].cond, modules))))
  }

  // A select whose condition has the same value after the conversion: by a tristate, for which nothing
  // is converted, or under a condition without a test of a tristate that is m.
  predicate KeptExactly(sel: Select, env: Env) {
    TypeOf(sel.sym).Tri3? || (NoModDep(sel.base, env) && NoModDep(sel.cond, env))
  }

  /** The conversion of conditions keeps whether anything selects at all, never raises a select, and
      keeps its value if all selects are by tristates or test no tristate that is m. */
  lemma {:induction false} SelectsKept(selects: seq<Select>, modules: Sym, env: Env)
    requires WellTyped(env)
    requires forall sel <- selects :: PlainDep(sel.base) && NotsDep(sel.base) && PlainDep(sel.cond)
    ensures var a, b := EvalRev(RevOf(Converted(selects, modules)), env), EvalRev(RevOf(Unconverted(selects, modules)), env);
      a <= b && (a == NO <==> b == NO) && ((forall sel <- selects :: KeptExactly(sel, env)) ==> a == b)
  {
    var a, b := Converted(selects, modules), Unconverted(selects, modules);
    var exact := forall sel <- selects :: KeptExactly(sel, env);
    forall i | 0 <= i < |selects| ensures SameCondition(a[i].1, b[i].1, env, exact) {
      var sel := selects[i];
      assert sel in selects;
      SelectKept(sel, modules, env);
    }
    SelectsCompare(a, b, exact, env);
  }

  lemma {:induction false} SelectKept(sel: Select, modules: Sym, env: Env)
    requires WellTyped(env) && PlainDep(sel.base) && NotsDep(sel.base) && PlainDep(sel.cond)
    ensures SameCondition(PropagateCondition(sel.base, sel.cond, modules, TypeOf(sel.sym).Tri3?),
      AllocAnd(sel.base, RewriteMDep(sel.cond, modules)), env, KeptExactly(sel, env))
  {
    ConditionSound(sel.base, sel.cond, modules, TypeOf(sel.sym).Tri3?, env);
    if KeptExactly(sel, env) && !TypeOf(sel.sym).Tri3? {
      PropagateNoMod(sel.base, sel.cond, modules, env);
    }
    RewriteMDepMeans(sel.cond, modules, env);
    AllocAndMeans(sel.base, RewriteMDep(sel.cond, modules), env);
  }

  lemma RewriteMDepMeans(d: Dep, modules: Sym, env: Env)
    ensures EvalDep(RewriteMDep(d, modules), env) == Written(d, modules, env)
  {
    if d.Some? {
      RewriteMMeans(d.value, modules, env);
    }
  }

  // The first condition is never higher, and n in the same cases; where exact holds both are the same.
  predicate SameCondition(a: Dep, b: Dep, env: Env, exact: bool) {
    EvalDep(a, env) <= EvalDep(b, env) && (EvalDep(a, env) == NO <==> EvalDep(b, env) == NO) &&
    (exact ==> EvalDep(a, env) == EvalDep(b, env))
  }

  lemma {:induction false} SelectsCompare(a: seq<(Sym, Dep)>, b: seq<(Sym, Dep)>, exact: bool, env: Env)
    requires |a| == |b|
    requires forall i | 0 <= i < |a| :: a[i].0 == b[i].0 && SameCondition(a[i].1, b[i].1, env, exact)
    ensures var x, y := EvalRev(RevOf(a), env), EvalRev(RevOf(b), env);
      x <= y && (x == NO <==> y == NO) && (exact ==> x == y)
    ensures RevOf(a).None? <==> RevOf(b).None?
    decreases |a|
  {
    if a != [] {
      var n := |a| - 1;
      SelectsCompare(a[..n], b[..n], exact, env);
      AddSelectMeans(RevOf(a[..n]), a[n].0, a[n].1, env);
      AddSelectMeans(RevOf(b[..n]), b[n].0, b[n].1, env);
    }
  }

  lemma AddSelectMeans(rev: Dep, sym: Sym, cond: Dep, env: Env)
    ensures AddSelect(rev, sym, cond).Some?
    ensures EvalRev(AddSelect(rev, sym, cond), env) == Max(EvalRev(rev, env), Min(Lookup(env, sym).tri, EvalDep(cond, env)))
  {
    AllocAndMeans(Some(Symbol(sym)), cond, env);
    AllocOrMeans(rev, AllocAnd(Some(Symbol(sym)), cond), env);
  }

  /** dir_dep after the definitions with the dependencies ds were finalised. */
  function DirDepOf(ds: seq<Dep>): Dep {
    if ds == [] then None else AllocOr(DirDepOf(ds[..|ds| - 1]), ds[|ds| - 1])
  }

  // The definitions that have dependencies.
  function HighestPresent(ds: seq<Dep>, env: Env): Tri {
    if ds == [] then NO
    else Max(HighestPresent(ds[..|ds| - 1], env), EvalRev(ds[|ds| - 1], env))
  }

  predicate AllMissing(ds: seq<Dep>) {
    forall d <- ds :: d.None?
  }

  lemma {:induction false} DirDepMeans(ds: seq<Dep>, env: Env)
    ensures EvalDep(DirDepOf(ds), env) == if AllMissing(ds) then YES else HighestPresent(ds, env)
    ensures DirDepOf(ds).None? <==> AllMissing(ds)
    decreases |ds|
  {
    if ds != [] {
      var above := ds[..|ds| - 1];
      DirDepMeans(above, env);
      assert ds == above + [ds[|ds| - 1]];
      if AllMissing(above) {
        MissingIsNo(above, env);
      }
    }
  }

  lemma {:induction false} MissingIsNo(ds: seq<Dep>, env: Env)
    requires AllMissing(ds)
    ensures HighestPresent(ds, env) == NO
    decreases |ds|
  {
    if ds != [] {
      MissingIsNo(ds[..|ds| - 1], env);
    }
  }

  // What the dependencies of several definitions should amount to.
  function HighestOf(ds: seq<Dep>, env: Env): Tri {
    if ds == [] then NO else Max(HighestOf(ds[..|ds| - 1], env), EvalDep(ds[|ds| - 1], env))
  }

  lemma {:induction false} HighestOfMeans(ds: seq<Dep>, env: Env)
    ensures HighestOf(ds, env) == if exists d <- ds :: d.None? then YES else HighestPresent(ds, env)
    decreases |ds|
  {
    if ds != [] {
      var above, last := ds[..|ds| - 1], ds[|ds| - 1];
      HighestOfMeans(above, env);
      assert ds == above + [last];
      assert last in ds;
    }
  }

  /** The direct dependencies of a symbol are those of its most permissive definition, exactly when
      not a definition without dependencies is mixed with definitions none of which is y. */
  lemma {:induction false} DefinitionsMix(ds: seq<Dep>, env: Env)
    requires ds != []
    ensures EvalDep(DirDepOf(ds), env) == HighestOf(ds, env) <==>
      AllMissing(ds) || (forall d <- ds :: d.Some?) || HighestPresent(ds, env) == YES
  {
    DirDepMeans(ds, env);
    HighestOfMeans(ds, env);
    assert ds[0] in ds;
  }

  /** A definition without dependencies is forgotten when another one has some. */
  lemma DefinitionForgotten()
    ensures EvalDep(DirDepOf([None, Some(Symbol(SYM_NO))]), map[]) == NO
    ensures HighestOf([None, Some(Symbol(SYM_NO))], map[]) == YES
  {
    var ds: seq<Dep> := [None, Some(Symbol(SYM_NO))];
    var none: Dep := None;
    assert ds[..1] == [none] && [none][..0] == [];
    assert DirDepOf([none]) == AllocOr(DirDepOf([]), none);
    assert DirDepOf(ds) == ds[1];
    assert HighestOf([none], map[]) == YES;
  }

  // ----- automatic submenus -----

  /** expr_contains_symbol. */
  predicate ContainsSymbol(e: Expr, s: Sym) {
    match e
    case And(l, r) => ContainsSymbol(l, s) || ContainsSymbol(r, s)
    case Or(l, r) => ContainsSymbol(l, s) || ContainsSymbol(r, s)
    case Not(a) => ContainsSymbol(a, s)
    case Symbol(t) => t == s
    case Cmp(_, a, b) => a == s || b == s
  }

  /** expr_depends_symbol. */
  predicate DependsSymbol(e: Expr, s: Sym) {
    match e
    case And(l, r) => DependsSymbol(l, s) || DependsSymbol(r, s)
    case Symbol(t) => t == s
    case Cmp(Eq, a, b) => a == s && (b == SYM_YES || b == SYM_MOD)
    case Cmp(Ne, a, b) => a == s && b == SYM_NO
    case _ => false
  }

  lemma {:induction false} ContainsIsOccurs(e: Expr, s: Sym)
    ensures ContainsSymbol(e, s) <==> s in Syms(e)
  {
    match e
    case And(l, r) => ContainsIsOccurs(l, s); ContainsIsOccurs(r, s);
    case Or(l, r) => ContainsIsOccurs(l, s); ContainsIsOccurs(r, s);
    case Not(a) => ContainsIsOccurs(a, s);
    case _ =>
  }

  /** An expression that depends on a symbol is n wherever the symbol is. */
  lemma {:induction false} DependsSymbolSound(e: Expr, s: Sym, env: Env)
    requires WellTyped(env) && IsLogical(s) && DependsSymbol(e, s)
    ensures Lookup(env, s).tri == NO ==> Eval(e, env) == NO
    ensures ContainsSymbol(e, s)
  {
    match e
    case And(l, r) =>
      if DependsSymbol(l, s) { DependsSymbolSound(l, s, env); } else { DependsSymbolSound(r, s, env); }
    case Symbol(t) =>
    case Cmp(_, a, b) =>
      CmpWithLetter(env, a, NO);
      CmpWithLetter(env, a, MOD);
      CmpWithLetter(env, a, YES);
  }

  // Whether the dependency holds at all, as a two-valued expression in reduced form.
  function Reduced(d: Dep): Expr {
    EliminateDups(Transform.Transform(TransCompareDep(d, true, SYM_NO)))
  }

  /** Whether an item with the dependency dep belongs into the submenu of the symbol s, whose prompt
      has the condition base. */
  predicate Belongs(s: Sym, base: Dep, dep: Dep) {
    dep.Some? && ContainsSymbol(dep.value, s) &&
    (DependsSymbol(dep.value, s) || EliminateEq(Reduced(dep), Reduced(base)).e2 == Symbol(SYM_YES))
  }

  lemma {:induction false} TransComparePlain(e: Expr, neg: bool)
    requires Plain(e)
    ensures Plain(TransCompare(e, neg, SYM_NO))
  {
    match e
    case And(l, r) => TransComparePlain(l, false); TransComparePlain(r, false);
    case Or(l, r) => TransComparePlain(l, false); TransComparePlain(r, false);
    case Not(a) => TransComparePlain(a, !neg);
    case _ =>
  }

  // Whether the dependency holds at all, as expr_trans_compare reads it.
  predicate ReadsDep(d: Dep, env: Env) {
    d.None? || !Reads(d.value, NO, env)
  }

  /** The reduced dependency is y where the dependency, read with a two-valued NOT, holds. */
  lemma {:induction false} ReducedReads(d: Dep, env: Env)
    requires WellTyped(env) && PlainDep(d)
    ensures Eval(Reduced(d), env) == FromBool(ReadsDep(d, env))
  {
    var e := TransCompareDep(d, true, SYM_NO);
    if d.Some? {
      TransCompareReads(d.value, true, NO, env);
      TransComparePlain(d.value, true);
    }
    TransformSound(e, env);
    TransformPlain(e);
    EliminateDupsSound(Transform.Transform(e), env);
  }

  lemma {:induction false} ReducedSettles(d: Dep)
    ensures Settled(Reduced(d))
  {
    EliminateDupsSettles(Transform.Transform(TransCompareDep(d, true, SYM_NO)));
  }

  /** So it is y where the dependency is not n, and n elsewhere, exactly where this reading agrees with
      the value. */
  lemma {:induction false} ReducedMeans(d: Dep, env: Env)
    requires WellTyped(env) && PlainDep(d)
    ensures Eval(Reduced(d), env) == FromBool(EvalDep(d, env) != NO)
            <==> (ReadsDep(d, env) <==> EvalDep(d, env) != NO)
  {
    ReducedReads(d, env);
  }

  /** When the second expression reduces to y by taking out common operands, the first never exceeds
      it. */
  lemma {:induction false} SupersetSound(e1: Expr, e2: Expr, env: Env)
    requires EliminateEq(e1, e2).e2 == Symbol(SYM_YES)
    ensures Eval(e1, env) <= Eval(e2, env)
  {
    EliminateEqFactors(e1, e2, env);
  }

  /** For an item in the submenu of a symbol, either its dependency is n wherever the symbol is, or the
      condition of the prompt of the symbol holds wherever the dependency does, as the code reads
      both. */
  lemma {:induction false} SubmenuDepends(s: Sym, base: Dep, dep: Dep, env: Env)
    requires WellTyped(env) && IsLogical(s) && Belongs(s, base, dep) && PlainDep(base) && PlainDep(dep)
    ensures if DependsSymbol(dep.value, s) then EvalDep(dep, env) != NO ==> Lookup(env, s).tri != NO
      else ReadsDep(dep, env) ==> ReadsDep(base, env)
  {
    if DependsSymbol(dep.value, s) {
      DependsSymbolSound(dep.value, s, env);
    } else {
      SupersetSound(Reduced(dep), Reduced(base), env);
      ReducedReads(dep, env);
      ReducedReads(base, env);
    }
  }

  /** Where NOT stands only above symbols, which is what propagation leaves, the code reads no more into
      a dependency than it says, and all of it where it is y. What it misses is a dependency of m. */
  lemma {:induction false} ReadsBelow(e: Expr, env: Env)
    requires WellTyped(env) && NotsAtSymbols(e) && LogicalSymbols(e)
    ensures !Reads(e, NO, env) ==> Eval(e, env) != NO
    ensures Eval(e, env) == YES ==> !Reads(e, NO, env)
  {
    match e
    case And(l, r) => ReadsBelow(l, env); ReadsBelow(r, env);
    case Or(l, r) => ReadsBelow(l, env); ReadsBelow(r, env);
    case Not(a) =>
      assert a == Symbol(a.sym) && LogicalSymbols(a) && Eval(e, env) == Negate(Lookup(env, a.sym).tri);
      assert Reads(e, NO, env) == !Reads(a, NO, env);
      SymbolCompare(env, a.sym, NO);
    case Symbol(s) => SymbolCompare(env, s, NO);
    case Cmp(_, _, _) =>
  }

  /** So an item in the submenu that is y shows only where the symbol is not n, or else where the
      prompt of the symbol is visible; and one that is m too, unless the code takes it to be n. */
  lemma {:induction false} SubmenuShows(s: Sym, base: Dep, dep: Dep, env: Env)
    requires WellTyped(env) && IsLogical(s) && Belongs(s, base, dep) && Propagated(base) && Propagated(dep)
    requires EvalDep(dep, env) == YES || (EvalDep(dep, env) == MOD && ReadsDep(dep, env))
    ensures if DependsSymbol(dep.value, s) then Lookup(env, s).tri != NO else EvalDep(base, env) != NO
  {
    SubmenuDepends(s, base, dep, env);
    ReadsBelow(dep.value, env);
    if base.Some? {
      ReadsBelow(base.value, env);
    }
  }

  /** The dependencies for which an m goes unnoticed have one below a NOT: an item of which no m occurs
      under a NOT shows only where the symbol is not n, or else where its prompt is visible. */
  lemma {:induction false} SubmenuShowsPlainly(s: Sym, base: Dep, dep: Dep, env: Env)
    requires WellTyped(env) && IsLogical(s) && Belongs(s, base, dep) && Propagated(base) && Propagated(dep)
    requires TwoValuedNots(dep.value, env) && EvalDep(dep, env) != NO
    ensures if DependsSymbol(dep.value, s) then Lookup(env, s).tri != NO else EvalDep(base, env) != NO
  {
    TwoValuedReads(dep.value, NO, env);
    SubmenuShows(s, base, dep, env);
  }

  // (S || X) && !B, and B=n.
  function NotExample(s: Sym, x: Sym, b: Sym): Expr {
    And(Or(Symbol(s), Symbol(x)), Not(Symbol(b)))
  }

  predicate ThreeTristates(s: Sym, x: Sym, b: Sym) {
    s.Var? && s.typ.Tri3? && x.Var? && x.typ.Tri3? && b.Var? && b.typ.Tri3? && s != x && s != b && x != b
  }

  /** With an m below a NOT the item shows although the prompt does not: for three tristates, (S || X) &&
      !B goes into the submenu of S with the prompt condition B=n, and where S is n, X y and B m it
      is m while the prompt and S are n. */
  lemma SubmenuUnderNot(s: Sym, x: Sym, b: Sym)
    requires ThreeTristates(s, x, b)
    ensures var base: Dep, dep: Dep := Some(Cmp(Eq, b, SYM_NO)), Some(NotExample(s, x, b));
      var env := map[s := Val(NO, "n"), x := Val(YES, "y"), b := Val(MOD, "m")];
      WellTyped(env) && Propagated(base) && Propagated(dep) && Belongs(s, base, dep) && !DependsSymbol(dep.value, s) &&
      EvalDep(dep, env) == MOD && EvalDep(base, env) == NO && Lookup(env, s).tri == NO
  {
    var base: Dep, dep: Dep := Some(Cmp(Eq, b, SYM_NO)), Some(NotExample(s, x, b));
    var env := map[s := Val(NO, "n"), x := Val(YES, "y"), b := Val(MOD, "m")];
    ReducedExample(s, x, b);
    SupersetExample(Cmp(Ne, s, SYM_NO), Cmp(Ne, x, SYM_NO), Cmp(Eq, b, SYM_NO));
    assert Belongs(s, base, dep) && !DependsSymbol(dep.value, s) by {
      hide Reduced, EliminateEq;
      assert ContainsSymbol(Or(Symbol(s), Symbol(x)), s);
      assert !DependsSymbol(Or(Symbol(s), Symbol(x)), s);
    }
    hide Belongs, DependsSymbol, CmpResult, Reduced, EliminateEq, Eval, Propagated;
    ExampleValues(s, x, b);
  }

  lemma ExampleValues(s: Sym, x: Sym, b: Sym)
    requires ThreeTristates(s, x, b)
    ensures var dep, env := NotExample(s, x, b), map[s := Val(NO, "n"), x := Val(YES, "y"), b := Val(MOD, "m")];
      WellTyped(env) && Propagated(Some(Cmp(Eq, b, SYM_NO))) && Propagated(Some(dep)) &&
      Eval(dep, env) == MOD && Eval(Cmp(Eq, b, SYM_NO), env) == NO && Lookup(env, s).tri == NO
  {
    var env := map[s := Val(NO, "n"), x := Val(YES, "y"), b := Val(MOD, "m")];
    CmpWithLetter(env, b, NO);
    LettersDenote();
    hide CmpResult, Denotes;
    var or, not := Or(Symbol(s), Symbol(x)), Not(Symbol(b));
    assert Plain(or) && Plain(not) && NotsAtSymbols(or) && NotsAtSymbols(not);
    assert LogicalSymbols(or) && LogicalSymbols(not);
    assert Plain(And(or, not)) && NotsAtSymbols(And(or, not)) && LogicalSymbols(And(or, not));
    assert Eval(or, env) == YES && Eval(not, env) == MOD;
  }

  lemma SupersetExample(e1: Expr, e2: Expr, c: Expr)
    requires e1.Cmp? && e2.Cmp? && c.Cmp? && e1 != c && e2 != c
    ensures EliminateEq(And(Or(e1, e2), c), c).e2 == Symbol(SYM_YES)
  {
    assert EliminateEqual(AndOp, Or(e1, e2), c) == Eliminated(Or(e1, e2), c, []);
    assert EliminateEqual(AndOp, c, c) == Eliminated(Unit(AndOp), Unit(AndOp), [c]);
    assert EliminateEqual(AndOp, And(Or(e1, e2), c), c).e2 == Unit(AndOp);
    assert SecondPass(And(Or(e1, e2), Unit(AndOp)), Unit(AndOp)).e2 == Unit(AndOp);
    assert EliminatePasses(And(Or(e1, e2), c), c).e2 == Unit(AndOp);
  }

  lemma ReducedExample(s: Sym, x: Sym, b: Sym)
    requires ThreeTristates(s, x, b)
    ensures var e1, e2, c := Cmp(Ne, s, SYM_NO), Cmp(Ne, x, SYM_NO), Cmp(Eq, b, SYM_NO);
      Reduced(Some(NotExample(s, x, b))) == And(Or(e1, e2), c) && Reduced(Some(c)) == c
  {
    var e1, e2, c := Cmp(Ne, s, SYM_NO), Cmp(Ne, x, SYM_NO), Cmp(Eq, b, SYM_NO);
    ComparedExample(s, x, b);
    SettledExample(e1, e2, c);
    EliminateDupsSettles(And(Or(e1, e2), c));
  }

  // The comparison with n, brought into normal form.
  lemma ComparedExample(s: Sym, x: Sym, b: Sym)
    requires ThreeTristates(s, x, b)
    ensures Transform.Transform(TransCompare(NotExample(s, x, b), true, SYM_NO)) ==
      And(Or(Cmp(Ne, s, SYM_NO), Cmp(Ne, x, SYM_NO)), Cmp(Eq, b, SYM_NO))
  {
    var f1, f2, g := Cmp(Eq, s, SYM_NO), Cmp(Eq, x, SYM_NO), Cmp(Ne, b, SYM_NO);
    assert TransCompare(Or(Symbol(s), Symbol(x)), false, SYM_NO) == And(f1, f2);
    assert TransCompare(Not(Symbol(b)), false, SYM_NO) == g;
    NegatedOr(And(f1, f2), g);
    NegatedAnd(f1, f2);
    assert Transform.Transform(Not(f1)) == Cmp(Ne, s, SYM_NO) && Transform.Transform(Not(f2)) == Cmp(Ne, x, SYM_NO);
    assert Transform.Transform(Not(g)) == Cmp(Eq, b, SYM_NO);
  }

  // De Morgan's rules for operands in normal form.
  lemma NegatedOr(a: Expr, b: Expr)
    requires Normal(a) && Normal(b)
    ensures Transform.Transform(Not(Or(a, b))) == And(Transform.Transform(Not(a)), Transform.Transform(Not(b)))
  {
    TransformNormal(Or(a, b));
    assert Dual(Or(a, b)) == And(Not(a), Not(b));
  }

  lemma NegatedAnd(a: Expr, b: Expr)
    requires Normal(a) && Normal(b)
    ensures Transform.Transform(Not(And(a, b))) == Or(Transform.Transform(Not(a)), Transform.Transform(Not(b)))
  {
    TransformNormal(And(a, b));
    assert Dual(And(a, b)) == Or(Not(a), Not(b));
  }

  // Tests of three tristates offer nothing to join.
  lemma SettledExample(e1: Expr, e2: Expr, c: Expr)
    requires e1.Cmp? && e2.Cmp? && c.Cmp? && e1.lhs != e2.lhs && e1.lhs != c.lhs && e2.lhs != c.lhs
    ensures Settled(And(Or(e1, e2), c))
  {
    assert Leaves(OrOp, Or(e1, e2)) == [e1, e2];
    assert Settled(Or(e1, e2));
    assert Leaves(AndOp, And(Or(e1, e2), c)) == [Or(e1, e2), c];
    assert JoinAnd(Or(e1, e2), c).None? && JoinAnd(c, Or(e1, e2)).None?;
  }
}
