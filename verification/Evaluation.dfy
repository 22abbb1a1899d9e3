// The cached evaluation computes the values of the recursive definition.
module Evaluation {
  import opened Tristate
  import opened Expr
  import opened Config
  import opened Meaning

  ghost predicate UsersAre(g: Graph, st: State, users: Users) {
    forall s <- g.nodes :: At(st, s).user == UserOf(users, s)
  }

  // The cell of s holds the outcome o, except perhaps for a mark to write it that was cleared.
  predicate Records(st: State, s: Sym, o: Outcome, cleared: set<Sym>) {
    var cell := At(st, s);
    cell.curr == Val(o.tri, o.str) &&
    (!TypeOf(s).Unknown? ==>
      cell.visible == o.visible && cell.dirDep == o.dirDep && cell.revDep == o.revDep &&
      cell.implied == o.implied && (s !in cleared ==> cell.write == o.write))
  }

  /** The context of an evaluation: the configuration, its acyclic part, what the user set, and
      the symbols whose mark to be written was cleared after their evaluation. */
  datatype Context = Context(c: Config, g: Graph, users: Users, cleared: set<Sym>)

  ghost function Mods(x: Context): Tri
    requires WellRanked(x.c, x.g)
  {
    Modules(x.c, x.g, x.users)
  }

  ghost function True(x: Context, s: Sym): Outcome
    requires WellRanked(x.c, x.g) && s in x.g.nodes
  {
    ValueOf(x.c, x.g, Mods(x), x.users, s)
  }

  ghost function TrueEnv(x: Context, s: Sym): Env
    requires WellRanked(x.c, x.g) && s in x.g.nodes
  {
    EnvOf(x.c, x.g, Mods(x), x.users, s)
  }

  /** Every valid symbol of rank below r holds its true outcome. */
  ghost predicate Good(x: Context, st: State, r: nat)
    requires WellRanked(x.c, x.g)
  {
    forall s <- x.g.nodes :: x.g.rank[s] < r && At(st, s).valid ==> Records(st, s, True(x, s), x.cleared)
  }

  /** The symbol that switches modules on has been evaluated, and modules_val is its value. */
  ghost predicate Ready(x: Context, st: State)
    requires WellRanked(x.c, x.g)
  {
    st.modulesVal == Mods(x) && Current(x.c, st, x.c.modules).tri == Mods(x) &&
    (x.c.modules in x.g.nodes ==> At(st, x.c.modules).valid)
  }

  // What the evaluation of expressions over symbols below rank r does to the state.
  ghost predicate Kept(x: Context, st: State, st': State, r: nat)
    requires WellRanked(x.c, x.g)
  {
    Good(x, st', r) && UsersAre(x.g, st', x.users) &&
    (Ready(x, st) ==> Ready(x, st')) && (st.modulesVal == Mods(x) ==> st'.modulesVal == Mods(x)) &&
    (forall t :: t !in x.g.nodes || x.g.rank[t] >= r ==> At(st', t) == At(st, t)) &&
    (forall t <- x.g.nodes :: At(st, t).valid ==> At(st', t) == At(st, t))
  }

  ghost predicate Start(x: Context, st: State, r: nat, calm: bool)
    requires WellRanked(x.c, x.g)
  {
    Good(x, st, r) && UsersAre(x.g, st, x.users) && (calm ==> Ready(x, st))
  }

  // The declared symbols among ss lie below rank r, and env gives their true values. Unless the
  // state is ready, they belong to the part without tristates.
  ghost predicate Below(x: Context, ss: set<Sym>, env: Env, r: nat, calm: bool)
    requires WellRanked(x.c, x.g)
  {
    forall t <- ss ::
      if t.Var? && t in x.c.decls then
        t in x.g.nodes && x.g.rank[t] < r && t in env && env[t] == ValOf(t, True(x, t)) && (calm || t in x.g.cone)
      else Lookup(env, t) == Lookup(map[], t)
  }

  lemma {:induction false} CalcExprCorrect(x: Context, st: State, e: Expr, env: Env, r: nat, calm: bool)
    requires WellRanked(x.c, x.g) && Start(x, st, r, calm) && Below(x, Syms(e), env, r, calm)
    ensures Kept(x, st, CalcExpr(x.c, st, e).st, r)
    ensures CalcExpr(x.c, st, e).v == Eval(e, env)
    decreases r, 1, e
  {
    match e
    case Symbol(s) =>
      assert s in Syms(e);
      CalcOperand(x, st, s, env, r, calm);
    case Not(a) => CalcExprCorrect(x, st, a, env, r, calm);
    case And(a, b) =>
      CalcExprCorrect(x, st, a, env, r, calm);
      CalcExprCorrect(x, CalcExpr(x.c, st, a).st, b, env, r, calm);
    case Or(a, b) =>
      CalcExprCorrect(x, st, a, env, r, calm);
      CalcExprCorrect(x, CalcExpr(x.c, st, a).st, b, env, r, calm);
    case Cmp(rel, a, b) =>
      assert a in Syms(e) && b in Syms(e);
      var st1 := CalcValue(x.c, st, a);
      var st2 := CalcValue(x.c, st1, b);
      CalcOperand(x, st, a, env, r, calm);
      CalcOperand(x, st1, b, env, r, calm);
      CalcOperand(x, st2, a, env, r, calm);
      assert CalcValue(x.c, st2, a) == st2;
      CalcString(x, st2, a, env, r, calm);
      CalcString(x, st2, b, env, r, calm);
  }

  // Evaluating a symbol of an expression.
  lemma {:induction false} CalcOperand(x: Context, st: State, s: Sym, env: Env, r: nat, calm: bool)
    requires WellRanked(x.c, x.g) && Start(x, st, r, calm) && Below(x, {s}, env, r, calm)
    ensures Kept(x, st, CalcValue(x.c, st, s), r)
    ensures Current(x.c, CalcValue(x.c, st, s), s).tri == Lookup(env, s).tri
    ensures s.Var? && s in x.c.decls ==> At(CalcValue(x.c, st, s), s).valid
    decreases r, 0
  {
    assert s in {s};
    if s.Var? && s in x.c.decls {
      CalcValueCorrect(x, st, s, r, calm);
    }
  }

  lemma {:induction false} CalcString(x: Context, st: State, s: Sym, env: Env, r: nat, calm: bool)
    requires WellRanked(x.c, x.g) && Start(x, st, r, calm) && Below(x, {s}, env, r, calm)
    requires s.Var? && s in x.c.decls ==> At(st, s).valid
    ensures StringValue(x.c, st, s) == Result(st, Lookup(env, s).str)
  {
    assert s in {s};
    if s.Var? && s in x.c.decls {
      assert Records(st, s, True(x, s), x.cleared);
      if IsLogical(s) {
        NoModWithoutModules(x.c, x.g, Mods(x), x.users, s);
      }
    }
  }

  // ----- the evaluation of one symbol -----

  // The context of the evaluation of s itself, once it is marked valid.
  ghost predicate Inside(x: Context, st: State, s: Sym, calm: bool)
    requires WellRanked(x.c, x.g)
  {
    s in x.g.nodes && Start(x, st, x.g.rank[s], calm) && At(st, s).valid &&
    (calm || s in x.g.cone) && (calm ==> s != x.c.modules)
  }

  // What a part of that evaluation does: it may also change the cell of s.
  ghost predicate Own(x: Context, st: State, st': State, s: Sym)
    requires WellRanked(x.c, x.g) && s in x.g.nodes
  {
    Good(x, st', x.g.rank[s]) && UsersAre(x.g, st', x.users) &&
    (Ready(x, st) && s != x.c.modules ==> Ready(x, st')) && (st.modulesVal == Mods(x) ==> st'.modulesVal == Mods(x)) &&
    (forall t :: t != s && (t !in x.g.nodes || x.g.rank[t] >= x.g.rank[s]) ==> At(st', t) == At(st, t)) &&
    (At(st, s).valid ==> At(st', s).valid) &&
    (forall t <- x.g.nodes :: t != s && At(st, t).valid ==> At(st', t) == At(st, t))
  }

  lemma InsideFacts(x: Context, st: State, s: Sym, calm: bool)
    requires WellRanked(x.c, x.g) && Inside(x, st, s, calm)
    ensures s in x.g.nodes && s in x.c.decls && x.c.decls[s].role.Plain? && At(st, s).valid
    ensures At(st, s).user == UserOf(x.users, s)
  {
  }

  lemma InsideStart(x: Context, st: State, s: Sym, calm: bool)
    requires WellRanked(x.c, x.g) && Inside(x, st, s, calm)
    ensures s in x.g.nodes && s in x.g.rank && Start(x, st, x.g.rank[s], calm) && (calm || s in x.g.cone)
  {
  }

  lemma OwnTrans(x: Context, a: State, b: State, c: State, s: Sym, calm: bool)
    requires WellRanked(x.c, x.g) && Inside(x, a, s, calm)
    requires Own(x, a, b, s) && Own(x, b, c, s)
    ensures Own(x, a, c, s) && Inside(x, b, s, calm) && Inside(x, c, s, calm)
  {
  }

  lemma KeptIsOwn(x: Context, st: State, st': State, s: Sym)
    requires WellRanked(x.c, x.g) && s in x.g.nodes && Kept(x, st, st', x.g.rank[s])
    ensures Own(x, st, st', s) && At(st', s) == At(st, s)
  {
  }

  lemma PutIsOwn(x: Context, st: State, s: Sym, cell: Cell, calm: bool)
    requires WellRanked(x.c, x.g) && Inside(x, st, s, calm)
    requires cell.valid && cell.user == At(st, s).user
    ensures var st' := Put(st, s, cell); Own(x, st, st', s) && Inside(x, st', s, calm) && At(st', s) == cell
  {
  }

  // What s mentions lies below it.
  lemma {:induction false} MentionedBelow(x: Context, s: Sym, ss: set<Sym>, calm: bool)
    requires WellRanked(x.c, x.g) && s in x.g.nodes && (calm || s in x.g.cone)
    requires ss <= Mentioned(x.c.decls[s])
    ensures Below(x, ss, TrueEnv(x, s), x.g.rank[s], calm)
  {
    forall t | t in ss && t.Var? && t in x.c.decls
      ensures t in Deps(x.c, s)
    {
    }
  }

  lemma {:induction false} DepCorrect(x: Context, st: State, s: Sym, d: Dep, missing: Tri, calm: bool)
    requires WellRanked(x.c, x.g) && Inside(x, st, s, calm) && DepSyms(d) <= Mentioned(x.c.decls[s])
    ensures var r := CalcDep(x.c, st, d, missing);
      r.v == (if d.None? then missing else Eval(d.value, TrueEnv(x, s))) &&
      Own(x, st, r.st, s) && Inside(x, r.st, s, calm) && At(r.st, s) == At(st, s)
    decreases x.g.rank[s], 2
  {
    if d.Some? {
      MentionedBelow(x, s, Syms(d.value), calm);
      CalcExprCorrect(x, st, d.value, TrueEnv(x, s), x.g.rank[s], calm);
      KeptIsOwn(x, st, CalcDep(x.c, st, d, missing).st, s);
    }
  }

  lemma {:induction false} PromptsCorrect(x: Context, st: State, s: Sym, ps: seq<Dep>, acc: Tri, calm: bool)
    requires WellRanked(x.c, x.g) && Inside(x, st, s, calm) && PromptSyms(ps) <= Mentioned(x.c.decls[s])
    ensures var r := CalcPrompts(x.c, st, s, ps, acc);
      r.v == MaxPrompts(ps, TrueEnv(x, s), acc) &&
      Own(x, st, r.st, s) && Inside(x, r.st, s, calm) && At(r.st, s) == At(st, s)
    decreases x.g.rank[s], 3, |ps|
  {
    if ps != [] {
      var r := CalcDep(x.c, st, ps[0], YES);
      DepCorrect(x, st, s, ps[0], YES, calm);
      PromptsCorrect(x, r.st, s, ps[1..], Max(acc, r.v), calm);
      OwnTrans(x, st, r.st, CalcPrompts(x.c, st, s, ps, acc).st, s, calm);
    }
  }

  lemma BumpIsPromote(x: Context, st: State, s: Sym, v: Tri, calm: bool)
    requires WellRanked(x.c, x.g) && Inside(x, st, s, calm)
    ensures Bump(x.c, st, s, v) == Promote(s, Mods(x), v)
    ensures TypeOf(s).Tri3? ==> st.modulesVal == Mods(x)
  {
  }

  // The cell of s with its visibility and dependencies calculated.
  ghost function Surveyed(x: Context, s: Sym, cell: Cell): Cell
    requires WellRanked(x.c, x.g) && s in x.g.nodes
  {
    var d, env, mods := x.c.decls[s], TrueEnv(x, s), Mods(x);
    cell.(visible := VisibleIn(d, s, mods, env), dirDep := DirDepIn(d, s, mods, env),
          revDep := RevDepIn(d, s, mods, env), implied := ImpliedIn(d, s, mods, env))
  }

  lemma {:induction false} VisibilityCorrect(x: Context, st: State, s: Sym, calm: bool)
    requires WellRanked(x.c, x.g) && Inside(x, st, s, calm)
    ensures var st' := CalcVisibility(x.c, st, s);
      Own(x, st, st', s) && Inside(x, st', s, calm) && At(st', s) == Surveyed(x, s, At(st, s))
    decreases x.g.rank[s], 5
  {
    hide Own, Inside, True, Mods, WellRanked;
    InsideFacts(x, st, s, calm);
    var c, d, env, mods := x.c, x.c.decls[s], TrueEnv(x, s), Mods(x);
    var p := CalcPrompts(c, st, s, d.prompts, NO);
    PromptsCorrect(x, st, s, d.prompts, NO, calm);
    BumpIsPromote(x, p.st, s, p.v, calm);
    var st1 := Put(p.st, s, At(p.st, s).(visible := VisibleIn(d, s, mods, env)));
    PutIsOwn(x, p.st, s, At(st1, s), calm);
    OwnTrans(x, st, p.st, st1, s, calm);
    var st2, st3, st4 := CalcDirDep(c, st1, s), CalcRevDep(c, CalcDirDep(c, st1, s), s), CalcVisibility(c, st, s);
    DirDepCorrect(x, st1, s, calm);
    OwnTrans(x, st, st1, st2, s, calm);
    RevDepCorrect(x, st2, s, calm);
    OwnTrans(x, st, st2, st3, s, calm);
    ImpliedCorrect(x, st3, s, calm);
    OwnTrans(x, st, st3, st4, s, calm);
  }

  lemma {:induction false} DirDepCorrect(x: Context, st: State, s: Sym, calm: bool)
    requires WellRanked(x.c, x.g) && Inside(x, st, s, calm)
    ensures var st' := CalcDirDep(x.c, st, s);
      Own(x, st, st', s) && Inside(x, st', s, calm) &&
      At(st', s) == At(st, s).(dirDep := DirDepIn(x.c.decls[s], s, Mods(x), TrueEnv(x, s)))
    decreases x.g.rank[s], 4
  {
    var r := CalcDep(x.c, st, x.c.decls[s].dirDep, YES);
    DepCorrect(x, st, s, x.c.decls[s].dirDep, YES, calm);
    BumpIsPromote(x, r.st, s, r.v, calm);
    PutIsOwn(x, r.st, s, At(CalcDirDep(x.c, st, s), s), calm);
    OwnTrans(x, st, r.st, CalcDirDep(x.c, st, s), s, calm);
  }

  lemma {:induction false} RevDepCorrect(x: Context, st: State, s: Sym, calm: bool)
    requires WellRanked(x.c, x.g) && Inside(x, st, s, calm)
    ensures var st' := CalcRevDep(x.c, st, s);
      Own(x, st, st', s) && Inside(x, st', s, calm) &&
      At(st', s) == At(st, s).(revDep := RevDepIn(x.c.decls[s], s, Mods(x), TrueEnv(x, s)))
    decreases x.g.rank[s], 4
  {
    var r := CalcDep(x.c, st, x.c.decls[s].revDep, NO);
    DepCorrect(x, st, s, x.c.decls[s].revDep, NO, calm);
    BumpIsPromote(x, r.st, s, r.v, calm);
    PutIsOwn(x, r.st, s, At(CalcRevDep(x.c, st, s), s), calm);
    OwnTrans(x, st, r.st, CalcRevDep(x.c, st, s), s, calm);
  }

  lemma {:induction false} ImpliedCorrect(x: Context, st: State, s: Sym, calm: bool)
    requires WellRanked(x.c, x.g) && Inside(x, st, s, calm)
    requires At(st, s).dirDep == DirDepIn(x.c.decls[s], s, Mods(x), TrueEnv(x, s))
    ensures var st' := CalcImplied(x.c, st, s);
      Own(x, st, st', s) && Inside(x, st', s, calm) &&
      At(st', s) == At(st, s).(implied := ImpliedIn(x.c.decls[s], s, Mods(x), TrueEnv(x, s)))
    decreases x.g.rank[s], 4
  {
    var st' := CalcImplied(x.c, st, s);
    if At(st, s).dirDep == NO {
      BumpIsPromote(x, st, s, NO, calm);
      PutIsOwn(x, st, s, At(st', s), calm);
    } else {
      var r := CalcDep(x.c, st, x.c.decls[s].implied, NO);
      DepCorrect(x, st, s, x.c.decls[s].implied, NO, calm);
      BumpIsPromote(x, r.st, s, r.v, calm);
      PutIsOwn(x, r.st, s, At(st', s), calm);
      OwnTrans(x, st, r.st, st', s, calm);
    }
  }

  lemma {:induction false} FindDefaultCorrect(x: Context, st: State, s: Sym, ds: seq<Default>, calm: bool)
    requires WellRanked(x.c, x.g) && Inside(x, st, s, calm) && DefaultSyms(ds) <= Mentioned(x.c.decls[s])
    ensures var r := FindDefault(x.c, st, ds);
      r.v == FirstDefault(ds, TrueEnv(x, s)) && (r.v.Some? ==> Syms(r.v.value.0) <= DefaultSyms(ds)) &&
      Own(x, st, r.st, s) && Inside(x, r.st, s, calm) && At(r.st, s) == At(st, s)
    decreases x.g.rank[s], 3, |ds|
  {
    if ds != [] {
      var r := CalcDep(x.c, st, ds[0].cond, YES);
      DepCorrect(x, st, s, ds[0].cond, YES, calm);
      if r.v == NO {
        FindDefaultCorrect(x, r.st, s, ds[1..], calm);
        OwnTrans(x, st, r.st, FindDefault(x.c, st, ds).st, s, calm);
      }
    }
  }

  // The parts of the outcome that the survey has put into the cell.
  ghost predicate IsSurveyed(x: Context, s: Sym, cell: Cell)
    requires WellRanked(x.c, x.g) && s in x.g.nodes
  {
    cell == Surveyed(x, s, cell)
  }

  lemma {:induction false} CalcDefaultCorrect(x: Context, st: State, s: Sym, calm: bool)
    requires WellRanked(x.c, x.g) && Inside(x, st, s, calm) && IsSurveyed(x, s, At(st, s))
    ensures var r := CalcDefault(x.c, st, s);
      var f := FirstDefault(x.c.decls[s].defaults, TrueEnv(x, s));
      r.v == DefaultIn(x.c.decls[s], At(st, s).implied, TrueEnv(x, s)) &&
      Own(x, st, r.st, s) && Inside(x, r.st, s, calm) &&
      At(r.st, s) == At(st, s).(write := At(st, s).write || f.Some? || At(st, s).implied != NO)
    decreases x.g.rank[s], 4
  {
    var c := x.c;
    var f := FindDefault(c, st, c.decls[s].defaults);
    FindDefaultCorrect(x, st, s, c.decls[s].defaults, calm);
    var d :=
      if f.v.None? then Result(f.st, NO)
      else
        var y := CalcExpr(c, Put(f.st, s, At(f.st, s).(write := true)), f.v.value.0);
        Result(y.st, Min(y.v, f.v.value.1));
    if f.v.Some? {
      var st1 := Put(f.st, s, At(f.st, s).(write := true));
      PutIsOwn(x, f.st, s, At(st1, s), calm);
      OwnTrans(x, st, f.st, st1, s, calm);
      DepCorrect(x, st1, s, Some(f.v.value.0), NO, calm);
      OwnTrans(x, st, st1, d.st, s, calm);
    }
    if At(d.st, s).implied != NO {
      var cell := At(d.st, s).(write := true);
      PutIsOwn(x, d.st, s, cell, calm);
      OwnTrans(x, st, d.st, Put(d.st, s, cell), s, calm);
    }
  }

  // The user's value counts.
  ghost predicate Mine(x: Context, s: Sym)
    requires WellRanked(x.c, x.g) && s in x.g.nodes
  {
    VisibleIn(x.c.decls[s], s, Mods(x), TrueEnv(x, s)) != NO && UserOf(x.users, s).has
  }

  lemma OwnRefl(x: Context, st: State, s: Sym, calm: bool)
    requires WellRanked(x.c, x.g) && Inside(x, st, s, calm)
    ensures Own(x, st, st, s)
  {
  }

  // The outcome of a bool or tristate in terms of its surveyed parts.
  lemma LogicalOutcome(x: Context, s: Sym)
    requires WellRanked(x.c, x.g) && s in x.g.nodes && IsLogical(s)
    ensures var d, env, mods := x.c.decls[s], TrueEnv(x, s), Mods(x);
      var visible, dirDep, revDep, implied :=
        VisibleIn(d, s, mods, env), DirDepIn(d, s, mods, env), RevDepIn(d, s, mods, env), ImpliedIn(d, s, mods, env);
      var v := if Mine(x, s) then Min(UserOf(x.users, s).tri, visible) else DefaultIn(d, implied, env);
      True(x, s).tri == Settle(s, mods, dirDep, revDep, implied, v) &&
      True(x, s).write == (!d.noWrite && (visible != NO || revDep != NO || FirstDefault(d.defaults, env).Some? || implied != NO))
  {
  }

  // The same for other types.
  lemma TextOutcome(x: Context, s: Sym)
    requires WellRanked(x.c, x.g) && s in x.g.nodes && !IsLogical(s) && !TypeOf(s).Unknown?
    ensures var d, env, mods := x.c.decls[s], TrueEnv(x, s), Mods(x);
      var visible, f := VisibleIn(d, s, mods, env), FirstDefault(d.defaults, env);
      True(x, s).str == (if Mine(x, s) then UserOf(x.users, s).str else DefaultText(d.defaults, env)) &&
      True(x, s).write == (!d.noWrite && (visible != NO || (f.Some? && f.value.0.Symbol?)))
  {
  }

  lemma {:induction false} CalcLogicalCorrect(x: Context, st: State, s: Sym, calm: bool)
    requires WellRanked(x.c, x.g) && Inside(x, st, s, calm) && IsSurveyed(x, s, At(st, s)) && IsLogical(s)
    requires At(st, s).write == (At(st, s).visible != NO)
    ensures var r := CalcLogical(x.c, st, s);
      var o := True(x, s);
      r.v == o.tri && Own(x, st, r.st, s) && Inside(x, r.st, s, calm) &&
      At(r.st, s) == At(st, s).(write := At(r.st, s).write) &&
      (!x.c.decls[s].noWrite ==> At(r.st, s).write == o.write)
    decreases x.g.rank[s], 5
  {
    hide Inside, Own, MaxPrompts, FirstDefault, Eval, CalcDefault, Syms, Step, WellRanked, True, TrueEnv, Mods;
    var cell := At(st, s);
    InsideFacts(x, st, s, calm);
    LogicalOutcome(x, s);
    BumpIsPromote(x, st, s, MOD, calm);
    if Mine(x, s) {
      OwnRefl(x, st, s, calm);
    } else {
      var st1 := if cell.revDep != NO then Put(st, s, cell.(write := true)) else st;
      if cell.revDep != NO {
        PutIsOwn(x, st, s, cell.(write := true), calm);
      }
      var y := CalcDefault(x.c, st1, s);
      CalcDefaultCorrect(x, st1, s, calm);
      BumpIsPromote(x, y.st, s, MOD, calm);
      if cell.revDep != NO {
        OwnTrans(x, st, st1, y.st, s, calm);
      }
    }
  }

  lemma {:induction false} CalcTextCorrect(x: Context, st: State, s: Sym, calm: bool)
    requires WellRanked(x.c, x.g) && Inside(x, st, s, calm) && IsSurveyed(x, s, At(st, s))
    requires !IsLogical(s) && !TypeOf(s).Unknown? && At(st, s).write == (At(st, s).visible != NO)
    ensures var r := CalcText(x.c, st, s);
      var o := True(x, s);
      r.v == o.str && Own(x, st, r.st, s) && Inside(x, r.st, s, calm) &&
      At(r.st, s) == At(st, s).(write := At(r.st, s).write) &&
      (!x.c.decls[s].noWrite ==> At(r.st, s).write == o.write)
    decreases x.g.rank[s], 5
  {
    hide Inside, Own, MaxPrompts, Eval, FindDefault, Step, WellRanked, True, Mods, DefaultSyms, Below;
    InsideFacts(x, st, s, calm);
    TextOutcome(x, s);
    if Mine(x, s) {
      OwnRefl(x, st, s, calm);
    } else {
      var f := FindDefault(x.c, st, x.c.decls[s].defaults);
      FindDefaultCorrect(x, st, s, x.c.decls[s].defaults, calm);
      if f.v.Some? && f.v.value.0.Symbol? {
        var ds := f.v.value.0.sym;
        var st1 := Put(f.st, s, At(f.st, s).(write := true));
        PutIsOwn(x, f.st, s, At(st1, s), calm);
        OwnTrans(x, st, f.st, st1, s, calm);
        InsideStart(x, st1, s, calm);
        MentionedBelow(x, s, {ds}, calm);
        CalcOperand(x, st1, ds, TrueEnv(x, s), x.g.rank[s], calm);
        KeptIsOwn(x, st1, CalcValue(x.c, st1, ds), s);
        OwnTrans(x, st, st1, CalcValue(x.c, st1, ds), s, calm);
        InsideStart(x, CalcValue(x.c, st1, ds), s, calm);
        DefaultTextCorrect(x, CalcValue(x.c, st1, ds), s, ds, calm);
      }
    }
  }

  // The recorded text of a default symbol.
  lemma {:induction false} DefaultTextCorrect(x: Context, st: State, s: Sym, ds: Sym, calm: bool)
    requires WellRanked(x.c, x.g) && s in x.g.nodes && Good(x, st, x.g.rank[s])
    requires Below(x, {ds}, TrueEnv(x, s), x.g.rank[s], calm)
    requires ds.Var? && ds in x.c.decls ==> At(st, ds).valid
    ensures Current(x.c, st, ds).str == if IsLogical(ds) then "n" else Lookup(TrueEnv(x, s), ds).str
  {
    assert ds in {ds};
    if ds.Var? && ds in x.c.decls {
      assert Records(st, ds, True(x, ds), x.cleared);
    }
  }

  lemma {:induction false} CalcCurrentCorrect(x: Context, st: State, s: Sym, calm: bool)
    requires WellRanked(x.c, x.g) && Inside(x, st, s, calm) && IsSurveyed(x, s, At(st, s))
    requires !TypeOf(s).Unknown? && At(st, s).write == (At(st, s).visible != NO)
    ensures var st' := CalcCurrent(x.c, st, s);
      var o := True(x, s);
      Own(x, st, st', s) && Inside(x, st', s, calm) && IsSurveyed(x, s, At(st', s)) &&
      At(st', s).curr == Val(o.tri, o.str) &&
      (!x.c.decls[s].noWrite ==> At(st', s).write == o.write)
    decreases x.g.rank[s], 6
  {
    if IsLogical(s) {
      var r := CalcLogical(x.c, st, s);
      CalcLogicalCorrect(x, st, s, calm);
      PutIsOwn(x, r.st, s, At(r.st, s).(curr := Val(r.v, "n"), chosen := None), calm);
      OwnTrans(x, st, r.st, CalcCurrent(x.c, st, s), s, calm);
    } else {
      var r := CalcText(x.c, st, s);
      CalcTextCorrect(x, st, s, calm);
      PutIsOwn(x, r.st, s, At(r.st, s).(curr := Val(NO, r.v)), calm);
      OwnTrans(x, st, r.st, CalcCurrent(x.c, st, s), s, calm);
    }
  }

  lemma SurveyedStays(x: Context, s: Sym, before: Cell, cell: Cell)
    requires WellRanked(x.c, x.g) && s in x.g.nodes
    requires cell == Surveyed(x, s, before).(write := cell.write, curr := cell.curr, chosen := cell.chosen)
    ensures IsSurveyed(x, s, cell)
  {
  }

  lemma {:induction false} CalcBodyCorrect(x: Context, st: State, s: Sym, calm: bool)
    requires WellRanked(x.c, x.g) && Inside(x, st, s, calm)
    ensures var st' := CalcBody(x.c, st, s);
      Own(x, st, st', s) && At(st', s).valid && Records(st', s, True(x, s), {})
    ensures s == x.c.modules ==> CalcBody(x.c, st, s).modulesVal == True(x, s).tri
    decreases x.g.rank[s], 8
  {
    if TypeOf(s).Unknown? {
      PutIsOwn(x, st, s, At(st, s).(curr := Unset(s)), calm);
    } else {
      InsideFacts(x, st, s, calm);
      hide Inside, Own, CalcVisibility, CalcCurrent, Finish, Surveyed, Step, WellRanked;
      var st0 := Put(st, s, At(st, s).(write := false));
      PutIsOwn(x, st, s, At(st0, s), calm);
      var st1 := CalcVisibility(x.c, st0, s);
      VisibilityCorrect(x, st0, s, calm);
      OwnTrans(x, st, st0, st1, s, calm);
      var st2 := Put(st1, s, At(st1, s).(write := At(st1, s).visible != NO, curr := Unset(s), chosen := None));
      PutIsOwn(x, st1, s, At(st2, s), calm);
      OwnTrans(x, st, st1, st2, s, calm);
      SurveyedStays(x, s, At(st0, s), At(st2, s));
      var st3 := CalcCurrent(x.c, st2, s);
      CalcCurrentCorrect(x, st2, s, calm);
      OwnTrans(x, st, st2, st3, s, calm);
      FinishCorrect(x, st, st3, s, calm);
    }
  }

  lemma SetModulesIsOwn(x: Context, st: State, s: Sym, v: Tri, calm: bool)
    requires WellRanked(x.c, x.g) && Inside(x, st, s, calm) && s == x.c.modules && v == Mods(x)
    ensures var st' := st.(modulesVal := v); Own(x, st, st', s) && Inside(x, st', s, calm)
  {
  }

  lemma {:induction false} FinishCorrect(x: Context, st: State, st3: State, s: Sym, calm: bool)
    requires WellRanked(x.c, x.g) && Inside(x, st, s, calm) && Inside(x, st3, s, calm) && Own(x, st, st3, s)
    requires IsSurveyed(x, s, At(st3, s)) && !TypeOf(s).Unknown?
    requires At(st3, s).curr == Val(True(x, s).tri, True(x, s).str)
    requires !x.c.decls[s].noWrite ==> At(st3, s).write == True(x, s).write
    ensures var st' := Finish(x.c, st3, s);
      Own(x, st, st', s) && At(st', s).valid && Records(st', s, True(x, s), {}) &&
      (s == x.c.modules ==> st'.modulesVal == True(x, s).tri)
  {
    InsideFacts(x, st3, s, calm);
    SurveyedOutcome(x, s, At(st3, s));
    var st4 := if s == x.c.modules then st3.(modulesVal := At(st3, s).curr.tri) else st3;
    if s == x.c.modules {
      ConeIgnoresModules(x.c, x.g, NO, Mods(x), x.users, s);
      SetModulesIsOwn(x, st3, s, At(st3, s).curr.tri, calm);
      OwnTrans(x, st, st3, st4, s, calm);
    }
    hide Inside, Own, Surveyed, True;
    if x.c.decls[s].noWrite {
      var cell := At(st4, s).(write := false);
      PutIsOwn(x, st4, s, cell, calm);
      OwnTrans(x, st, st4, Put(st4, s, cell), s, calm);
      assert Finish(x.c, st3, s) == Put(st4, s, cell);
    } else {
      assert Finish(x.c, st3, s) == st4;
    }
  }

  lemma SurveyedOutcome(x: Context, s: Sym, cell: Cell)
    requires WellRanked(x.c, x.g) && s in x.g.nodes && IsSurveyed(x, s, cell) && !TypeOf(s).Unknown?
    ensures var o := True(x, s);
      cell.visible == o.visible && cell.dirDep == o.dirDep && cell.revDep == o.revDep && cell.implied == o.implied &&
      (x.c.decls[s].noWrite ==> !o.write)
  {
  }

  lemma EnterIsInside(x: Context, st: State, s: Sym, r: nat, calm: bool)
    requires WellRanked(x.c, x.g) && Start(x, st, r, calm) && !At(st, s).valid
    requires s in x.g.nodes && x.g.rank[s] < r && (calm || s in x.g.cone)
    ensures Inside(x, SetValid(x.c, st, s), s, calm)
    ensures Ready(x, st) ==> s != x.c.modules && Ready(x, SetValid(x.c, st, s))
  {
  }

  lemma LeaveIsGood(x: Context, st: State, st': State, s: Sym, r: nat)
    requires WellRanked(x.c, x.g) && Good(x, st, r) && s in x.g.nodes && x.g.rank[s] < r && !At(st, s).valid
    requires Own(x, SetValid(x.c, st, s), st', s) && Records(st', s, True(x, s), {})
    ensures Good(x, st', r)
  {
    hide True, Ready, UsersAre;
    forall t | t in x.g.nodes && x.g.rank[t] < r && At(st', t).valid
      ensures Records(st', t, True(x, t), x.cleared)
    {
      if t != s && x.g.rank[t] >= x.g.rank[s] {
        assert At(st', t) == At(st, t);
      }
    }
  }

  lemma LeaveIsKept(x: Context, st: State, st': State, s: Sym, r: nat, calm: bool)
    requires WellRanked(x.c, x.g) && Start(x, st, r, calm) && s in x.g.nodes && x.g.rank[s] < r
    requires !At(st, s).valid
    requires Own(x, SetValid(x.c, st, s), st', s) && Records(st', s, True(x, s), {})
    requires Ready(x, st) ==> Ready(x, st')
    ensures Kept(x, st, st', r)
  {
    LeaveIsGood(x, st, st', s, r);
    hide Good, Ready, Records, True;
    var st1 := SetValid(x.c, st, s);
    assert forall t :: t != s ==> At(st1, t) == At(st, t);
  }

  /** Asking for a symbol gives it its true outcome and leaves everything of higher rank alone. */
  lemma {:induction false} CalcValueCorrect(x: Context, st: State, s: Sym, r: nat, calm: bool)
    requires WellRanked(x.c, x.g) && Start(x, st, r, calm)
    requires s in x.g.nodes && x.g.rank[s] < r && (calm || s in x.g.cone)
    ensures var st' := CalcValue(x.c, st, s);
      Kept(x, st, st', r) && At(st', s).valid && Records(st', s, True(x, s), x.cleared)
    ensures s == x.c.modules && !At(st, s).valid ==> Ready(x, CalcValue(x.c, st, s))
    decreases x.g.rank[s], 9
  {
    if At(st, s).valid {
    } else {
      var st1, st' := SetValid(x.c, st, s), CalcValue(x.c, st, s);
      EnterIsInside(x, st, s, r, calm);
      InsideFacts(x, st1, s, calm);
      CalcBodyCorrect(x, st1, s, calm);
      assert st' == CalcBody(x.c, st1, s);
      if s == x.c.modules {
        ConeIgnoresModules(x.c, x.g, NO, Mods(x), x.users, s);
      }
      LeaveIsKept(x, st, st', s, r, calm);
    }
  }
}
