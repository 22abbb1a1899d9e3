// Minimal configurations: which values conf_write_defconfig may leave out (sym_get_string_default
// and sym_is_changeable of symbol.c, the conditions of conf_write_defconfig of confdata.c).
module Minimal {
  import opened Tristate
  import opened Expr
  import opened Config
  import opened Meaning
  import opened Evaluation

  // ----- the default value -----

  // How select, the type and imply change a value found by sym_get_string_default.
  function Adjust(s: Sym, member: bool, modules: Tri, revDep: Tri, implied: Tri, v: Tri): Tri {
    var w := Max(v, revDep);
    var w1 := if w == MOD && !member && modules == NO then YES else w;
    var w2 := if TypeOf(s).Boolean? && w1 == MOD then YES else w1;
    if w2 < implied then implied else w2
  }

  /** sym_get_string_default. */
  function StringDefault(c: Config, st: State, s: Sym): Result<string>
    requires s in c.decls
  {
    var st1 := CalcValue(c, CalcVisibility(c, st, s), c.modules);
    var f := FindDefault(c, st1, c.decls[s].defaults);
    if IsLogical(s) then
      var v := if f.v.None? then Result(f.st, NO) else CalcExpr(c, f.st, f.v.value.0);
      var w := if f.v.None? then NO else Min(v.v, f.v.value.1);
      var mods := Current(c, v.st, c.modules).tri;
      Result(v.st, Letter(Adjust(s, c.decls[s].role.Member?, mods, At(v.st, s).revDep, At(v.st, s).implied, w)))
    else if TypeOf(s).Unknown? || f.v.None? || !f.v.value.0.Symbol? then Result(f.st, "")
    else
      var st2 := CalcValue(c, f.st, f.v.value.0.sym);
      Result(st2, Current(c, st2, f.v.value.0.sym).str)
  }

  /** The text it finds in a sound state. */
  ghost function DefaultString(x: Context, s: Sym): string
    requires WellRanked(x.c, x.g) && s in x.g.nodes
  {
    var d, env, o := x.c.decls[s], TrueEnv(x, s), True(x, s);
    if IsLogical(s) then Letter(Adjust(s, false, Mods(x), o.revDep, o.implied, DefaultIn(d, NO, env)))
    else if TypeOf(s).Unknown? then ""
    else DefaultText(d.defaults, env)
  }

  /** The outcome s would have without a user value. */
  ghost function WithoutUser(x: Context, s: Sym): Outcome
    requires WellRanked(x.c, x.g) && s in x.g.nodes
  {
    Step(x.c.decls[s], s, Mods(x), FRESH.user, TrueEnv(x, s))
  }

  ghost function TextOf(s: Sym, o: Outcome): string {
    if IsLogical(s) then Letter(o.tri) else o.str
  }

  // Facts about the surveyed parts of an outcome.
  lemma {:induction false} SurveyFacts(x: Context, s: Sym)
    requires WellRanked(x.c, x.g) && s in x.g.nodes && IsLogical(s)
    ensures var o := True(x, s);
      (BoolLike(s, Mods(x)) ==> o.visible != MOD && o.dirDep != MOD && o.revDep != MOD && o.implied != MOD) &&
      (o.visible == MOD ==> TypeOf(s).Tri3? && Mods(x) != NO) &&
      (o.visible != NO && !x.c.decls[s].noWrite ==> o.write)
  {
  }

  /** sym_get_string_default is what sym_calc_value computes without a user value, exactly when the
      direct dependencies are met or nothing selects the symbol. */
  lemma {:induction false} StringDefaultIsDefault(x: Context, s: Sym)
    requires WellRanked(x.c, x.g) && s in x.g.nodes && IsLogical(s)
    ensures DefaultString(x, s) == TextOf(s, WithoutUser(x, s))
            <==> True(x, s).dirDep != NO || True(x, s).revDep == NO
  {
    var d, env, o := x.c.decls[s], TrueEnv(x, s), True(x, s);
    SurveyFacts(x, s);
    hide WellRanked, MaxPrompts, FirstDefault, Eval;
    var v := DefaultIn(d, NO, env);
    assert DefaultIn(d, o.implied, env) == Max(v, o.implied);
    assert WithoutUser(x, s).tri == Settle(s, Mods(x), o.dirDep, o.revDep, o.implied, Max(v, o.implied));
  }

  // ----- what is written -----

  /** conf_write_defconfig writes a symbol that is marked to be written, can be changed, and differs
      from its default. */
  ghost predicate Written(x: Context, s: Sym)
    requires WellRanked(x.c, x.g) && s in x.g.nodes
  {
    var o := True(x, s);
    o.write && o.visible > o.revDep && TextOf(s, o) != DefaultString(x, s)
  }

  /** The user value that reading the written line gives. */
  ghost function ReadBack(x: Context, s: Sym): User
    requires WellRanked(x.c, x.g) && s in x.g.nodes
  {
    if !Written(x, s) || TypeOf(s).Unknown? then FRESH.user
    else if IsLogical(s) then User(true, True(x, s).tri, "", None)
    else User(true, NO, True(x, s).str, None)
  }

  /** The user has given a value that is not written although it matters: without it the symbol has
      another value. Either the symbol is never written, and what the user set differs from the default
      by more than its selects level out; or it cannot be changed, which for a bool or tristate takes a
      visibility and a select of m, and a default of y. */
  ghost predicate Lost(x: Context, s: Sym)
    requires WellRanked(x.c, x.g) && s in x.g.nodes
  {
    var d, env, o := x.c.decls[s], TrueEnv(x, s), True(x, s);
    var u := UserOf(x.users, s);
    u.has && !TypeOf(s).Unknown? &&
    if IsLogical(s) && d.noWrite then
      var mine, default := Min(u.tri, o.visible), Max(DefaultIn(d, NO, env), o.implied);
      o.visible != NO && (o.dirDep != NO || o.revDep == NO) &&
      if BoolLike(s, Mods(x)) || o.implied == YES then o.revDep == NO && (mine == NO) != (default == NO)
      else Max(mine, o.revDep) != Max(default, o.revDep)
    else if IsLogical(s) then
      o.visible == MOD && o.revDep == MOD && o.dirDep != NO && o.implied != YES && DefaultIn(d, NO, env) == YES
    else
      o.visible != NO && (d.noWrite || o.visible <= o.revDep) && u.str != DefaultText(d.defaults, env)
  }

  predicate SameValue(a: Outcome, b: Outcome) {
    a.tri == b.tri && a.str == b.str
  }

  lemma {:induction false} LogicalReadBack(x: Context, s: Sym)
    requires WellRanked(x.c, x.g) && s in x.g.nodes && IsLogical(s)
    ensures SameValue(Step(x.c.decls[s], s, Mods(x), ReadBack(x, s), TrueEnv(x, s)), True(x, s)) <==> !Lost(x, s)
  {
    var d, env, o, mods := x.c.decls[s], TrueEnv(x, s), True(x, s), Mods(x);
    var u := UserOf(x.users, s);
    SurveyFacts(x, s);
    StringDefaultIsDefault(x, s);
    hide WellRanked, MaxPrompts, FirstDefault, Eval;
    var v := DefaultIn(d, NO, env);
    assert DefaultIn(d, o.implied, env) == Max(v, o.implied);
    var n := Settle(s, mods, o.dirDep, o.revDep, o.implied, Max(v, o.implied));
    assert WithoutUser(x, s).tri == n;
    assert o.tri == if o.visible != NO && u.has
      then Settle(s, mods, o.dirDep, o.revDep, o.implied, Min(u.tri, o.visible)) else n;
    LettersDiffer(o.tri, n);
    LettersDiffer(o.tri, Adjust(s, false, mods, o.revDep, o.implied, v));
    var r := Step(d, s, mods, ReadBack(x, s), env);
    assert r.tri == if Written(x, s)
      then Settle(s, mods, o.dirDep, o.revDep, o.implied, Min(o.tri, o.visible)) else n;
    if !d.noWrite {
      ReadBackArithmetic(s, mods, o, u, v);
    }
  }

  lemma LettersDiffer(a: Tri, b: Tri)
    ensures Letter(a) == Letter(b) <==> a == b
  {
  }

  // The case analysis behind LogicalReadBack, on values alone.
  lemma ReadBackArithmetic(s: Sym, mods: Tri, o: Outcome, u: User, v: Tri)
    requires IsLogical(s)
    requires BoolLike(s, mods) ==> o.visible != MOD && o.dirDep != MOD && o.revDep != MOD && o.implied != MOD
    requires o.visible == MOD ==> TypeOf(s).Tri3? && mods != NO
    requires var n := Settle(s, mods, o.dirDep, o.revDep, o.implied, Max(v, o.implied));
      o.tri == if o.visible != NO && u.has
        then Settle(s, mods, o.dirDep, o.revDep, o.implied, Min(u.tri, o.visible)) else n
    ensures var n := Settle(s, mods, o.dirDep, o.revDep, o.implied, Max(v, o.implied));
      var written := o.visible > o.revDep && o.tri != Adjust(s, false, mods, o.revDep, o.implied, v);
      var r := if written then Settle(s, mods, o.dirDep, o.revDep, o.implied, Min(o.tri, o.visible)) else n;
      r == o.tri <==>
        !(u.has && o.visible == MOD && o.revDep == MOD && o.dirDep != NO && o.implied != YES && v == YES)
  {
  }

  lemma {:induction false} TextReadBack(x: Context, s: Sym)
    requires WellRanked(x.c, x.g) && s in x.g.nodes && !IsLogical(s)
    ensures SameValue(Step(x.c.decls[s], s, Mods(x), ReadBack(x, s), TrueEnv(x, s)), True(x, s)) <==> !Lost(x, s)
  {
    hide WellRanked, MaxPrompts, FirstDefault, Eval;
  }

  // ----- reading back into a state without user values -----

  ghost function AllReadBack(x: Context): Users
    requires WellRanked(x.c, x.g)
  {
    map s | s in x.g.nodes :: ReadBack(x, s)
  }

  ghost function Reread(x: Context): Context
    requires WellRanked(x.c, x.g)
  {
    x.(users := AllReadBack(x))
  }

  // With the symbols below s preserved, s is preserved exactly when it is not lost.
  lemma {:induction false} OnePreserved(x: Context, s: Sym)
    requires WellRanked(x.c, x.g) && s in x.g.nodes
    requires forall t <- Deps(x.c, s) :: SameValue(ValueOf(x.c, x.g, Mods(x), AllReadBack(x), t), True(x, t))
    ensures SameValue(ValueOf(x.c, x.g, Mods(x), AllReadBack(x), s), True(x, s)) <==> !Lost(x, s)
  {
    hide Step, Lost, ReadBack;
    assert EnvOf(x.c, x.g, Mods(x), AllReadBack(x), s) == TrueEnv(x, s);
    assert UserOf(AllReadBack(x), s) == ReadBack(x, s);
    if IsLogical(s) {
      LogicalReadBack(x, s);
    } else {
      TextReadBack(x, s);
    }
  }

  lemma {:induction false} NothingLost(x: Context, s: Sym)
    requires WellRanked(x.c, x.g) && s in x.g.nodes
    requires forall t <- x.g.nodes :: !Lost(x, t)
    ensures SameValue(ValueOf(x.c, x.g, Mods(x), AllReadBack(x), s), True(x, s))
    decreases x.g.rank[s]
  {
    hide Step, Lost, ReadBack, ValueOf, SameValue, True, AllReadBack;
    forall t | t in Deps(x.c, s)
      ensures SameValue(ValueOf(x.c, x.g, Mods(x), AllReadBack(x), t), True(x, t))
    {
      NothingLost(x, t);
    }
    OnePreserved(x, s);
  }

  // The value of modules is the outcome of its symbol.
  lemma ModulesOutcome(x: Context)
    requires WellRanked(x.c, x.g) && x.c.modules in x.g.nodes
    ensures Mods(x) == True(x, x.c.modules).tri
  {
    ConeIgnoresModules(x.c, x.g, NO, Mods(x), x.users, x.c.modules);
  }

  lemma SameModules(x: Context)
    requires WellRanked(x.c, x.g)
    requires x.c.modules in x.g.nodes ==>
      SameValue(ValueOf(x.c, x.g, Mods(x), AllReadBack(x), x.c.modules), True(x, x.c.modules)) ||
      SameValue(True(Reread(x), x.c.modules), True(x, x.c.modules))
    ensures Mods(Reread(x)) == Mods(x)
  {
    if x.c.modules in x.g.nodes {
      ModulesOutcome(x);
      ModulesOutcome(Reread(x));
      ConeIgnoresModules(x.c, x.g, Mods(x), Mods(Reread(x)), AllReadBack(x), x.c.modules);
    }
  }

  lemma DepsAreNodes(x: Context, s: Sym)
    requires WellRanked(x.c, x.g) && s in x.g.nodes
    ensures s in x.c.decls && Deps(x.c, s) <= x.g.nodes
  {
  }

  /** A minimal configuration loses nothing, that is, reading it into a state without user values
      gives every symbol its original value, exactly when no symbol is lost. */
  lemma {:induction false} MinimalLosesNothing(x: Context)
    requires WellRanked(x.c, x.g)
    ensures (forall s <- x.g.nodes :: SameValue(True(Reread(x), s), True(x, s))) <==>
            (forall s <- x.g.nodes :: !Lost(x, s))
  {
    hide Step, Lost, ReadBack, ValueOf, WellRanked;
    if forall s <- x.g.nodes :: !Lost(x, s) {
      forall s | s in x.g.nodes
        ensures SameValue(ValueOf(x.c, x.g, Mods(x), AllReadBack(x), s), True(x, s))
      {
        NothingLost(x, s);
      }
      SameModules(x);
    } else if forall s <- x.g.nodes :: SameValue(True(Reread(x), s), True(x, s)) {
      SameModules(x);
      var s :| s in x.g.nodes && Lost(x, s);
      DepsAreNodes(x, s);
      OnePreserved(x, s);
    }
  }

  /** Among bools only those that are never written can be lost. */
  lemma {:induction false} BoolsAreNeverLost(x: Context)
    requires WellRanked(x.c, x.g) && forall s <- x.g.nodes :: TypeOf(s).Boolean?
    ensures forall s <- x.g.nodes :: Lost(x, s) ==> x.c.decls[s].noWrite
    ensures (forall s <- x.g.nodes :: !x.c.decls[s].noWrite) ==>
      forall s <- x.g.nodes :: SameValue(True(Reread(x), s), True(x, s))
  {
    forall s | s in x.g.nodes ensures Lost(x, s) ==> x.c.decls[s].noWrite {
      SurveyFacts(x, s);
    }
    MinimalLosesNothing(x);
  }
}
