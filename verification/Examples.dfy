// Configurations in which a value is lost or does not stick: modules are on, T is a tristate of
// value m, and S a tristate that T selects.
module Examples {
  import opened Tristate
  import opened Expr
  import opened Dups
  import opened Transform
  import opened Depends
  import opened Config
  import opened Meaning
  import opened Evaluation
  import opened Setting
  import opened Minimal
  import opened Declarations

  const MODULES: Sym := Var("MODULES", Boolean)
  const T: Sym := Var("T", Tri3)
  const S: Sym := Var("S", Tri3)

  // A symbol without a prompt and with one default.
  function Hidden(value: Sym): Decl {
    Decl([], [Default(None, Symbol(value))], None, None, None, Plain, false)
  }

  function Example(d: Decl): Config {
    Config(map[MODULES := Hidden(SYM_YES), T := Hidden(SYM_MOD), S := d], MODULES)
  }

  function ExampleGraph(): Graph {
    Graph({MODULES, T, S}, map[MODULES := 0, T := 1, S := 2], {MODULES})
  }

  function ExampleContext(d: Decl, users: Users): Context {
    Context(Example(d), ExampleGraph(), users, {})
  }

  predicate OnlyT(d: Decl) {
    Mentioned(d) <= {T, SYM_YES, SYM_MOD, SYM_NO} && d.role.Plain?
  }

  lemma HiddenMentions(value: Sym)
    ensures Mentioned(Hidden(value)) == {value}
  {
    var f := Default(None, Symbol(value));
    assert [f][1..] == [];
    assert DefaultSyms([f]) == DepSyms(f.cond) + Syms(f.value) + DefaultSyms([]);
  }

  lemma ExampleIsRanked(d: Decl)
    requires OnlyT(d)
    ensures WellRanked(Example(d), ExampleGraph())
    ensures Deps(Example(d), MODULES) == {} && Deps(Example(d), T) == {} && Deps(Example(d), S) <= {T}
  {
    HiddenMentions(SYM_YES);
    HiddenMentions(SYM_MOD);
    hide Mentioned;
  }

  // The outcome of a symbol without a prompt and with a constant default.
  lemma HiddenStep(s: Sym, value: Sym, mods: Tri, u: User, env: Env)
    requires IsLogical(s) && IsLetter(value)
    ensures Step(Hidden(value), s, mods, u, env) ==
      Outcome(NO, YES, NO, NO, Promote(s, mods, Lookup(env, value).tri), "n", true)
  {
    var d := Hidden(value);
    assert FirstDefault(d.defaults, env) == Some((Symbol(value), YES));
    assert MaxPrompts(d.prompts, env, NO) == NO;
    hide FirstDefault, MaxPrompts;
  }

  /** MODULES is y and T is m, whatever the user has set. */
  lemma ExampleValues(d: Decl, users: Users)
    requires OnlyT(d) && WellRanked(Example(d), ExampleGraph())
    ensures var x := ExampleContext(d, users);
      Mods(x) == YES && True(x, T).tri == MOD && True(x, MODULES).visible == True(x, T).visible == NO
  {
    ExampleIsRanked(d);
    var x := ExampleContext(d, users);
    HiddenStep(MODULES, SYM_YES, NO, UserOf(users, MODULES), EnvOf(x.c, x.g, NO, users, MODULES));
    HiddenStep(MODULES, SYM_YES, YES, UserOf(users, MODULES), EnvOf(x.c, x.g, YES, users, MODULES));
    HiddenStep(T, SYM_MOD, YES, UserOf(users, T), EnvOf(x.c, x.g, YES, users, T));
    hide Step;
  }

  lemma ExampleEnv(d: Decl, users: Users)
    requires OnlyT(d) && T in Mentioned(d) && WellRanked(Example(d), ExampleGraph())
    ensures Lookup(TrueEnv(ExampleContext(d, users), S), T).tri == MOD
  {
    ExampleIsRanked(d);
    ExampleValues(d, users);
    hide ValueOf, Mentioned, WellRanked;
    assert T in Deps(Example(d), S);
  }

  // ----- a value is lost -----

  // S has a prompt if T, is selected by T, and has the default y.
  function LosesValue(): Decl {
    Decl([Some(Symbol(T))], [Default(None, Symbol(SYM_YES))], None, Some(Symbol(T)), None, Plain, false)
  }

  /** The user has set S to n. It is m, as T selects it, and cannot be changed, as it shows no higher
      than it is selected; so it is not written, and after rereading it has its default y. */
  lemma ValueLost()
    ensures var x := ExampleContext(LosesValue(), map[S := User(true, NO, "", None)]);
      WellRanked(x.c, x.g) && Lost(x, S) && True(x, S).tri == MOD && True(Reread(x), S).tri == YES
  {
    var d, users := LosesValue(), map[S := User(true, NO, "", None)];
    var x := ExampleContext(d, users);
    LosesMentions();
    ExampleIsRanked(d);
    ExampleValues(d, users);
    ExampleEnv(d, users);
    LosesStep(YES, users[S], TrueEnv(x, S));
    assert Lost(x, S) && !Minimal.Written(x, S) by {
      assert FirstDefault(d.defaults, TrueEnv(x, S)) == Some((Symbol(SYM_YES), YES));
      hide FirstDefault, Step;
    }
    var y := Reread(x);
    assert y == ExampleContext(d, y.users);
    ExampleValues(d, y.users);
    ExampleEnv(d, y.users);
    assert UserOf(y.users, S) == FRESH.user;
    LosesStep(YES, FRESH.user, TrueEnv(y, S));
    hide Step, Lost, Minimal.Written;
  }

  lemma LosesMentions()
    ensures OnlyT(LosesValue()) && T in Mentioned(LosesValue())
  {
  }

  lemma LosesStep(mods: Tri, u: User, env: Env)
    requires mods == YES && Lookup(env, T).tri == MOD
    ensures var o := Step(LosesValue(), S, mods, u, env);
      o.visible == o.revDep == MOD && o.dirDep == YES && o.implied == NO &&
      o.tri == if u.has then Max(Min(u.tri, MOD), MOD) else YES
  {
    var d := LosesValue();
    assert FirstDefault(d.defaults, env) == Some((Symbol(SYM_YES), YES));
    assert MaxPrompts(d.prompts, env, NO) == Max(NO, EvalDep(d.prompts[0], env));
    hide FirstDefault, MaxPrompts;
  }

  // ----- a value does not stick -----

  /** S has two definitions, one with a prompt and without dependencies, the other one depending on n,
      and is selected by T. */
  function MixedSource(): Source {
    Source([Definition([], None, [None], []), Definition([], Some(Symbol(SYM_NO)), [], [])],
      [Selector(T, [], None, None)], [], Plain, false)
  }

  lemma MixedBases()
    ensures var src := MixedSource();
      Base(src.defs[0], MODULES, Simplified) == None && Base(src.defs[1], MODULES, Simplified) == Some(Symbol(SYM_NO))
  {
    var two := MixedSource().defs[1];
    assert Transform.Transform(RewriteM(Symbol(SYM_NO), MODULES)) == Symbol(SYM_NO);
    assert EliminateDups(Symbol(SYM_NO)) == Symbol(SYM_NO);
    assert PathDep(two.path, MODULES) == None;
  }

  lemma MixedPrompts()
    ensures var defs := MixedSource().defs;
      AllPrompts(defs, MODULES, true, Simplified) == [None] && AllDefaults(defs, MODULES, true, Simplified) == []
  {
    var defs := MixedSource().defs;
    MixedBases();
    hide Base;
    var none: Dep := None;
    assert defs[1..] == [defs[1]] && [defs[1]][1..] == [];
    assert [none][1..] == [];
    assert Prompts(none, [none], MODULES, true, Simplified) == [none];
    assert AllPrompts([], MODULES, true, Simplified) == [] && AllDefaults([], MODULES, true, Simplified) == [];
    assert Prompts(Base(defs[1], MODULES, Simplified), [], MODULES, true, Simplified) == [];
    assert Defaults(Base(defs[1], MODULES, Simplified), [], MODULES, true, Simplified) == [];
    assert Defaults(none, [], MODULES, true, Simplified) == [];
    assert AllPrompts([defs[1]], MODULES, true, Simplified) == [] && AllDefaults([defs[1]], MODULES, true, Simplified) == [];
  }

  lemma SelectedAlways()
    ensures SelectOf(MixedSource().selects[0], MODULES, Simplified) == (T, None)
  {
    assert PathDep([], MODULES) == None;
    assert Propagate(None, None, MODULES) == None;
  }

  lemma MixedDependency()
    ensures DirDepOf(Bases(MixedSource().defs, MODULES, Simplified)) == Some(Symbol(SYM_NO))
    ensures RevOf(Selects(MixedSource().selects, MODULES, Simplified)) == Some(Symbol(T))
    ensures RevOf(Selects(MixedSource().implies, MODULES, Simplified)) == None
  {
    MixedBases();
    hide Base;
    var none: Dep := None;
    var bases := Bases(MixedSource().defs, MODULES, Simplified);
    assert bases == [none, Some(Symbol(SYM_NO))];
    assert bases[..1] == [none] && [none][..0] == [];
    assert DirDepOf([none]) == None;
    SelectedAlways();
    var selects: seq<(Sym, Dep)> := [(T, none)];
    assert Selects(MixedSource().selects, MODULES, Simplified) == selects;
    assert selects[..0] == [];
    assert RevOf(selects) == AddSelect(None, T, None);
  }

  function MixedDecl(): Decl {
    Decl([None], [], Some(Symbol(SYM_NO)), Some(Symbol(T)), None, Plain, false)
  }

  /** The declaration that menu_finalize makes of it. */
  lemma MixedDeclares()
    ensures SourceOk(MixedSource()) && Mixed(MixedSource(), MODULES)
    ensures Declare(MixedSource(), S, MODULES, Simplified) == MixedDecl()
  {
    MixedBases();
    MixedPrompts();
    MixedDependency();
    var defs := MixedSource().defs;
    assert defs[0] in defs && defs[1] in defs;
    hide Base, AllPrompts, AllDefaults, DirDepOf, RevOf, Selects;
  }

  lemma MixedMentions()
    ensures OnlyT(MixedDecl()) && T in Mentioned(MixedDecl())
  {
  }

  lemma MixedStep(mods: Tri, u: User, env: Env)
    requires mods == YES && Lookup(env, T).tri == MOD
    ensures var o := Step(MixedDecl(), S, mods, u, env);
      o.visible == YES && o.dirDep == NO && o.revDep == MOD && o.implied == NO && o.tri == NO
  {
    var d := MixedDecl();
    assert MaxPrompts(d.prompts, env, NO) == Max(NO, EvalDep(d.prompts[0], env));
    hide FirstDefault, MaxPrompts;
  }

  // S evaluated from scratch.
  function MixedState(): State {
    CalcValue(Example(MixedDecl()), ClearAllValid(Example(MixedDecl()), State(map[], NO)), S)
  }

  lemma MixedTruth()
    ensures var x := ExampleContext(MixedDecl(), map[]);
      WellRanked(x.c, x.g) && True(x, S).visible == YES && True(x, S).dirDep == NO && True(x, S).revDep == MOD &&
      True(x, S).implied == NO && Mods(x) == YES
  {
    var d := MixedDecl();
    var x := ExampleContext(d, map[]);
    MixedMentions();
    ExampleIsRanked(d);
    ExampleValues(d, map[]);
    ExampleEnv(d, map[]);
    MixedStep(YES, FRESH.user, TrueEnv(x, S));
    hide Step, OnlyT, Mentioned, WellRanked;
  }

  lemma MixedCell()
    ensures var x, cell := ExampleContext(MixedDecl(), map[]), At(MixedState(), S);
      WellRanked(x.c, x.g) && Sound(x, MixedState()) && cell.valid &&
      cell.visible == YES && cell.dirDep == NO && cell.revDep == MOD && cell.implied == NO
  {
    var x := ExampleContext(MixedDecl(), map[]);
    var st0 := State(map[], NO);
    assert UsersAre(x.g, st0, x.users) && Wired(x.c, st0);
    MixedTruth();
    hide WellRanked, True, Example, Step;
    ClearIsSound(x, st0);
    AskIsSound(x, ClearAllValid(x.c, st0), S);
    hide ClearAllValid, CalcValue, Sound;
  }

  /** S shows, and y is in range for it; but after it was set to y it is not y, as the dependency of its
      second definition makes up all of its direct dependency. And its default is said to be m where
      without a user value it is n. */
  lemma SettingDoesNotStick()
    ensures var x, st := ExampleContext(MixedDecl(), map[]), MixedState();
      WellRanked(x.c, x.g) && Sound(x, st) && WithinRange(x.c, st, S, YES)
    ensures var x, st := ExampleContext(MixedDecl(), map[]), MixedState();
      At(CalcValue(x.c, ClearAllValid(x.c, SetTristate(x.c, st, S, YES).st), S), S).curr.tri != YES
    ensures var x := ExampleContext(MixedDecl(), map[]);
      DefaultString(x, S) != TextOf(S, WithoutUser(x, S))
  {
    var x, st := ExampleContext(MixedDecl(), map[]), MixedState();
    MixedCell();
    MixedTruth();
    assert WithinRange(x.c, st, S, YES) by {
      hide WellRanked, Sound, True, MixedState;
    }
    hide WellRanked, Sound, True, MixedState, WithinRange, Example;
    SettingSticks(x, st, S, YES);
    StringDefaultIsDefault(x, S);
  }

  // ----- setting the value a symbol has -----

  // S has a prompt if T and the default y.
  function HighDefault(): Decl {
    Decl([Some(Symbol(T))], [Default(None, Symbol(SYM_YES))], None, None, None, Plain, false)
  }

  lemma HighMentions()
    ensures OnlyT(HighDefault()) && T in Mentioned(HighDefault())
  {
  }

  lemma HighStep(mods: Tri, u: User, env: Env)
    requires mods == YES && Lookup(env, T).tri == MOD && !u.has
    ensures var o := Step(HighDefault(), S, mods, u, env);
      o.visible == MOD && o.revDep == NO && o.dirDep == YES && o.implied == NO && o.tri == YES
  {
    var d := HighDefault();
    assert FirstDefault(d.defaults, env) == Some((Symbol(SYM_YES), YES));
    assert MaxPrompts(d.prompts, env, NO) == Max(NO, EvalDep(d.prompts[0], env));
    hide FirstDefault, MaxPrompts;
  }

  // S evaluated from scratch.
  function HighState(): State {
    CalcValue(Example(HighDefault()), ClearAllValid(Example(HighDefault()), State(map[], NO)), S)
  }

  lemma HighCell()
    ensures var x, cell := ExampleContext(HighDefault(), map[]), At(HighState(), S);
      WellRanked(x.c, x.g) && Sound(x, HighState()) && cell.valid &&
      cell.visible == MOD && cell.revDep == NO && cell.implied == NO && cell.curr.tri == YES
  {
    var x := ExampleContext(HighDefault(), map[]);
    var st0 := State(map[], NO);
    assert UsersAre(x.g, st0, x.users) && Wired(x.c, st0);
    HighMentions();
    ExampleIsRanked(HighDefault());
    ExampleValues(HighDefault(), map[]);
    ExampleEnv(HighDefault(), map[]);
    HighStep(YES, FRESH.user, TrueEnv(x, S));
    hide WellRanked, True, Example, Step;
    ClearIsSound(x, st0);
    AskIsSound(x, ClearAllValid(x.c, st0), S);
    hide ClearAllValid, CalcValue, Sound;
  }

  /** S is y by default and shows as m. Setting it to y, as it already is, succeeds, and afterwards it is
      not y. */
  lemma SettingTheSameChanges()
    ensures var x, st := ExampleContext(HighDefault(), map[]), HighState();
      At(st, S).curr.tri == YES && SetTristate(x.c, st, S, YES).v &&
      At(CalcValue(x.c, ClearAllValid(x.c, SetTristate(x.c, st, S, YES).st), S), S).curr.tri != YES
  {
    HighCell();
    hide HighState, WellRanked, Sound, SetTristate, CalcValue, ClearAllValid;
    SettingAgain(ExampleContext(HighDefault(), map[]), HighState(), S);
  }
}
