// Changing user values (sym_clear_all_valid, sym_tristate_within_range and sym_set_tristate_value
// of symbol.c), and what the evaluation makes of them.
module Setting {
  import opened Tristate
  import opened Expr
  import opened Config
  import opened Meaning
  import opened Evaluation

  function Invalidate(st: State): State {
    st.(cells := map s | s in st.cells :: st.cells[s].(valid := false))
  }

  /** sym_clear_all_valid. */
  function ClearAllValid(c: Config, st: State): State {
    CalcValue(c, Invalidate(st), c.modules)
  }

  /** Nothing is cached that is not true, and the value of modules is known. */
  ghost predicate Sound(x: Context, st: State)
    requires WellRanked(x.c, x.g)
  {
    UsersAre(x.g, st, x.users) && Ready(x, st) &&
    forall s <- x.g.nodes :: At(st, s).valid ==> Records(st, s, True(x, s), x.cleared)
  }

  // Without a symbol for it, modules_val keeps the value of the constant that stands for it.
  predicate Wired(c: Config, st: State) {
    (c.modules.Var? && c.modules in c.decls) || st.modulesVal == Lookup(map[], c.modules).tri
  }

  /** After sym_clear_all_valid the state is sound, whatever was cached before. */
  lemma {:induction false} ClearIsSound(x: Context, st: State)
    requires WellRanked(x.c, x.g) && UsersAre(x.g, st, x.users) && Wired(x.c, st)
    ensures Sound(x, ClearAllValid(x.c, st))
  {
    var st0 := Invalidate(st);
    var m := x.c.modules;
    if m.Var? && m in x.c.decls {
      CalcValueCorrect(x, st0, m, x.g.rank[m] + 1, false);
      var st' := ClearAllValid(x.c, st);
      forall s | s in x.g.nodes && At(st', s).valid ensures Records(st', s, True(x, s), x.cleared) {
        assert x.g.rank[s] >= x.g.rank[m] + 1 ==> At(st', s) == At(st0, s);
      }
    }
  }

  /** In a sound state every symbol that is asked for gets its true outcome. */
  lemma {:induction false} AskIsSound(x: Context, st: State, s: Sym)
    requires WellRanked(x.c, x.g) && Sound(x, st) && s in x.g.nodes
    ensures var st' := CalcValue(x.c, st, s);
      Sound(x, st') && At(st', s).valid && Records(st', s, True(x, s), x.cleared) &&
      (forall t <- x.g.nodes :: At(st, t).valid ==> At(st', t) == At(st, t))
  {
    var r := x.g.rank[s] + 1;
    CalcValueCorrect(x, st, s, r, true);
    var st' := CalcValue(x.c, st, s);
    forall t | t in x.g.nodes && At(st', t).valid ensures Records(st', t, True(x, t), x.cleared) {
      assert x.g.rank[t] >= r ==> At(st', t) == At(st, t);
    }
  }

  function AskAll(c: Config, st: State, order: seq<Sym>): State
    decreases |order|
  {
    if order == [] then st else AskAll(c, CalcValue(c, st, order[0]), order[1..])
  }

  lemma {:induction false} AskAllIsSound(x: Context, st: State, order: seq<Sym>)
    requires WellRanked(x.c, x.g) && Sound(x, st) && forall s <- order :: s in x.g.nodes
    ensures var st' := AskAll(x.c, st, order);
      Sound(x, st') && (forall s <- order :: At(st', s).valid && Records(st', s, True(x, s), x.cleared)) &&
      (forall t <- x.g.nodes :: At(st, t).valid ==> At(st', t) == At(st, t))
    decreases |order|
  {
    if order != [] {
      var st1 := CalcValue(x.c, st, order[0]);
      AskIsSound(x, st, order[0]);
      hide CalcValue, Ready, UsersAre, Records, WellRanked;
      assert forall s <- order[1..] :: s in order;
      AskAllIsSound(x, st1, order[1..]);
    }
  }

  // ----- any change of user values -----

  function ChangeUser(st: State, changes: seq<(Sym, User)>): State
    decreases |changes|
  {
    if changes == [] then st
    else ChangeUser(Put(st, changes[0].0, At(st, changes[0].0).(user := changes[0].1)), changes[1..])
  }

  function UsersAfter(users: Users, changes: seq<(Sym, User)>): Users
    decreases |changes|
  {
    if changes == [] then users else UsersAfter(users[changes[0].0 := changes[0].1], changes[1..])
  }

  lemma {:induction false} ChangeUserTracks(x: Context, st: State, changes: seq<(Sym, User)>)
    requires UsersAre(x.g, st, x.users)
    ensures UsersAre(x.g, ChangeUser(st, changes), UsersAfter(x.users, changes))
    ensures ChangeUser(st, changes).modulesVal == st.modulesVal
    decreases |changes|
  {
    if changes != [] {
      var (s, u) := changes[0];
      var st1 := Put(st, s, At(st, s).(user := u));
      ChangeUserTracks(x.(users := x.users[s := u]), st1, changes[1..]);
    }
  }

  /** Whatever the order in which symbols are asked for, and whatever user values were changed
      before sym_clear_all_valid, the cache gives the values of the recursive definition. */
  lemma {:induction false} CacheIsTransparent(x: Context, st: State, changes: seq<(Sym, User)>, order: seq<Sym>)
    requires WellRanked(x.c, x.g) && UsersAre(x.g, st, x.users) && Wired(x.c, st)
    requires forall s <- order :: s in x.g.nodes
    ensures var x' := x.(users := UsersAfter(x.users, changes));
      var st' := AskAll(x.c, ClearAllValid(x.c, ChangeUser(st, changes)), order);
      forall s <- order :: Records(st', s, ValueOf(x.c, x.g, Modules(x.c, x.g, x'.users), x'.users, s), x.cleared)
  {
    var x' := x.(users := UsersAfter(x.users, changes));
    ChangeUserTracks(x, st, changes);
    ClearIsSound(x', ChangeUser(st, changes));
    AskAllIsSound(x', ClearAllValid(x.c, ChangeUser(st, changes)), order);
  }

  // ----- setting a value -----

  /** sym_tristate_within_range. */
  predicate WithinRange(c: Config, st: State, s: Sym, v: Tri) {
    var cell := At(st, s);
    if cell.visible == NO || !IsLogical(s) then false
    else if IsBoolNow(c, st, s) && v == MOD then false
    else if cell.visible <= cell.revDep then false
    else if cell.implied == YES && v == MOD then false
    else if s in c.decls && c.decls[s].role.Member? && cell.visible == YES then v == YES
    else cell.revDep <= v <= cell.visible
  }

  // The members of a choice that are visible get a user value, and the choice records the pick.
  function MarkMembers(st: State, members: seq<Sym>): State
    decreases |members|
  {
    if members == [] then st
    else
      var cell := At(st, members[0]);
      MarkMembers(if cell.visible != NO then Put(st, members[0], cell.(user := cell.user.(has := true))) else st,
        members[1..])
  }

  function PickMember(c: Config, st: State, s: Sym): State {
    if s in c.decls && c.decls[s].role.Member? then
      var cs := c.decls[s].role.choice;
      var st1 := Put(st, cs, At(st, cs).(user := At(st, cs).user.(pick := Some(s), has := true)));
      if cs in c.decls && c.decls[cs].role.Choice? then MarkMembers(st1, c.decls[cs].role.members) else st1
    else st
  }

  /** sym_set_tristate_value. */
  function SetTristate(c: Config, st: State, s: Sym, v: Tri): Result<bool> {
    var before := At(st, s).curr.tri;
    if before != v && !WithinRange(c, st, s, v) then Result(st, false)
    else
      var st1 := Put(st, s, At(st, s).(user := At(st, s).user.(has := true)));
      var st2 := if v == YES then PickMember(c, st1, s) else st1;
      var st3 := Put(st2, s, At(st2, s).(user := At(st2, s).user.(tri := v)));
      Result(if before != v then ClearAllValid(c, st3) else st3, true)
  }

  // The user value of s does not matter to symbols of lower rank.
  lemma {:induction false} LowerUnaffected(c: Config, g: Graph, mods: Tri, users: Users, s: Sym, u: User, t: Sym)
    requires WellRanked(c, g) && s in g.nodes && t in g.nodes && (g.rank[t] < g.rank[s] || (t in g.cone && s !in g.cone))
    ensures ValueOf(c, g, mods, users[s := u], t) == ValueOf(c, g, mods, users, t)
    decreases g.rank[t]
  {
    forall d | d in Deps(c, t)
      ensures ValueOf(c, g, mods, users[s := u], d) == ValueOf(c, g, mods, users, d)
    {
      LowerUnaffected(c, g, mods, users, s, u, d);
    }
    assert EnvOf(c, g, mods, users[s := u], t) == EnvOf(c, g, mods, users, t);
  }

  // Changing the user value of s leaves what s depends on as it was, and with it all of the outcome
  // of s except its value.
  lemma {:induction false} OwnUserOnly(x: Context, s: Sym, u: User)
    requires WellRanked(x.c, x.g) && s in x.g.nodes
    ensures var x' := x.(users := x.users[s := u]);
      True(x', s) == Step(x.c.decls[s], s, Mods(x), u, TrueEnv(x, s))
  {
    var x' := x.(users := x.users[s := u]);
    var m := x.c.modules;
    if s in x.g.cone {
      ConeIgnoresModules(x.c, x.g, Mods(x'), Mods(x), x'.users, s);
    } else if m in x.g.nodes {
      LowerUnaffected(x.c, x.g, NO, x.users, s, u, m);
    }
    forall t | t in Deps(x.c, s)
      ensures ValueOf(x.c, x.g, Mods(x), x'.users, t) == True(x, t)
    {
      LowerUnaffected(x.c, x.g, Mods(x), x.users, s, u, t);
    }
    assert EnvOf(x.c, x.g, Mods(x), x'.users, s) == TrueEnv(x, s);
  }

  // The new value of a symbol whose user value was set within range.
  lemma InRangeStep(x: Context, st: State, s: Sym, v: Tri, u: User)
    requires WellRanked(x.c, x.g) && Sound(x, st) && s in x.g.nodes && IsLogical(s) && At(st, s).valid
    requires WithinRange(x.c, st, s, v) && u.has && u.tri == v
    ensures Step(x.c.decls[s], s, Mods(x), u, TrueEnv(x, s)).tri == v
            <==> At(st, s).dirDep != NO || At(st, s).revDep == NO
  {
    var d, env, mods := x.c.decls[s], TrueEnv(x, s), Mods(x);
    assert Records(st, s, True(x, s), x.cleared);
    var o := True(x, s);
    hide FirstDefault, MaxPrompts, Eval, WellRanked;
    assert o.visible == VisibleIn(d, s, mods, env) && o.dirDep == DirDepIn(d, s, mods, env) &&
           o.revDep == RevDepIn(d, s, mods, env) && o.implied == ImpliedIn(d, s, mods, env);
    assert Step(d, s, mods, u, env).tri == Settle(s, mods, o.dirDep, o.revDep, o.implied, Min(v, o.visible));
  }

  /** What a symbol with the user value v is worth. */
  ghost function Tried(x: Context, s: Sym, v: Tri): Tri
    requires WellRanked(x.c, x.g) && s in x.g.nodes
  {
    Step(x.c.decls[s], s, Mods(x), User(true, v, "", None), TrueEnv(x, s)).tri
  }

  /** sym_tristate_within_range accepts the values that the symbol can be set to: those that do not
      exceed its visibility and come out of the evaluation as they went in. It accepts none where a
      select already forces what is visible, and there no user value makes a difference. */
  lemma WithinRangeIsExact(x: Context, st: State, s: Sym, v: Tri)
    requires WellRanked(x.c, x.g) && Sound(x, st) && s in x.g.nodes && IsLogical(s) && At(st, s).valid
    requires At(st, s).dirDep != NO || At(st, s).revDep == NO
    ensures var cell := At(st, s);
      WithinRange(x.c, st, s, v) <==> cell.visible > cell.revDep && v <= cell.visible && Tried(x, s, v) == v
    ensures var cell := At(st, s);
      cell.visible <= cell.revDep ==> !WithinRange(x.c, st, s, v) && forall w: Tri :: Tried(x, s, w) == Tried(x, s, v)
  {
    var d, env, mods := x.c.decls[s], TrueEnv(x, s), Mods(x);
    assert Records(st, s, True(x, s), x.cleared);
    var o := True(x, s);
    hide FirstDefault, MaxPrompts, Eval, WellRanked;
    assert o.visible == VisibleIn(d, s, mods, env) && o.dirDep == DirDepIn(d, s, mods, env) &&
           o.revDep == RevDepIn(d, s, mods, env) && o.implied == ImpliedIn(d, s, mods, env);
    var base := DefaultIn(d, o.implied, env);
    hide Step;
    forall w: Tri
      ensures Tried(x, s, w) ==
              Settle(s, mods, o.dirDep, o.revDep, o.implied, if o.visible != NO then Min(w, o.visible) else base)
    {
      TriedIs(x, s, w);
    }
  }

  lemma TriedIs(x: Context, s: Sym, v: Tri)
    requires WellRanked(x.c, x.g) && s in x.g.nodes && IsLogical(s)
    ensures var (d, env, mods) := (x.c.decls[s], TrueEnv(x, s), Mods(x));
      var (visible, implied) := (VisibleIn(d, s, mods, env), ImpliedIn(d, s, mods, env));
      Tried(x, s, v) == Settle(s, mods, DirDepIn(d, s, mods, env), RevDepIn(d, s, mods, env), implied,
        if visible != NO then Min(v, visible) else DefaultIn(d, implied, env))
  {
    hide FirstDefault, MaxPrompts, Eval, WellRanked;
  }

  lemma NodeIsPlain(x: Context, s: Sym)
    requires WellRanked(x.c, x.g) && s in x.g.nodes
    ensures s.Var? && s in x.c.decls && x.c.decls[s].role.Plain?
  {
  }

  // For a symbol outside choices, sym_set_tristate_value changes its user value only.
  lemma SetTristatePlain(x: Context, st: State, s: Sym, v: Tri)
    requires WellRanked(x.c, x.g) && s in x.g.nodes && (At(st, s).curr.tri == v || WithinRange(x.c, st, s, v))
    ensures var st1 := Put(st, s, At(st, s).(user := At(st, s).user.(has := true, tri := v)));
      SetTristate(x.c, st, s, v) ==
        Result(if At(st, s).curr.tri != v then ClearAllValid(x.c, st1) else st1, true)
  {
    hide WellRanked, WithinRange, ClearAllValid;
    NodeIsPlain(x, s);
    var cell := At(st, s).(user := At(st, s).user.(has := true));
    assert Put(Put(st, s, cell), s, cell.(user := cell.user.(tri := v))) ==
           Put(st, s, At(st, s).(user := At(st, s).user.(has := true, tri := v)));
  }

  /** No value is in range for a symbol that is not a bool or tristate, or does not show: another value than
      the one it has is refused, and nothing changes. */
  lemma TextIsRefused(c: Config, st: State, s: Sym, v: Tri)
    requires !IsLogical(s) || At(st, s).visible == NO
    ensures !WithinRange(c, st, s, v) && (At(st, s).curr.tri != v ==> SetTristate(c, st, s, v) == Result(st, false))
  {
  }

  /** A value other than y changes the user value of the symbol only, be it a member of a choice or not. */
  lemma SetBelowYes(c: Config, st: State, s: Sym, v: Tri)
    requires v != YES && (At(st, s).curr.tri == v || WithinRange(c, st, s, v))
    ensures var st1 := Put(st, s, At(st, s).(user := At(st, s).user.(has := true, tri := v)));
      SetTristate(c, st, s, v) == Result(if At(st, s).curr.tri != v then ClearAllValid(c, st1) else st1, true)
  {
    hide WithinRange, ClearAllValid;
    var cell := At(st, s).(user := At(st, s).user.(has := true));
    assert Put(Put(st, s, cell), s, cell.(user := cell.user.(tri := v))) ==
           Put(st, s, At(st, s).(user := At(st, s).user.(has := true, tri := v)));
  }

  /** A value that sym_tristate_within_range accepts is what the symbol has after it was set and
      everything is evaluated again, exactly when the direct dependencies are met or nothing
      selects the symbol. */
  lemma {:induction false} SettingSticks(x: Context, st: State, s: Sym, v: Tri)
    requires WellRanked(x.c, x.g) && Sound(x, st) && s in x.g.nodes && IsLogical(s) && At(st, s).valid
    requires WithinRange(x.c, st, s, v)
    ensures var r := SetTristate(x.c, st, s, v);
      var st' := CalcValue(x.c, ClearAllValid(x.c, r.st), s);
      r.v && (At(st', s).curr.tri == v <==> At(st, s).dirDep != NO || At(st, s).revDep == NO)
  {
    var u := At(st, s).user.(has := true, tri := v);
    var x' := x.(users := x.users[s := u]);
    var st1 := Put(st, s, At(st, s).(user := u));
    assert UsersAre(x.g, st1, x'.users);
    assert Wired(x.c, st1);
    SetTristatePlain(x, st, s, v);
    OwnUserOnly(x, s, u);
    InRangeStep(x, st, s, v, u);
    ClearIsSound(x', st1);
    var st2 := SetTristate(x.c, st, s, v).st;
    hide WellRanked, CalcValue, ClearAllValid, Step, Ready;
    if st2 != st1 {
      assert Wired(x.c, st2) by {
        SoundIsWired(x', st2);
      }
    }
    ClearIsSound(x', st2);
    AskIsSound(x', ClearAllValid(x.c, st2), s);
  }

  /** sym_set_tristate_value succeeds in giving a symbol another value exactly when the symbol can have
      that value and no select forces all that is visible. */
  lemma {:induction false} SettingIsExact(x: Context, st: State, s: Sym, v: Tri)
    requires WellRanked(x.c, x.g) && Sound(x, st) && s in x.g.nodes && IsLogical(s) && At(st, s).valid
    requires At(st, s).curr.tri != v
    ensures var r := SetTristate(x.c, st, s, v);
      var st' := CalcValue(x.c, ClearAllValid(x.c, r.st), s);
      r.v && At(st', s).curr.tri == v <==>
      At(st, s).visible > At(st, s).revDep && v <= At(st, s).visible && Tried(x, s, v) == v
  {
    OutOfReach(x, st, s, v);
    hide WellRanked, Sound, CalcValue, ClearAllValid, Tried;
    if WithinRange(x.c, st, s, v) {
      SettingSticks(x, st, s, v);
    }
    if At(st, s).dirDep != NO || At(st, s).revDep == NO {
      WithinRangeIsExact(x, st, s, v);
    }
  }

  /** Setting a symbol to the value it has always succeeds, whether that is in range or not. The symbol
      keeps the value exactly where it does not show, or does not exceed its visibility, or something
      that is y selects or implies it: a default is not limited by the visibility, a user value is. */
  lemma {:induction false} SettingAgain(x: Context, st: State, s: Sym)
    requires WellRanked(x.c, x.g) && Sound(x, st) && s in x.g.nodes && IsLogical(s) && At(st, s).valid
    ensures var cell := At(st, s);
      var r := SetTristate(x.c, st, s, cell.curr.tri);
      var st' := CalcValue(x.c, ClearAllValid(x.c, r.st), s);
      r.v && r.st == Put(st, s, cell.(user := cell.user.(has := true, tri := cell.curr.tri))) &&
      (At(st', s).curr.tri == cell.curr.tri <==>
         cell.visible == NO || cell.curr.tri <= cell.visible || cell.revDep == YES || cell.implied == YES)
  {
    var v := At(st, s).curr.tri;
    var u := At(st, s).user.(has := true, tri := v);
    var x' := x.(users := x.users[s := u]);
    var st1 := Put(st, s, At(st, s).(user := u));
    assert UsersAre(x.g, st1, x'.users);
    assert Wired(x.c, st1);
    SetTristatePlain(x, st, s, v);
    OwnUserOnly(x, s, u);
    SameAgain(x, st, s, u);
    ClearIsSound(x', st1);
    hide WellRanked, CalcValue, ClearAllValid, Step, Ready;
    AskIsSound(x', ClearAllValid(x.c, st1), s);
  }

  lemma SameAgain(x: Context, st: State, s: Sym, u: User)
    requires WellRanked(x.c, x.g) && Sound(x, st) && s in x.g.nodes && IsLogical(s) && At(st, s).valid
    requires u.has && u.tri == At(st, s).curr.tri
    ensures var cell := At(st, s);
      Step(x.c.decls[s], s, Mods(x), u, TrueEnv(x, s)).tri == cell.curr.tri <==>
      cell.visible == NO || cell.curr.tri <= cell.visible || cell.revDep == YES || cell.implied == YES
  {
    assert Records(st, s, True(x, s), x.cleared);
    hide FirstDefault, MaxPrompts, Eval, WellRanked;
  }

  // What is selected in spite of its dependencies is n, and stays n.
  lemma OutOfReach(x: Context, st: State, s: Sym, v: Tri)
    requires WellRanked(x.c, x.g) && Sound(x, st) && s in x.g.nodes && IsLogical(s) && At(st, s).valid
    ensures At(st, s).dirDep == NO && At(st, s).revDep != NO ==> At(st, s).curr.tri == NO && Tried(x, s, v) == NO
  {
    assert Records(st, s, True(x, s), x.cleared);
    hide FirstDefault, MaxPrompts, Eval, WellRanked;
  }

  lemma SoundIsWired(x: Context, st: State)
    requires WellRanked(x.c, x.g) && Sound(x, st)
    ensures Wired(x.c, st)
  {
  }
}
