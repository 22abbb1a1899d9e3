// Choosing a member of a choice (sym_set_tristate_value of symbol.c on a member, and a .config that
// sets one), and what the evaluation makes of it.
module Picking {
  import opened Tristate
  import opened Expr
  import opened Config
  import opened Meaning
  import opened Evaluation
  import opened Setting
  import opened Choices
  import opened Text
  import opened Confdata

  /** The group after the user picked a member. */
  function Picked(gr: Group, m: Sym): Group {
    gr.(user := gr.user.(pick := Some(m), has := true))
  }

  lemma PickedShape(x: Context, gr: Group, m: Sym)
    requires WellRanked(x.c, x.g) && Shape(x, gr) && m in gr.ms
    ensures Shape(x, Picked(gr, m)) && m in x.c.decls
    ensures Mode(x, gr) == YES ==> Mode(x, Picked(gr, m)) == YES
    ensures forall t <- gr.ms :: t in x.c.decls && (Shown(x, Picked(gr, m), t) <==> Shown(x, gr, t))
  {
    hide WellRanked, VisibleIn, DirDepIn, RevDepIn, ImpliedIn, Over, NeedsChoice;
    assert GroupEnv(x, Picked(gr, m), YES) == GroupEnv(x, gr, YES);
  }

  // ----- setting a member to y -----

  lemma {:induction false} MarkMembersMarks(st: State, ms: seq<Sym>)
    ensures var st' := MarkMembers(st, ms);
      st'.modulesVal == st.modulesVal &&
      forall t :: At(st', t) ==
        if t in ms && At(st, t).visible != NO then At(st, t).(user := At(st, t).user.(has := true)) else At(st, t)
    decreases |ms|
  {
    if ms != [] {
      var cell := At(st, ms[0]);
      MarkMembersMarks(if cell.visible != NO then Put(st, ms[0], cell.(user := cell.user.(has := true))) else st, ms[1..]);
    }
  }

  /** A choice that is written makes exactly those of its members written that show. */
  lemma {:induction false} WriteMembersMarks(c: Config, st: State, ms: seq<Sym>)
    ensures var st' := WriteMembers(c, st, ms);
      forall t :: At(st', t) == if t in ms && At(st, t).visible != NO then At(st, t).(write := true) else At(st, t)
    decreases |ms|
  {
    if ms != [] {
      var cell := At(st, ms[0]);
      WriteMembersMarks(c, if cell.visible != NO then Put(st, ms[0], cell.(write := true)) else st, ms[1..]);
    }
  }

  // A member without a user value counts as n.
  function UnsetCell(cell: Cell): Cell {
    if cell.user.has then cell else cell.(user := cell.user.(tri := NO))
  }

  lemma {:induction false} ResetMembersMarks(c: Config, st: State, ms: seq<Sym>)
    ensures var st' := ResetMembers(c, st, ms);
      st'.modulesVal == st.modulesVal && forall t :: At(st', t) == if t in ms then UnsetCell(At(st, t)) else At(st, t)
    decreases |ms|
  {
    if ms != [] {
      var st1 := if !At(st, ms[0]).user.has then Put(st, ms[0], UnsetCell(At(st, ms[0]))) else st;
      assert forall t :: At(st1, t) == if t == ms[0] then UnsetCell(At(st, t)) else At(st, t);
      ResetMembersMarks(c, st1, ms[1..]);
    }
  }

  /** set_all_choice_values: the members the user did not set count as n from then on, the choice counts as
      set and will be evaluated again, and nothing else changes. */
  lemma {:induction false} AllChoiceValues(c: Config, st: State, cs: Sym, ms: seq<Sym>)
    requires cs in c.decls && At(st, cs).pending && cs !in ms
    ensures var st' := SetAllChoiceValues(c, st, cs, ms);
      st'.modulesVal == st.modulesVal &&
      At(st', cs) == At(st, cs).(user := At(st, cs).user.(has := true), pending := false, valid := false) &&
      forall t :: t != cs ==> At(st', t) == (if t in ms then UnsetCell(At(st, t)) else At(st, t))
  {
    ResetMembersMarks(c, st, ms);
    hide ResetMembers, UnsetCell;
  }

  /** The end of sym_calc_value for a choice whose members are still to be set: it counts as set and will be
      evaluated again, and of all user values only those of members without one change. */
  lemma {:induction false} PendingChoiceSets(c: Config, st: State, cs: Sym)
    requires cs in c.decls && c.decls[cs].role.Choice? && At(st, cs).pending && cs !in c.decls[cs].role.members
    ensures var st' := Finish(c, st, cs);
      At(st', cs).user == At(st, cs).user.(has := true) && !At(st', cs).pending && !At(st', cs).valid &&
      forall t :: t != cs ==>
        At(st', t).user == (if t in c.decls[cs].role.members then ResetUser(At(st, t).user) else At(st, t).user)
  {
    var ms, st3 := c.decls[cs].role.members, MarkChoice(c, st, cs);
    MarksOnly(c, st, cs);
    hide WriteMembers, SetAllChoiceValues, MarkChoice;
    assert Finish(c, st, cs) == SetAllChoiceValues(c, st3, cs, ms) by { FinishIs(c, st, cs); }
    hide Finish;
    AllChoiceValues(c, st3, cs, ms);
  }

  // The choice and its members have their marks.
  ghost function MarkChoice(c: Config, st: State, cs: Sym): State
    requires cs in c.decls && c.decls[cs].role.Choice?
  {
    var st1 := if cs == c.modules then st.(modulesVal := At(st, cs).curr.tri) else st;
    var st2 := if At(st1, cs).write then WriteMembers(c, st1, c.decls[cs].role.members) else st1;
    if c.decls[cs].noWrite then Put(st2, cs, At(st2, cs).(write := false)) else st2
  }

  lemma FinishIs(c: Config, st: State, cs: Sym)
    requires cs in c.decls && c.decls[cs].role.Choice? && At(MarkChoice(c, st, cs), cs).pending
    ensures Finish(c, st, cs) == SetAllChoiceValues(c, MarkChoice(c, st, cs), cs, c.decls[cs].role.members)
  {
    hide SetAllChoiceValues, WriteMembers;
  }

  lemma MarksOnly(c: Config, st: State, cs: Sym)
    requires cs in c.decls && c.decls[cs].role.Choice?
    ensures var st' := MarkChoice(c, st, cs);
      forall t :: At(st', t).user == At(st, t).user && At(st', t).pending == At(st, t).pending
  {
    var st1 := if cs == c.modules then st.(modulesVal := At(st, cs).curr.tri) else st;
    WriteMembersWishes(c, st1, c.decls[cs].role.members);
    hide WriteMembers;
    var st2 := if At(st1, cs).write then WriteMembers(c, st1, c.decls[cs].role.members) else st1;
    assert forall t :: At(st1, t) == At(st, t);
    assert forall t :: At(st2, t).user == At(st, t).user && At(st2, t).pending == At(st, t).pending;
    PutElsewhere(st2, cs, At(st2, cs).(write := false));
    hide Put, At;
  }

  lemma {:induction false} WriteMembersWishes(c: Config, st: State, ms: seq<Sym>)
    ensures var st' := WriteMembers(c, st, ms);
      forall t :: At(st', t).user == At(st, t).user && At(st', t).pending == At(st, t).pending
  {
    WriteMembersMarks(c, st, ms);
    hide WriteMembers;
  }

  // The user value of a member that is reset.
  function ResetUser(u: User): User {
    if u.has then u else u.(tri := NO)
  }

  // The cells after a member was set to y, before everything is evaluated again.
  ghost predicate SetTo(gr: Group, m: Sym, st: State, st': State) {
    st'.modulesVal == st.modulesVal &&
    (forall t :: t != gr.cs && t !in gr.ms ==> At(st', t) == At(st, t)) &&
    At(st', gr.cs) == At(st, gr.cs).(user := At(st, gr.cs).user.(pick := Some(m), has := true)) &&
    At(st', m) == At(st, m).(user := At(st, m).user.(tri := YES, has := true)) &&
    forall t <- gr.ms :: t != m ==>
      At(st', t) == At(st, t).(user := At(st, t).user.(has := At(st, t).user.has || At(st, t).visible != NO))
  }

  // The steps of sym_set_tristate_value for a member that is set to y.
  function MarkPick(st: State, cs: Sym, ms: seq<Sym>, m: Sym): State {
    var st1 := Put(st, m, At(st, m).(user := At(st, m).user.(has := true)));
    var st2 := MarkMembers(Put(st1, cs, At(st1, cs).(user := At(st1, cs).user.(pick := Some(m), has := true))), ms);
    Put(st2, m, At(st2, m).(user := At(st2, m).user.(tri := YES)))
  }

  lemma MarkPickSets(gr: Group, st: State, m: Sym)
    requires m in gr.ms && gr.cs !in gr.ms && At(st, m).visible == YES
    ensures SetTo(gr, m, st, MarkPick(st, gr.cs, gr.ms, m))
  {
    hide MarkMembers;
    var st1 := Put(st, m, At(st, m).(user := At(st, m).user.(has := true)));
    var st2 := Put(st1, gr.cs, At(st1, gr.cs).(user := At(st1, gr.cs).user.(pick := Some(m), has := true)));
    MarkMembersMarks(st2, gr.ms);
    assert forall t :: At(st1, t) == if t == m then At(st, m).(user := At(st, m).user.(has := true)) else At(st, t);
  }

  lemma SetMemberCells(x: Context, gr: Group, st: State, m: Sym)
    requires Shape(x, gr) && m in gr.ms && At(st, m).visible == YES && At(st, m).revDep == NO
    ensures var st3 := MarkPick(st, gr.cs, gr.ms, m);
      SetTristate(x.c, st, m, YES) == Result(if At(st, m).curr.tri != YES then ClearAllValid(x.c, st3) else st3, true)
  {
    GroupOutside(x, gr);
    hide Shape, ClearAllValid, MarkMembers, At, Put;
    assert x.c.decls[m].role == Member(gr.cs);
  }

  lemma ShownCount(gr: Group, m: Sym, st: State, st': State)
    requires m in gr.ms && SetTo(gr, m, st, st')
    ensures forall t <- gr.ms :: At(st, t).visible != NO ==> At(st', t).user.has
  {
  }

  lemma SetToWaiting(x: Context, gr: Group, m: Sym, st: State, st': State)
    requires WellRanked(x.c, x.g) && Shape(x, gr) && m in gr.ms && SetTo(gr, m, st, st')
    requires Waiting(x, gr, st) && UsersAre(x.g, st, x.users) && Wired(x.c, st)
    ensures Waiting(x, Picked(gr, m), st') && UsersAre(x.g, st', x.users) && Wired(x.c, st')
  {
    GroupOutside(x, gr);
    hide WellRanked, Shape;
  }

  lemma InvalidateOnly(st: State, t: Sym)
    ensures At(Invalidate(st), t) == At(st, t).(valid := false)
  {
  }

  // Evaluating modules again does not change what the group waits for.
  lemma {:induction false} ClearedWaits(x: Context, gr: Group, st: State)
    requires WellRanked(x.c, x.g) && Shape(x, gr) && Waiting(x, gr, st) && UsersAre(x.g, st, x.users) && Wired(x.c, st)
    ensures var st' := ClearAllValid(x.c, st); Waiting(x, gr, st') && UsersAre(x.g, st', x.users) && Wired(x.c, st')
    ensures forall t <- gr.ms :: At(ClearAllValid(x.c, st), t).user == At(st, t).user
  {
    var st' := ClearAllValid(x.c, st);
    ClearIsSound(x, st);
    ClearOutside(x, st);
    SoundIsWired(x, st');
    SoundUsers(x, st');
    GroupOutside(x, gr);
    hide WellRanked, Shape, ClearAllValid, Invalidate, At, UsersAre, Wired, Sound;
    InvalidateOnly(st, gr.cs);
    forall t | t in gr.ms ensures At(st', t) == At(st, t).(valid := false) {
      InvalidateOnly(st, t);
    }
  }

  lemma SoundUsers(x: Context, st: State)
    requires WellRanked(x.c, x.g) && Sound(x, st)
    ensures UsersAre(x.g, st, x.users)
  {
  }

  /** A member that shows takes no value but y from the user. Once it is set to y, it is the member the
      choice has selected, whatever is asked for in which order: it is y and all others are n. The members
      that show count as set. */
  lemma {:induction false} SetMember(x: Context, gr: Group, st: State, m: Sym, order: seq<Sym>)
    requires WellRanked(x.c, x.g) && Shape(x, gr) && Waiting(x, gr, st) && UsersAre(x.g, st, x.users) && Wired(x.c, st)
    requires m in gr.ms && Mode(x, gr) == YES && m in x.c.decls && Shown(x, gr, m) && At(st, m).visible == YES
    requires gr.cs in order && forall t <- gr.ms :: t in order
    requires forall s <- order :: s == gr.cs || s in gr.ms || s in x.g.nodes
    ensures forall v :: v != YES && At(st, m).curr.tri != v ==> SetTristate(x.c, st, m, v) == Result(st, false)
    ensures var r := SetTristate(x.c, st, m, YES);
      var st' := AskAll(x.c, ClearAllValid(x.c, r.st), order);
      r.v && At(st', gr.cs).curr.tri == YES && (forall t <- gr.ms :: At(st', t).curr.tri == if t == m then YES else NO) &&
      forall t <- gr.ms :: At(st, t).visible != NO ==> At(r.st, t).user.has
  {
    MemberRefuses(x, gr, st, m);
    MarkedWaits(x, gr, st, m);
    PickedShape(x, gr, m);
    hide *;
    var gr', st1 := Picked(gr, m), SetTristate(x.c, st, m, YES).st;
    assert gr'.cs == gr.cs && gr'.ms == gr.ms by { PickedGroup(gr, m); }
    GroupValues(x, gr', st1, order);
    SelectionIsUnique(x, gr');
    PickedSelected(x, gr, m);
  }

  lemma PickedGroup(gr: Group, m: Sym)
    ensures var gr' := Picked(gr, m); gr'.cs == gr.cs && gr'.ms == gr.ms && gr'.user.pick == Some(m)
  {
  }

  // The picked member is the one to select.
  lemma PickedSelected(x: Context, gr: Group, m: Sym)
    requires WellRanked(x.c, x.g) && Shape(x, gr) && m in gr.ms && m in x.c.decls && Mode(x, gr) == YES && Shown(x, gr, m)
    ensures var gr' := Picked(gr, m);
      Shape(x, gr') && ChoiceTri(x, gr') == YES && forall t <- gr.ms :: MemberTri(x, gr', t) == if t == m then YES else NO
  {
    PickedShape(x, gr, m);
    PickedGroup(gr, m);
    hide WellRanked, Shape, Shown, Mode, Picked;
    SelectionIsUnique(x, Picked(gr, m));
  }

  // The state after a member was set to y.
  lemma MarkedWaits(x: Context, gr: Group, st: State, m: Sym)
    requires WellRanked(x.c, x.g) && Shape(x, gr) && Waiting(x, gr, st) && UsersAre(x.g, st, x.users) && Wired(x.c, st)
    requires m in gr.ms && At(st, m).visible == YES
    ensures Shape(x, Picked(gr, m))
    ensures var r := SetTristate(x.c, st, m, YES);
      r.v && Waiting(x, Picked(gr, m), r.st) && UsersAre(x.g, r.st, x.users) && Wired(x.c, r.st) &&
      forall t <- gr.ms :: At(st, t).visible != NO ==> At(r.st, t).user.has
  {
    GroupOutside(x, gr);
    PickedShape(x, gr, m);
    PickedGroup(gr, m);
    var st3 := MarkPick(st, gr.cs, gr.ms, m);
    SetMemberCells(x, gr, st, m);
    MarkPickSets(gr, st, m);
    hide WellRanked, Shape, ClearAllValid, UsersAre, Wired, SetTristate, MarkPick, Picked;
    SetToWaiting(x, gr, m, st, st3);
    ShownCount(gr, m, st, st3);
    hide SetTo;
    ClearedWaits(x, Picked(gr, m), st3);
  }

  lemma MemberRefuses(x: Context, gr: Group, st: State, m: Sym)
    requires Shape(x, gr) && m in gr.ms && At(st, m).visible == YES
    ensures forall v :: v != YES && At(st, m).curr.tri != v ==> SetTristate(x.c, st, m, v) == Result(st, false)
  {
    GroupOutside(x, gr);
    hide Shape;
  }

  // ----- members that are tristates -----

  // The values of the acyclic part, and y for the choice.
  ghost function YesEnv(x: Context, cs: Sym): Env
    requires WellRanked(x.c, x.g)
  {
    NodeEnv(x)[cs := Val(YES, "y")]
  }

  // The choice was evaluated to y.
  predicate IsYes(x: Context, cs: Sym, st: State) {
    cs.Var? && cs in x.c.decls && cs !in x.g.nodes && IsLogical(cs) && At(st, cs).valid && At(st, cs).curr.tri == YES
  }

  lemma {:induction false} OperandAtYes(x: Context, cs: Sym, st: State, s: Sym)
    requires WellRanked(x.c, x.g) && Sound(x, st) && IsYes(x, cs, st) && Over(x, {cs}, {s})
    ensures var st' := CalcValue(x.c, st, s);
      Sound(x, st') && IsYes(x, cs, st') && Current(x.c, st', s).tri == Lookup(YesEnv(x, cs), s).tri &&
      (forall t :: t !in x.g.nodes ==> At(st', t) == At(st, t)) && (s in x.g.nodes ==> At(st', s).valid) &&
      forall t <- x.g.nodes :: At(st, t).valid ==> At(st', t).valid
  {
    assert s in {s};
    if s in x.g.nodes {
      NodeIsPlain(x, s);
      AskOutside(x, st, s);
      hide WellRanked, Sound, CalcValue;
    }
  }

  lemma {:induction false} StringAtYes(x: Context, cs: Sym, st: State, s: Sym)
    requires WellRanked(x.c, x.g) && Sound(x, st) && IsYes(x, cs, st) && Over(x, {cs}, {s})
    requires s in x.g.nodes ==> At(st, s).valid
    ensures StringValue(x.c, st, s) == Result(st, Lookup(YesEnv(x, cs), s).str)
  {
    assert s in {s};
    if s in x.g.nodes {
      NodeIsPlain(x, s);
      assert Records(st, s, True(x, s), x.cleared);
      if IsLogical(s) {
        NoModWithoutModules(x.c, x.g, Mods(x), x.users, s);
      }
    }
  }

  lemma {:induction false} ExprAtYes(x: Context, cs: Sym, st: State, e: Expr)
    requires WellRanked(x.c, x.g) && Sound(x, st) && IsYes(x, cs, st) && Over(x, {cs}, Syms(e))
    ensures var r := CalcExpr(x.c, st, e);
      r.v == Eval(e, YesEnv(x, cs)) && Sound(x, r.st) && IsYes(x, cs, r.st)
    decreases e
  {
    hide WellRanked, Sound, IsYes, YesEnv, CalcValue;
    match e
    case Symbol(s) => OperandAtYes(x, cs, st, s);
    case Not(a) => ExprAtYes(x, cs, st, a);
    case And(a, b) =>
      ExprAtYes(x, cs, st, a);
      ExprAtYes(x, cs, CalcExpr(x.c, st, a).st, b);
    case Or(a, b) =>
      ExprAtYes(x, cs, st, a);
      ExprAtYes(x, cs, CalcExpr(x.c, st, a).st, b);
    case Cmp(rel, a, b) =>
      OverSubset(x, {cs}, {a, b}, {a});
      OverSubset(x, {cs}, {a, b}, {b});
      OperandAtYes(x, cs, st, a);
      var st1 := CalcValue(x.c, st, a);
      OperandAtYes(x, cs, st1, b);
      var st2 := CalcValue(x.c, st1, b);
      StringAtYes(x, cs, st2, a);
      StringAtYes(x, cs, st2, b);
  }

  /** In a choice that is y a tristate shows only by a prompt whose condition is y: one that is m does not
      count. */
  lemma {:induction false} PromptsAtYes(x: Context, cs: Sym, m: Sym, st: State, ps: seq<Dep>, acc: Tri)
    requires WellRanked(x.c, x.g) && Sound(x, st) && IsYes(x, cs, st)
    requires TypeOf(m).Tri3? && m in x.c.decls && x.c.decls[m].role == Member(cs)
    requires forall p <- ps :: Over(x, {cs}, DepSyms(p))
    ensures var r := CalcPrompts(x.c, st, m, ps, acc);
      r.v == (if exists p <- ps :: EvalDep(p, YesEnv(x, cs)) == YES then YES else acc) && Sound(x, r.st) && IsYes(x, cs, r.st)
    decreases |ps|
  {
    if ps != [] {
      assert ps[0] in ps && ps == [ps[0]] + ps[1..];
      hide WellRanked, Sound, YesEnv, Over;
      DepAtYes(x, cs, st, ps[0]);
      var r := CalcDep(x.c, st, ps[0], YES);
      assert Current(x.c, r.st, cs).tri == YES;
      var acc' := if r.v == MOD then acc else Max(acc, r.v);
      assert CalcPrompts(x.c, st, m, ps, acc) == CalcPrompts(x.c, r.st, m, ps[1..], acc');
      hide IsYes, EvalDep, CalcDep, CalcPrompts;
      PromptsAtYes(x, cs, m, r.st, ps[1..], acc');
    }
  }

  lemma {:induction false} DepAtYes(x: Context, cs: Sym, st: State, d: Dep)
    requires WellRanked(x.c, x.g) && Sound(x, st) && IsYes(x, cs, st) && Over(x, {cs}, DepSyms(d))
    ensures var r := CalcDep(x.c, st, d, YES); r.v == EvalDep(d, YesEnv(x, cs)) && Sound(x, r.st) && IsYes(x, cs, r.st)
  {
    if d.Some? {
      ExprAtYes(x, cs, st, d.value);
    }
  }

  /** A tristate member takes its value from the pick of the choice where it shows as y, and may be m or n, as
      the user wants, where it shows as m. */
  lemma TristateMemberValue(c: Config, st: State, m: Sym)
    requires m in c.decls && c.decls[m].role.Member? && TypeOf(m).Tri3? && c.decls[m].defaults == [] && st.modulesVal != NO
    requires At(st, m).dirDep == NO && At(st, m).revDep == NO && At(st, m).implied == NO
    ensures var cell := At(st, m);
      CalcLogical(c, st, m) == Result(st,
        if cell.visible == YES then (if At(st, c.decls[m].role.choice).chosen == Some(m) then YES else NO)
        else if cell.visible == MOD && cell.user.has then (if cell.user.tri == NO then NO else MOD)
        else NO)
  {
    assert FindDefault(c, st, c.decls[m].defaults) == Result(st, None);
    assert CalcDefault(c, st, m) == Result(st, NO);
  }

  // ----- a file that sets a member -----

  // What the choice records when a member is read with the value v.
  function Noted(u: User, m: Sym, v: Tri): User {
    User(u.has && !(v == MOD && u.tri == YES), Max(u.tri, v), u.str, if v == YES then Some(m) else u.pick)
  }

  /** The line of a member sets its user value. A member read as y is the one picked, the choice takes the
      highest value read, and m after y makes it count as not set. */
  lemma {:induction false} ReadMemberLine(c: Config, table: Table, st: State, m: Sym, v: Tri)
    requires Named(table, m) && IsLogical(m) && (m.typ.Boolean? ==> v != MOD)
    requires m in c.decls && c.decls[m].role.Member? && c.decls[m].role.choice != m
    ensures var cs := c.decls[m].role.choice;
      var st' := ReadLine(c, table, st, SymbolLine(m, Letter(v)));
      At(st', m) == At(st, m).(user := At(st, m).user.(has := true, tri := v)) &&
      At(st', cs) == At(st, cs).(user := Noted(At(st, cs).user, m, v)) &&
      (forall t :: t != m && t != cs ==> At(st', t) == At(st, t)) && st'.modulesVal == st.modulesVal
  {
    ReadLogicalLine(c, table, st, m, v);
    hide ReadLine;
  }

  // The lines of the members in order, of which w is y.
  function GroupText(order: seq<Sym>, w: Sym): string
    requires forall m <- order :: m.Var?
    decreases |order|
  {
    if order == [] then [] else SymbolLine(order[0], if order[0] == w then "y" else "n") + GroupText(order[1..], w)
  }

  // The lines can be read.
  ghost predicate Readable(c: Config, table: Table, cs: Sym, order: seq<Sym>) {
    forall m <- order ::
      m != cs && Named(table, m) && m.typ.Boolean? && m in c.decls && c.decls[m].role == Member(cs)
  }

  // From st to st' lines of members were read.
  ghost predicate OnlyUsers(cs: Sym, order: seq<Sym>, st: State, st': State) {
    st'.modulesVal == st.modulesVal &&
    (forall t :: At(st', t) == At(st, t).(user := At(st', t).user)) &&
    forall t :: t != cs && t !in order ==> At(st', t) == At(st, t)
  }

  // The user value of the choice after the lines.
  function AfterLines(u: User, order: seq<Sym>, w: Sym): User {
    if w in order then u.(tri := YES, pick := Some(w)) else u
  }

  // What the lines do to the state.
  ghost predicate GroupRead(cs: Sym, order: seq<Sym>, w: Sym, st: State, st': State) {
    OnlyUsers(cs, order, st, st') && At(st', cs).user == AfterLines(At(st, cs).user, order, w) &&
    forall m <- order :: At(st', m).user.has && At(st', m).user.tri == if m == w then YES else NO
  }

  lemma {:induction false} ReadGroupLines(c: Config, table: Table, st: State, cs: Sym, order: seq<Sym>, w: Sym)
    requires Readable(c, table, cs, order)
    ensures GroupRead(cs, order, w, st, ReadLines(c, table, st, Lines(GroupText(order, w))))
    decreases |order|
  {
    if order != [] {
      var m, rest := order[0], order[1..];
      assert m in order && forall t <- rest :: t in order;
      var v := if m == w then YES else NO;
      var st1 := ReadLine(c, table, st, SymbolLine(m, Letter(v)));
      ReadFirstLine(c, table, st, m, GroupText(rest, w), v);
      ReadMemberLine(c, table, st, m, v);
      hide ReadLine, SymbolLine, Named, GroupRead;
      ReadGroupLines(c, table, st1, cs, rest, w);
      var st' := ReadLines(c, table, st1, Lines(GroupText(rest, w)));
      assert ReadLines(c, table, st, Lines(GroupText(order, w))) == st';
      OneMoreRead(cs, order, w, st, st1, st');
    }
  }

  lemma OneMoreRead(cs: Sym, order: seq<Sym>, w: Sym, st: State, st1: State, st': State)
    requires order != [] && order[0] != cs && GroupRead(cs, order[1..], w, st1, st') && st1.modulesVal == st.modulesVal
    requires var v := if order[0] == w then YES else NO;
      At(st1, order[0]) == At(st, order[0]).(user := At(st, order[0]).user.(has := true, tri := v)) &&
      At(st1, cs) == At(st, cs).(user := Noted(At(st, cs).user, order[0], v))
    requires forall t :: t != order[0] && t != cs ==> At(st1, t) == At(st, t)
    ensures GroupRead(cs, order, w, st, st')
  {
    var m, rest := order[0], order[1..];
    assert order == [m] + rest;
    assert forall t :: t in order <==> t == m || t in rest;
    assert m !in rest ==> At(st', m) == At(st1, m);
  }

  lemma ReadFirstLine(c: Config, table: Table, st: State, m: Sym, rest: string, v: Tri)
    requires Named(table, m) && m.typ.Boolean?
    ensures var line := SymbolLine(m, Letter(v));
      ReadLines(c, table, st, Lines(line + rest)) == ReadLines(c, table, ReadLine(c, table, st, line), Lines(rest))
  {
    var line := SymbolLine(m, Letter(v));
    LineOfSymbol(m, Letter(v));
    LinesOfLine(line, rest);
    assert ([line] + Lines(rest))[1..] == Lines(rest);
    hide ReadLine, SymbolLine, Lines;
  }

  /** The group after a file was read that sets the member w. */
  function FromFile(gr: Group, w: Sym): Group {
    gr.(user := User(true, YES, "", Some(w)))
  }

  // The state after conf_reset.
  lemma ResetWaits(x: Context, gr: Group, st: State)
    requires WellRanked(x.c, x.g) && Shape(x, gr) && Wired(x.c, st) && x.users == map[]
    requires Waiting(x, gr.(user := At(st, gr.cs).user), st)
    ensures var st' := ConfReset(x.c, st);
      Waiting(x, gr.(user := User(true, NO, "", None)), st') && UsersAre(x.g, st', x.users) && Wired(x.c, st')
  {
    GroupOutside(x, gr);
    hide Shape;
    var st' := ConfReset(x.c, st);
    forall t | t in x.c.decls
      ensures At(st', t) == At(st, t).(valid := false, user := User(x.c.decls[t].role.Choice?, NO, "", None))
    {
    }
  }

  lemma FromFileShape(x: Context, gr: Group, w: Sym)
    requires WellRanked(x.c, x.g) && Shape(x, gr) && w in gr.ms
    ensures Shape(x, FromFile(gr, w)) && w in x.c.decls && forall m <- gr.ms :: m in x.c.decls
    ensures forall m <- gr.ms :: Shown(x, FromFile(gr, w), m) <==> Shown(x, gr, m)
  {
    hide WellRanked, VisibleIn, Over, NeedsChoice;
    assert GroupEnv(x, FromFile(gr, w), YES) == GroupEnv(x, gr, YES);
  }

  /** A choice that the user wants to be y is y, before it is known whether a member can be selected, if it
      shows or is selected, unless it is selected in spite of its dependencies. */
  lemma ModeFromFile(x: Context, gr: Group, w: Sym)
    requires WellRanked(x.c, x.g) && Shape(x, gr) && w in gr.ms && Shape(x, FromFile(gr, w))
    ensures gr.cs in x.c.decls
    ensures var d, env, mods := x.c.decls[gr.cs], NodeEnv(x), Mods(x);
      var visible, dir, rev := VisibleIn(d, gr.cs, mods, env), DirDepIn(d, gr.cs, mods, env), RevDepIn(d, gr.cs, mods, env);
      Mode(x, FromFile(gr, w)) == YES <==> (visible != NO || rev != NO) && (dir != NO || rev == NO)
  {
    GroupOutside(x, gr);
    hide WellRanked, Shape, VisibleIn, DirDepIn, RevDepIn, ImpliedIn;
  }

  lemma GroupReadWaits(x: Context, gr: Group, order: seq<Sym>, w: Sym, st: State, st': State)
    requires WellRanked(x.c, x.g) && Shape(x, gr) && w in order && forall m <- order :: m in gr.ms
    requires gr.user == User(true, NO, "", None) && Waiting(x, gr, st)
    requires UsersAre(x.g, st, x.users) && Wired(x.c, st) && GroupRead(gr.cs, order, w, st, st')
    ensures Waiting(x, FromFile(gr, w), st') && UsersAre(x.g, st', x.users) && Wired(x.c, st')
  {
    GroupOutside(x, gr);
    hide Shape;
  }

  /** Reading a file that sets one member of a choice, and others or none of them to n, makes that member
      the selected one wherever it shows: in whatever order the choice and its members are evaluated
      afterwards, it is y and all others are n. */
  lemma {:induction false} ReadGroup(x: Context, gr: Group, table: Table, st: State, w: Sym, lines: seq<Sym>, order: seq<Sym>)
    requires WellRanked(x.c, x.g) && Shape(x, gr) && Waiting(x, gr, st) && Wired(x.c, st) && x.users == map[]
    requires Readable(x.c, table, gr.cs, lines) && w in lines && forall m <- lines :: m in gr.ms
    requires gr.cs in order && forall t <- gr.ms :: t in order
    requires forall s <- order :: s == gr.cs || s in gr.ms || s in x.g.nodes
    ensures Shape(x, FromFile(gr, w)) && w in x.c.decls
    ensures var st' := ReadText(x.c, table, st, GroupText(lines, w));
      At(st', gr.cs).user == FromFile(gr, w).user && (forall m <- lines :: At(st', m).user.has) &&
      (Mode(x, FromFile(gr, w)) == YES && Shown(x, gr, w) ==>
         var st2 := AskAll(x.c, ClearAllValid(x.c, st'), order);
         At(st2, gr.cs).curr.tri == YES && forall t <- gr.ms :: At(st2, t).curr.tri == if t == w then YES else NO)
  {
    var gr0, gr' := gr.(user := User(true, NO, "", None)), FromFile(gr, w);
    var st0 := ConfReset(x.c, st);
    var st' := ReadText(x.c, table, st, GroupText(lines, w));
    assert st' == ReadLines(x.c, table, st0, Lines(GroupText(lines, w)));
    assert gr.(user := At(st, gr.cs).user) == gr;
    assert gr'.cs == gr0.cs == gr.cs && gr'.ms == gr0.ms == gr.ms && FromFile(gr0, w) == gr';
    hide ConfReset, ReadText, ReadLines, GroupText, WellRanked, Waiting, UsersAre, Wired, Mode, Shown, ClearAllValid, AskAll;
    FromFileShape(x, gr, w);
    UnsetShape(x, gr);
    ResetWaits(x, gr, st);
    ReadGroupLines(x.c, table, st0, gr.cs, lines, w);
    GroupReadWaits(x, gr0, lines, w, st0, st');
    FromFileValues(x, gr', st', w, order);
  }

  lemma UnsetShape(x: Context, gr: Group)
    requires Shape(x, gr)
    ensures Shape(x, gr.(user := User(true, NO, "", None)))
  {
  }

  lemma {:induction false} FromFileValues(x: Context, gr: Group, st: State, w: Sym, order: seq<Sym>)
    requires WellRanked(x.c, x.g) && Shape(x, gr) && Waiting(x, gr, st) && UsersAre(x.g, st, x.users) && Wired(x.c, st)
    requires w in gr.ms && w in x.c.decls && gr.user.pick == Some(w)
    requires gr.cs in order && forall t <- gr.ms :: t in order
    requires forall s <- order :: s == gr.cs || s in gr.ms || s in x.g.nodes
    ensures At(st, gr.cs).user == gr.user
    ensures Mode(x, gr) == YES && Shown(x, gr, w) ==>
      var st' := AskAll(x.c, ClearAllValid(x.c, st), order);
      At(st', gr.cs).curr.tri == YES && forall t <- gr.ms :: At(st', t).curr.tri == if t == w then YES else NO
  {
    assert At(st, gr.cs).user == gr.user;
    hide *;
    GroupValues(x, gr, st, order);
    SelectionIsUnique(x, gr);
  }
}
