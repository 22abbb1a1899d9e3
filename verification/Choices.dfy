// Bool choices: in whatever order a choice and its members are evaluated, at most one member is y
// (sym_calc_choice, sym_choice_default and the choice branches of sym_calc_value).
module Choices {
  import opened Tristate
  import opened Expr
  import opened Config
  import opened Meaning
  import opened Evaluation
  import opened Setting
  import opened Depends

  /** A bool choice with its members and what the user asked of it. */
  datatype Group = Group(cs: Sym, ms: seq<Sym>, user: User)

  // ----- what is required of a choice -----

  // Whatever the values of the other symbols, d is n where the choice is n.
  ghost predicate NeedsChoice(d: Dep, cs: Sym) {
    forall env: Env :: WellTyped(env) && Lookup(env, cs).tri == NO ==> EvalDep(d, env) == NO
  }

  // The declared symbols among ss belong to the acyclic part, or to also.
  predicate Over(x: Context, also: set<Sym>, ss: set<Sym>) {
    forall t <- ss :: t.Var? && t in x.c.decls ==> t in x.g.nodes || t in also
  }

  predicate IsOutside(x: Context, s: Sym) {
    s.Var? && s in x.c.decls && s !in x.g.nodes && s != x.c.modules && TypeOf(s).Boolean?
  }

  /** A member of the choice: it has no defaults, its prompts depend on the choice and on no other
      member, and it shows only where the choice does. */
  ghost predicate IsMember(x: Context, cs: Sym, m: Sym) {
    IsOutside(x, m) && m != cs && x.c.decls[m].role == Member(cs) && x.c.decls[m].defaults == [] &&
    (forall p <- x.c.decls[m].prompts :: Over(x, {cs}, DepSyms(p)) && NeedsChoice(p, cs))
  }

  /** The choice itself depends on the acyclic part, its defaults name members, and the member
      picked by the user is one of its members. */
  ghost predicate Shape(x: Context, gr: Group) {
    IsOutside(x, gr.cs) &&
    var d := x.c.decls[gr.cs];
    d.role.Choice? && d.role.members == gr.ms && (forall m <- gr.ms :: IsMember(x, gr.cs, m)) &&
    Over(x, {}, PromptSyms(d.prompts) + DepSyms(d.dirDep) + DepSyms(d.revDep) + DepSyms(d.implied)) &&
    (forall f <- d.defaults :: Over(x, {}, DepSyms(f.cond)) && f.value.Symbol? && f.value.sym in gr.ms) &&
    (gr.user.pick.Some? ==> gr.user.pick.value in gr.ms)
  }

  // ----- what the choice should do -----

  // The true values of the acyclic part.
  ghost function NodeEnv(x: Context): Env
    requires WellRanked(x.c, x.g)
  {
    map t | t in x.g.nodes :: ValOf(t, True(x, t))
  }

  // The same, with a value for the choice.
  ghost function GroupEnv(x: Context, gr: Group, v: Tri): Env
    requires WellRanked(x.c, x.g)
  {
    NodeEnv(x)[gr.cs := Val(v, Letter(v))]
  }

  /** Whether a member shows when the choice is y. */
  ghost predicate Shown(x: Context, gr: Group, m: Sym)
    requires WellRanked(x.c, x.g) && m in x.c.decls
  {
    VisibleIn(x.c.decls[m], m, Mods(x), GroupEnv(x, gr, YES)) != NO
  }

  /** The mode of the choice, before it is known whether a member can be selected. */
  ghost function Mode(x: Context, gr: Group): Tri
    requires WellRanked(x.c, x.g) && Shape(x, gr)
  {
    var d, env, mods := x.c.decls[gr.cs], NodeEnv(x), Mods(x);
    var visible := VisibleIn(d, gr.cs, mods, env);
    Settle(gr.cs, mods, DirDepIn(d, gr.cs, mods, env), RevDepIn(d, gr.cs, mods, env), ImpliedIn(d, gr.cs, mods, env),
      if visible != NO && gr.user.has then Min(gr.user.tri, visible) else NO)
  }

  ghost function FirstShown(x: Context, gr: Group, ms: seq<Sym>): (r: Option<Sym>)
    requires WellRanked(x.c, x.g) && forall m <- ms :: m in x.c.decls
    ensures r.Some? ==> r.value in ms && Shown(x, gr, r.value)
    ensures r.None? ==> forall m <- ms :: !Shown(x, gr, m)
  {
    if ms == [] then None
    else if Shown(x, gr, ms[0]) then Some(ms[0])
    else FirstShown(x, gr, ms[1..])
  }

  ghost function DefaultShown(x: Context, gr: Group, ds: seq<Default>): (r: Option<Sym>)
    requires WellRanked(x.c, x.g) && forall d <- ds :: d.value.Symbol? && d.value.sym in x.c.decls
    ensures r.Some? ==> (exists d <- ds :: d.value.sym == r.value) && r.value in x.c.decls && Shown(x, gr, r.value)
  {
    if ds == [] then None
    else if EvalDep(ds[0].cond, NodeEnv(x)) != NO && Shown(x, gr, ds[0].value.sym) then
      assert ds[0] in ds;
      Some(ds[0].value.sym)
    else DefaultShown(x, gr, ds[1..])
  }

  lemma ShapeFacts(x: Context, gr: Group)
    requires Shape(x, gr)
    ensures forall m <- gr.ms :: m in x.c.decls
    ensures forall f <- x.c.decls[gr.cs].defaults :: f.value.Symbol? && f.value.sym in gr.ms && f.value.sym in x.c.decls
    ensures gr.user.pick.Some? ==> gr.user.pick.value in gr.ms && gr.user.pick.value in x.c.decls
  {
  }

  /** The member to select: what the user picked if it shows, else the first default that applies
      and shows, else the first member that shows. */
  ghost function Selected(x: Context, gr: Group): (r: Option<Sym>)
    requires WellRanked(x.c, x.g) && Shape(x, gr)
    ensures r.Some? ==> r.value in gr.ms && r.value in x.c.decls && Shown(x, gr, r.value)
    ensures r.None? ==> forall m <- gr.ms :: m in x.c.decls && !Shown(x, gr, m)
  {
    ShapeFacts(x, gr);
    var pick := gr.user.pick;
    var f := DefaultShown(x, gr, x.c.decls[gr.cs].defaults);
    if pick.Some? && Shown(x, gr, pick.value) then pick
    else if f.Some? then f
    else FirstShown(x, gr, gr.ms)
  }

  /** The value of the choice: a choice without a member to select falls back to n. */
  ghost function ChoiceTri(x: Context, gr: Group): Tri
    requires WellRanked(x.c, x.g) && Shape(x, gr)
  {
    if Mode(x, gr) == YES && Selected(x, gr).Some? then YES else NO
  }

  // ----- the state around the evaluation -----

  // Only symbols of the acyclic part were evaluated.
  ghost predicate Outside(x: Context, st: State, st': State) {
    st'.modulesVal == st.modulesVal && (forall t :: t !in x.g.nodes ==> At(st', t) == At(st, t)) &&
    forall t <- x.g.nodes :: At(st, t).valid ==> At(st', t) == At(st, t)
  }

  // The choice was evaluated, and unless it is n the visibility of its members with it.
  ghost predicate Done(x: Context, gr: Group, st: State)
    requires WellRanked(x.c, x.g) && Shape(x, gr)
  {
    At(st, gr.cs).valid && At(st, gr.cs).curr.tri == ChoiceTri(x, gr) &&
    (ChoiceTri(x, gr) == YES ==> At(st, gr.cs).chosen == Selected(x, gr) && Seen(x, gr, st, gr.ms))
  }

  // The choice has calculated the visibility of the members in ms.
  ghost predicate Seen(x: Context, gr: Group, st: State, ms: seq<Sym>)
    requires WellRanked(x.c, x.g)
  {
    forall m <- ms :: m in x.c.decls && At(st, m).visible == MemberVisible(x, gr, m, YES)
  }

  ghost function MemberVisible(x: Context, gr: Group, m: Sym, v: Tri): Tri
    requires WellRanked(x.c, x.g) && m in x.c.decls
  {
    VisibleIn(x.c.decls[m], m, Mods(x), GroupEnv(x, gr, v))
  }

  // An expression is about to be evaluated in which the choice counts as v.
  ghost predicate Stage(x: Context, gr: Group, st: State, v: Tri)
    requires WellRanked(x.c, x.g) && Shape(x, gr)
  {
    Sound(x, st) &&
    if At(st, gr.cs).valid then At(st, gr.cs).curr.tri == v
    else
      v == ChoiceTri(x, gr) && At(st, gr.cs).user == gr.user && !At(st, gr.cs).pending && At(st, gr.cs).curr.tri != MOD
  }

  // What the evaluation does to the cells outside the acyclic part: nothing, or it evaluates the
  // choice, which may recalculate the visibility of members.
  ghost predicate Moved(x: Context, gr: Group, st: State, st': State)
    requires WellRanked(x.c, x.g) && Shape(x, gr)
  {
    st'.modulesVal == st.modulesVal && (forall t <- x.g.nodes :: At(st, t).valid ==> At(st', t) == At(st, t)) &&
    (forall t :: t !in x.g.nodes && t != gr.cs && t !in gr.ms ==> At(st', t) == At(st, t)) &&
    (forall m <- gr.ms :: At(st', m) == At(st, m).(visible := At(st', m).visible, write := At(st', m).write)) &&
    (if At(st, gr.cs).valid || !At(st', gr.cs).valid then Outside(x, st, st') else Done(x, gr, st'))
  }

  lemma MovedTrans(x: Context, gr: Group, a: State, b: State, c: State)
    requires WellRanked(x.c, x.g) && Shape(x, gr) && Moved(x, gr, a, b) && Moved(x, gr, b, c)
    ensures Moved(x, gr, a, c)
  {
    hide WellRanked, Selected, ChoiceTri, MemberVisible;
    GroupOutside(x, gr);
    hide Shape;
    assert forall m <- gr.ms :: At(c, m) == At(a, m).(visible := At(c, m).visible, write := At(c, m).write);
  }

  lemma GroupOutside(x: Context, gr: Group)
    requires Shape(x, gr)
    ensures gr.cs.Var? && gr.cs in x.c.decls && gr.cs !in x.g.nodes && TypeOf(gr.cs).Boolean? && gr.cs !in gr.ms
    ensures forall m <- gr.ms :: m.Var? && m in x.c.decls && m !in x.g.nodes && TypeOf(m).Boolean?
    ensures gr.cs != x.c.modules && x.c.modules !in gr.ms
    ensures x.c.decls[gr.cs].role.Choice? && x.c.decls[gr.cs].role.members == gr.ms
    ensures forall m <- gr.ms :: x.c.decls[m].role == Member(gr.cs) && x.c.decls[m].defaults == []
  {
  }

  // A cell outside the acyclic part may change.
  lemma PutIsSound(x: Context, st: State, s: Sym, cell: Cell)
    requires WellRanked(x.c, x.g) && Sound(x, st) && IsOutside(x, s)
    ensures Sound(x, Put(st, s, cell))
  {
    hide True;
  }

  lemma {:induction false} AskOutside(x: Context, st: State, s: Sym)
    requires WellRanked(x.c, x.g) && Sound(x, st) && s in x.g.nodes
    ensures var st' := CalcValue(x.c, st, s);
      Sound(x, st') && Outside(x, st, st') && At(st', s).valid && Records(st', s, True(x, s), x.cleared)
  {
    AskIsSound(x, st, s);
    CalcValueCorrect(x, st, s, x.g.rank[s] + 1, true);
  }

  lemma OutsideIsMoved(x: Context, gr: Group, st: State, st': State, v: Tri)
    requires WellRanked(x.c, x.g) && Shape(x, gr) && Outside(x, st, st') && Sound(x, st')
    ensures Moved(x, gr, st, st')
    ensures Stage(x, gr, st, v) ==> Stage(x, gr, st', v)
  {
    GroupOutside(x, gr);
    hide Shape, ChoiceTri, Sound;
  }

  // ----- expressions -----

  lemma {:induction false} OperandInGroup(x: Context, gr: Group, st: State, s: Sym, v: Tri)
    requires WellRanked(x.c, x.g) && Shape(x, gr) && Stage(x, gr, st, v) && Over(x, {gr.cs}, {s})
    ensures var st' := CalcValue(x.c, st, s);
      Stage(x, gr, st', v) && Moved(x, gr, st, st') &&
      Current(x.c, st', s).tri == Lookup(GroupEnv(x, gr, v), s).tri &&
      (s == gr.cs || s in x.g.nodes ==> At(st', s).valid)
    decreases if At(st, gr.cs).valid then 0 else 1, 2, 0
  {
    GroupOutside(x, gr);
    hide Shape;
    assert s in {s};
    var st' := CalcValue(x.c, st, s);
    if s.Var? && s in x.g.nodes {
      AskOutside(x, st, s);
      OutsideIsMoved(x, gr, st, st', v);
    } else if s == gr.cs && !At(st, s).valid {
      ChoiceCorrect(x, gr, st);
    } else {
      OutsideIsMoved(x, gr, st, st, v);
    }
  }

  lemma {:induction false} StringInGroup(x: Context, gr: Group, st: State, s: Sym, v: Tri)
    requires WellRanked(x.c, x.g) && Shape(x, gr) && Stage(x, gr, st, v) && Over(x, {gr.cs}, {s})
    requires s == gr.cs || s in x.g.nodes ==> At(st, s).valid
    requires v != MOD
    ensures StringValue(x.c, st, s) == Result(st, Lookup(GroupEnv(x, gr, v), s).str)
  {
    GroupOutside(x, gr);
    hide Shape;
    assert s in {s};
    if s in x.g.nodes {
      assert Records(st, s, True(x, s), x.cleared);
      if IsLogical(s) {
        NoModWithoutModules(x.c, x.g, Mods(x), x.users, s);
      }
    }
  }

  lemma OverSubset(x: Context, also: set<Sym>, ss: set<Sym>, tt: set<Sym>)
    requires Over(x, also, ss) && tt <= ss
    ensures Over(x, also, tt)
  {
  }

  lemma {:induction false} ExprInGroup(x: Context, gr: Group, st: State, e: Expr, v: Tri)
    requires WellRanked(x.c, x.g) && Shape(x, gr) && Stage(x, gr, st, v) && Over(x, {gr.cs}, Syms(e)) && v != MOD
    ensures var r := CalcExpr(x.c, st, e);
      Stage(x, gr, r.st, v) && Moved(x, gr, st, r.st) && r.v == Eval(e, GroupEnv(x, gr, v)) &&
      (gr.cs in Syms(e) ==> At(r.st, gr.cs).valid)
    decreases if At(st, gr.cs).valid then 0 else 1, 3, Size(e)
  {
    hide WellRanked, Shape, Stage, Moved, Over, GroupEnv;
    match e
    case Symbol(s) => OperandInGroup(x, gr, st, s, v);
    case Not(a) => ExprInGroup(x, gr, st, a, v);
    case And(a, b) => BothInGroup(x, gr, st, a, b, v);
    case Or(a, b) => BothInGroup(x, gr, st, a, b, v);
    case Cmp(rel, a, b) => CmpInGroup(x, gr, st, a, b, v);
  }

  lemma {:induction false} BothInGroup(x: Context, gr: Group, st: State, a: Expr, b: Expr, v: Tri)
    requires WellRanked(x.c, x.g) && Shape(x, gr) && Stage(x, gr, st, v) && v != MOD
    requires Over(x, {gr.cs}, Syms(a) + Syms(b))
    ensures var p := CalcExpr(x.c, st, a);
      var q := CalcExpr(x.c, p.st, b);
      Stage(x, gr, q.st, v) && Moved(x, gr, st, q.st) &&
      p.v == Eval(a, GroupEnv(x, gr, v)) && q.v == Eval(b, GroupEnv(x, gr, v)) &&
      (gr.cs in Syms(a) + Syms(b) ==> At(q.st, gr.cs).valid)
    decreases if At(st, gr.cs).valid then 0 else 1, 3, Size(a) + Size(b)
  {
    OverSubset(x, {gr.cs}, Syms(a) + Syms(b), Syms(a));
    OverSubset(x, {gr.cs}, Syms(a) + Syms(b), Syms(b));
    hide WellRanked, Shape, Stage, Moved, Over, GroupEnv;
    var p := CalcExpr(x.c, st, a);
    ExprInGroup(x, gr, st, a, v);
    ValidStays(x, gr, st, p.st);
    ExprInGroup(x, gr, p.st, b, v);
    var q := CalcExpr(x.c, p.st, b);
    ValidStays(x, gr, p.st, q.st);
    MovedTrans(x, gr, st, p.st, q.st);
  }

  lemma ValidStays(x: Context, gr: Group, st: State, st': State)
    requires WellRanked(x.c, x.g) && Shape(x, gr) && Moved(x, gr, st, st')
    ensures At(st, gr.cs).valid ==> At(st', gr.cs).valid
  {
    GroupOutside(x, gr);
  }

  lemma {:induction false} CmpInGroup(x: Context, gr: Group, st: State, a: Sym, b: Sym, v: Tri)
    requires WellRanked(x.c, x.g) && Shape(x, gr) && Stage(x, gr, st, v) && Over(x, {gr.cs}, {a, b}) && v != MOD
    ensures var st2 := CalcValue(x.c, CalcValue(x.c, st, a), b);
      Stage(x, gr, st2, v) && Moved(x, gr, st, st2) &&
      StringValue(x.c, st2, a) == Result(st2, Lookup(GroupEnv(x, gr, v), a).str) &&
      StringValue(x.c, st2, b) == Result(st2, Lookup(GroupEnv(x, gr, v), b).str) &&
      (gr.cs == a || gr.cs == b ==> At(st2, gr.cs).valid)
    decreases if At(st, gr.cs).valid then 0 else 1, 2, 1
  {
    OverSubset(x, {gr.cs}, {a, b}, {a});
    OverSubset(x, {gr.cs}, {a, b}, {b});
    hide WellRanked, Shape, Stage, Over, GroupEnv;
    var st1 := CalcValue(x.c, st, a);
    var st2 := CalcValue(x.c, st1, b);
    OperandInGroup(x, gr, st, a, v);
    ValidStays(x, gr, st, st1);
    OperandInGroup(x, gr, st1, b, v);
    ValidStays(x, gr, st1, st2);
    assert a in x.g.nodes ==> At(st2, a).valid;
    MovedTrans(x, gr, st, st1, st2);
    StringInGroup(x, gr, st2, a, v);
    StringInGroup(x, gr, st2, b, v);
  }

  // An expression over the acyclic part.
  lemma {:induction false} DepOutside(x: Context, gr: Group, st: State, d: Dep, missing: Tri)
    requires WellRanked(x.c, x.g) && Shape(x, gr) && Sound(x, st) && At(st, gr.cs).valid && Over(x, {}, DepSyms(d))
    requires At(st, gr.cs).curr.tri != MOD
    ensures var r := CalcDep(x.c, st, d, missing);
      Sound(x, r.st) && Outside(x, st, r.st) && r.v == (if d.None? then missing else Eval(d.value, NodeEnv(x)))
    decreases 0, 4
  {
    if d.Some? {
      var v := At(st, gr.cs).curr.tri;
      ExprInGroup(x, gr, st, d.value, v);
      NodesAgree(x, gr, d.value, v);
      hide WellRanked, Shape, Sound, GroupEnv, NodeEnv, Outside;
    } else {
      hide WellRanked, Shape, Sound;
    }
  }

  // An expression over the acyclic part does not notice the choice.
  lemma NodesAgree(x: Context, gr: Group, e: Expr, v: Tri)
    requires WellRanked(x.c, x.g) && Shape(x, gr) && Over(x, {}, Syms(e))
    ensures Over(x, {gr.cs}, Syms(e)) && Eval(e, GroupEnv(x, gr, v)) == Eval(e, NodeEnv(x))
  {
    GroupOutside(x, gr);
    hide Shape;
    EvalAgrees(e, NodeEnv(x), GroupEnv(x, gr, v));
  }

  lemma {:induction false} PromptsOutside(x: Context, gr: Group, st: State, ps: seq<Dep>, acc: Tri)
    requires WellRanked(x.c, x.g) && Shape(x, gr) && Sound(x, st) && At(st, gr.cs).valid && Over(x, {}, PromptSyms(ps))
    requires At(st, gr.cs).curr.tri != MOD
    ensures var r := CalcPrompts(x.c, st, gr.cs, ps, acc);
      Sound(x, r.st) && Outside(x, st, r.st) && r.v == MaxPrompts(ps, NodeEnv(x), acc)
    decreases 0, 5, |ps|
  {
    if ps != [] {
      var r := CalcDep(x.c, st, ps[0], YES);
      OverSubset(x, {}, PromptSyms(ps), DepSyms(ps[0]));
      OverSubset(x, {}, PromptSyms(ps), PromptSyms(ps[1..]));
      DepOutside(x, gr, st, ps[0], YES);
      GroupOutside(x, gr);
      hide Sound, Shape, WellRanked, Over;
      PromptsOutside(x, gr, r.st, ps[1..], Max(acc, r.v));
    }
  }

  // ----- the evaluation of the choice -----

  // From st to st' only the cell of the choice, the visibility and mark of its members, and the
  // acyclic part changed.
  ghost predicate Within(x: Context, gr: Group, st: State, st': State)
    requires WellRanked(x.c, x.g)
  {
    Sound(x, st') && At(st', gr.cs).valid && st'.modulesVal == st.modulesVal &&
    (forall t <- x.g.nodes :: At(st, t).valid ==> At(st', t) == At(st, t)) &&
    (forall t :: t !in x.g.nodes && t != gr.cs && t !in gr.ms ==> At(st', t) == At(st, t)) &&
    (forall m <- gr.ms :: At(st', m) == At(st, m).(visible := At(st', m).visible, write := At(st', m).write))
  }

  lemma WithinTrans(x: Context, gr: Group, a: State, b: State, c: State)
    requires WellRanked(x.c, x.g) && Within(x, gr, a, b) && Within(x, gr, b, c)
    ensures Within(x, gr, a, c)
  {
    hide WellRanked, Sound;
    assert forall m <- gr.ms :: At(c, m) == At(a, m).(visible := At(c, m).visible, write := At(c, m).write);
  }

  lemma OutsideIsWithin(x: Context, gr: Group, st: State, st': State)
    requires WellRanked(x.c, x.g) && Shape(x, gr) && Outside(x, st, st') && Sound(x, st') && At(st, gr.cs).valid
    ensures Within(x, gr, st, st') && At(st', gr.cs) == At(st, gr.cs)
    ensures forall m <- gr.ms :: At(st', m) == At(st, m)
  {
    GroupOutside(x, gr);
    hide Shape, Sound;
  }

  lemma ChoiceIsOutside(x: Context, gr: Group)
    requires Shape(x, gr)
    ensures IsOutside(x, gr.cs)
  {
  }

  lemma MemberIsOutside(x: Context, gr: Group, m: Sym)
    requires Shape(x, gr) && m in gr.ms
    ensures IsOutside(x, m)
  {
  }

  lemma PutElsewhere(st: State, s: Sym, cell: Cell)
    ensures At(Put(st, s, cell), s) == cell && forall t :: t != s ==> At(Put(st, s, cell), t) == At(st, t)
    ensures Put(st, s, cell).modulesVal == st.modulesVal
  {
  }

  lemma PutChoice(x: Context, gr: Group, st: State, cell: Cell)
    requires WellRanked(x.c, x.g) && Shape(x, gr) && Sound(x, st) && cell.valid
    ensures Within(x, gr, st, Put(st, gr.cs, cell)) && At(Put(st, gr.cs, cell), gr.cs) == cell
    ensures forall t :: t != gr.cs ==> At(Put(st, gr.cs, cell), t) == At(st, t)
  {
    ChoiceIsOutside(x, gr);
    PutElsewhere(st, gr.cs, cell);
    hide Shape, Sound, WellRanked, IsOutside, At, Put;
    PutIsSound(x, st, gr.cs, cell);
    GroupOutside(x, gr);
  }

  lemma PutMember(x: Context, gr: Group, st: State, m: Sym, cell: Cell)
    requires WellRanked(x.c, x.g) && Shape(x, gr) && Sound(x, st) && At(st, gr.cs).valid && m in gr.ms
    requires cell == At(st, m).(visible := cell.visible, write := cell.write)
    ensures Within(x, gr, st, Put(st, m, cell)) && At(Put(st, m, cell), gr.cs) == At(st, gr.cs)
    ensures forall t :: t != m ==> At(Put(st, m, cell), t) == At(st, t)
  {
    PutElsewhere(st, m, cell);
    hide Shape, Sound, WellRanked, IsOutside, At, Put;
    MemberIsOutside(x, gr, m);
    PutIsSound(x, st, m, cell);
    GroupOutside(x, gr);
  }

  ghost function SurveyedChoice(x: Context, gr: Group, cell: Cell): Cell
    requires WellRanked(x.c, x.g) && Shape(x, gr)
  {
    var d, env, mods := x.c.decls[gr.cs], NodeEnv(x), Mods(x);
    cell.(visible := VisibleIn(d, gr.cs, mods, env), dirDep := DirDepIn(d, gr.cs, mods, env),
          revDep := RevDepIn(d, gr.cs, mods, env), implied := ImpliedIn(d, gr.cs, mods, env))
  }

  lemma {:induction false} SurveyChoice(x: Context, gr: Group, st: State)
    requires WellRanked(x.c, x.g) && Shape(x, gr) && Sound(x, st) && At(st, gr.cs).valid
    requires At(st, gr.cs).curr.tri != MOD
    ensures var st' := CalcVisibility(x.c, st, gr.cs);
      Within(x, gr, st, st') && At(st', gr.cs) == SurveyedChoice(x, gr, At(st, gr.cs))
    decreases 0, 7
  {
    GroupOutside(x, gr);
    var c, cs, d, env, mods := x.c, gr.cs, x.c.decls[gr.cs], NodeEnv(x), Mods(x);
    var p := CalcPrompts(c, st, cs, d.prompts, NO);
    var ss := PromptSyms(d.prompts) + DepSyms(d.dirDep) + DepSyms(d.revDep) + DepSyms(d.implied);
    OverSubset(x, {}, ss, PromptSyms(d.prompts));
    OverSubset(x, {}, ss, DepSyms(d.dirDep));
    OverSubset(x, {}, ss, DepSyms(d.revDep));
    OverSubset(x, {}, ss, DepSyms(d.implied));
    PromptsOutside(x, gr, st, d.prompts, NO);
    OutsideIsWithin(x, gr, st, p.st);
    assert st.modulesVal == mods;
    hide WellRanked, Shape, Sound, Over, Outside;
    var st1 := Put(p.st, cs, At(st, cs).(visible := VisibleIn(d, cs, mods, env)));
    assert CalcVisibility(c, st, cs) == CalcImplied(c, CalcRevDep(c, CalcDirDep(c, st1, cs), cs), cs);
    hide VisibleIn, DirDepIn, RevDepIn, ImpliedIn;
    PutChoice(x, gr, p.st, At(st1, cs));
    WithinTrans(x, gr, st, p.st, st1);
    SurveyDirDep(x, gr, st1);
    var st2 := CalcDirDep(c, st1, cs);
    WithinTrans(x, gr, st, st1, st2);
    SurveyRevDep(x, gr, st2);
    var st3 := CalcRevDep(c, st2, cs);
    WithinTrans(x, gr, st, st2, st3);
    SurveyImplied(x, gr, st3);
    WithinTrans(x, gr, st, st3, CalcImplied(c, st3, cs));
  }

  lemma {:induction false} SurveyDirDep(x: Context, gr: Group, st: State)
    requires WellRanked(x.c, x.g) && Shape(x, gr) && Sound(x, st) && At(st, gr.cs).valid
    requires At(st, gr.cs).curr.tri != MOD && Over(x, {}, DepSyms(x.c.decls[gr.cs].dirDep))
    ensures var st' := CalcDirDep(x.c, st, gr.cs);
      Within(x, gr, st, st') &&
      At(st', gr.cs) == At(st, gr.cs).(dirDep := DirDepIn(x.c.decls[gr.cs], gr.cs, Mods(x), NodeEnv(x)))
    decreases 0, 6
  {
    GroupOutside(x, gr);
    assert st.modulesVal == Mods(x);
    hide WellRanked, Shape, Sound, Over;
    var d := x.c.decls[gr.cs];
    SurveyDep(x, gr, st, d.dirDep, YES, At(st, gr.cs).(dirDep := DirDepIn(d, gr.cs, Mods(x), NodeEnv(x))));
  }

  lemma {:induction false} SurveyRevDep(x: Context, gr: Group, st: State)
    requires WellRanked(x.c, x.g) && Shape(x, gr) && Sound(x, st) && At(st, gr.cs).valid
    requires At(st, gr.cs).curr.tri != MOD && Over(x, {}, DepSyms(x.c.decls[gr.cs].revDep))
    ensures var st' := CalcRevDep(x.c, st, gr.cs);
      Within(x, gr, st, st') &&
      At(st', gr.cs) == At(st, gr.cs).(revDep := RevDepIn(x.c.decls[gr.cs], gr.cs, Mods(x), NodeEnv(x)))
    decreases 0, 6
  {
    GroupOutside(x, gr);
    assert st.modulesVal == Mods(x);
    hide WellRanked, Shape, Sound, Over;
    var d := x.c.decls[gr.cs];
    SurveyDep(x, gr, st, d.revDep, NO, At(st, gr.cs).(revDep := RevDepIn(d, gr.cs, Mods(x), NodeEnv(x))));
  }

  lemma {:induction false} SurveyImplied(x: Context, gr: Group, st: State)
    requires WellRanked(x.c, x.g) && Shape(x, gr) && Sound(x, st) && At(st, gr.cs).valid
    requires At(st, gr.cs).curr.tri != MOD && Over(x, {}, DepSyms(x.c.decls[gr.cs].implied))
    requires At(st, gr.cs).dirDep == DirDepIn(x.c.decls[gr.cs], gr.cs, Mods(x), NodeEnv(x))
    ensures var st' := CalcImplied(x.c, st, gr.cs);
      Within(x, gr, st, st') &&
      At(st', gr.cs) == At(st, gr.cs).(implied := ImpliedIn(x.c.decls[gr.cs], gr.cs, Mods(x), NodeEnv(x)))
    decreases 0, 6
  {
    GroupOutside(x, gr);
    assert st.modulesVal == Mods(x);
    hide WellRanked, Shape, Sound, Over;
    var d := x.c.decls[gr.cs];
    var cell := At(st, gr.cs).(implied := ImpliedIn(d, gr.cs, Mods(x), NodeEnv(x)));
    if cell.dirDep == NO {
      PutChoice(x, gr, st, cell);
    } else {
      SurveyDep(x, gr, st, d.implied, NO, cell);
    }
  }

  // A dependency of the choice is calculated and recorded in its cell.
  lemma {:induction false} SurveyDep(x: Context, gr: Group, st: State, d: Dep, missing: Tri, cell: Cell)
    requires WellRanked(x.c, x.g) && Shape(x, gr) && Sound(x, st) && At(st, gr.cs).valid && Over(x, {}, DepSyms(d))
    requires At(st, gr.cs).curr.tri != MOD && cell.valid
    ensures var r := CalcDep(x.c, st, d, missing);
      r.v == (if d.None? then missing else Eval(d.value, NodeEnv(x))) && r.st.modulesVal == st.modulesVal &&
      Sound(x, r.st) && At(r.st, gr.cs) == At(st, gr.cs) &&
      Within(x, gr, st, Put(r.st, gr.cs, cell)) && At(Put(r.st, gr.cs, cell), gr.cs) == cell
    decreases 0, 5
  {
    var r := CalcDep(x.c, st, d, missing);
    DepOutside(x, gr, st, d, missing);
    OutsideIsWithin(x, gr, st, r.st);
    PutChoice(x, gr, r.st, cell);
    WithinTrans(x, gr, st, r.st, Put(r.st, gr.cs, cell));
  }

  // ----- the members -----

  ghost predicate MemberPrompts(x: Context, cs: Sym, ps: seq<Dep>) {
    forall p <- ps :: Over(x, {cs}, DepSyms(p)) && NeedsChoice(p, cs)
  }

  lemma {:induction false} GroupEnvIsTyped(x: Context, gr: Group)
    requires WellRanked(x.c, x.g) && TypeOf(gr.cs).Boolean?
    ensures WellTyped(GroupEnv(x, gr, NO))
  {
    forall t | t in x.g.nodes
      ensures TypeOf(t).Boolean? ==> True(x, t).tri != MOD
      ensures !IsLogical(t) ==> True(x, t).tri == NO
    {
      if IsLogical(t) {
        NoModWithoutModules(x.c, x.g, Mods(x), x.users, t);
      }
    }
  }

  // A prompt that does not mention the choice does not show.
  lemma {:induction false} PromptMentionsChoice(x: Context, gr: Group, p: Dep, v: Tri)
    requires WellRanked(x.c, x.g) && NeedsChoice(p, gr.cs)
    requires gr.cs.Var? && TypeOf(gr.cs).Boolean? && (v == NO || gr.cs !in DepSyms(p))
    ensures EvalDep(p, GroupEnv(x, gr, v)) == NO
  {
    var env, env' := GroupEnv(x, gr, v), GroupEnv(x, gr, NO);
    GroupEnvIsTyped(x, gr);
    assert Lookup(env', gr.cs).tri == NO;
    assert EvalDep(p, env') == NO;
    if v != NO && p.Some? {
      EvalAgrees(p.value, env, env');
    }
  }

  lemma {:induction false} PromptsOfMember(x: Context, gr: Group, st: State, m: Sym, ps: seq<Dep>, acc: Tri, v: Tri)
    requires WellRanked(x.c, x.g) && Shape(x, gr) && Stage(x, gr, st, v) && v != MOD
    requires m in gr.ms && MemberPrompts(x, gr.cs, ps)
    ensures var r := CalcPrompts(x.c, st, m, ps, acc);
      Stage(x, gr, r.st, v) && Moved(x, gr, st, r.st) && r.v == MaxPrompts(ps, GroupEnv(x, gr, v), acc) &&
      (r.v == acc || At(r.st, gr.cs).valid)
    decreases if At(st, gr.cs).valid then 0 else 1, 5, |ps|
  {
    GroupOutside(x, gr);
    if ps == [] {
      OutsideIsMoved(x, gr, st, st, v);
    } else {
      var p := ps[0];
      var r := CalcDep(x.c, st, p, YES);
      assert p in ps;
      assert MemberPrompts(x, gr.cs, ps[1..]);
      if gr.cs !in DepSyms(p) {
        PromptMentionsChoice(x, gr, p, v);
      }
      hide WellRanked, Shape, Stage, Moved, GroupEnv, MemberPrompts, Over, NeedsChoice;
      ExprInGroup(x, gr, st, p.value, v);
      ValidStays(x, gr, st, r.st);
      PromptsOfMember(x, gr, r.st, m, ps[1..], Max(acc, r.v), v);
      var q := CalcPrompts(x.c, st, m, ps, acc);
      ValidStays(x, gr, r.st, q.st);
      MovedTrans(x, gr, st, r.st, q.st);
    }
  }

  lemma {:induction false} MemberOfChoice(x: Context, gr: Group, st: State, m: Sym)
    requires WellRanked(x.c, x.g) && Shape(x, gr) && Sound(x, st) && At(st, gr.cs).valid && m in gr.ms
    requires At(st, gr.cs).curr.tri == YES
    ensures m in x.c.decls
    ensures var st' := CalcVisibility(x.c, st, m);
      Within(x, gr, st, st') && At(st', gr.cs) == At(st, gr.cs) &&
      At(st', m) == At(st, m).(visible := MemberVisible(x, gr, m, YES)) &&
      forall t <- gr.ms :: t != m ==> At(st', t) == At(st, t)
    decreases 0, 6
  {
    GroupOutside(x, gr);
    var ps := x.c.decls[m].prompts;
    assert MemberPrompts(x, gr.cs, ps);
    var p := CalcPrompts(x.c, st, m, ps, NO);
    PromptsOfMember(x, gr, st, m, ps, NO, YES);
    OutsideIsWithin(x, gr, st, p.st);
    assert st.modulesVal == Mods(x);
    hide WellRanked, Shape, Sound, Outside;
    var cell := At(st, m).(visible := MemberVisible(x, gr, m, YES));
    PutMember(x, gr, p.st, m, cell);
    WithinTrans(x, gr, st, p.st, Put(p.st, m, cell));
  }

  lemma WithinSound(x: Context, gr: Group, st: State, st': State)
    requires WellRanked(x.c, x.g) && Within(x, gr, st, st')
    ensures Sound(x, st') && At(st', gr.cs).valid && st'.modulesVal == st.modulesVal
  {
  }

  // The members among ms that show when the choice is y have a user value.
  ghost predicate AllSet(x: Context, gr: Group, st: State, ms: seq<Sym>)
    requires WellRanked(x.c, x.g)
  {
    forall m <- ms :: m in x.c.decls && (Shown(x, gr, m) ==> At(st, m).user.has)
  }

  lemma {:induction false} AllSetNext(x: Context, gr: Group, st: State, st': State, ms: seq<Sym>)
    requires WellRanked(x.c, x.g) && ms != [] && (forall m <- ms :: m in gr.ms && m in x.c.decls)
    requires Within(x, gr, st, st')
    ensures AllSet(x, gr, st, ms) <==>
            (Shown(x, gr, ms[0]) ==> At(st', ms[0]).user.has) && AllSet(x, gr, st', ms[1..])
  {
    hide WellRanked, Sound, Shown;
    assert ms == [ms[0]] + ms[1..];
    assert forall m <- ms :: At(st', m).user == At(st, m).user;
  }

  lemma {:induction false} MembersOfChoice(x: Context, gr: Group, st: State, ms: seq<Sym>, seen: seq<Sym>, all: bool)
    requires WellRanked(x.c, x.g) && Shape(x, gr) && Sound(x, st) && At(st, gr.cs).valid
    requires At(st, gr.cs).curr.tri == YES && gr.ms == seen + ms && Seen(x, gr, st, seen)
    ensures var r := CalcMembers(x.c, st, ms, all);
      Within(x, gr, st, r.st) && At(r.st, gr.cs) == At(st, gr.cs) && Seen(x, gr, r.st, gr.ms) &&
      (r.v <==> all && AllSet(x, gr, st, ms))
    decreases 0, 7, |ms|
  {
    hide WellRanked, Shape, Sound, Within, MemberVisible, CalcVisibility, Shown, AllSet;
    GroupOutside(x, gr);
    if ms == [] {
      assert seen == gr.ms;
      assert AllSet(x, gr, st, ms) by { NoneToSet(x, gr, st); }
      OutsideIsWithin(x, gr, st, st);
    } else {
      var m := ms[0];
      assert m in gr.ms;
      var st1 := CalcVisibility(x.c, st, m);
      MemberOfChoice(x, gr, st, m);
      AllSetNext(x, gr, st, st1, ms);
      ShownIsVisible(x, gr, m);
      WithinSound(x, gr, st, st1);
      assert Seen(x, gr, st1, seen + [m]);
      MembersOfChoice(x, gr, st1, ms[1..], seen + [m], all && (At(st1, m).visible == NO || At(st1, m).user.has));
      WithinTrans(x, gr, st, st1, CalcMembers(x.c, st, ms, all).st);
    }
  }

  lemma NoneToSet(x: Context, gr: Group, st: State)
    requires WellRanked(x.c, x.g)
    ensures AllSet(x, gr, st, [])
  {
  }

  lemma {:induction false} FirstVisibleIsFirstShown(x: Context, gr: Group, st: State, ms: seq<Sym>)
    requires WellRanked(x.c, x.g) && Seen(x, gr, st, ms)
    ensures FirstVisible(st, ms) == FirstShown(x, gr, ms)
  {
    if ms != [] {
      assert ms[0] in ms;
      FirstVisibleIsFirstShown(x, gr, st, ms[1..]);
    }
  }

  lemma {:induction false} DefaultOfChoice(x: Context, gr: Group, st: State, ds: seq<Default>)
    requires WellRanked(x.c, x.g) && Shape(x, gr) && Sound(x, st) && At(st, gr.cs).valid
    requires At(st, gr.cs).curr.tri == YES && Seen(x, gr, st, gr.ms)
    requires forall d <- ds :: Over(x, {}, DepSyms(d.cond)) && d.value.Symbol? && d.value.sym in gr.ms && d.value.sym in x.c.decls
    ensures var r := FindChoiceDefault(x.c, st, ds);
      Within(x, gr, st, r.st) && At(r.st, gr.cs) == At(st, gr.cs) && Seen(x, gr, r.st, gr.ms) &&
      r.v == DefaultShown(x, gr, ds)
    decreases 0, 5, |ds|
  {
    if ds == [] {
      OutsideIsWithin(x, gr, st, st);
    } else {
      assert ds[0] in ds;
      var r := CalcDep(x.c, st, ds[0].cond, YES);
      DepOutside(x, gr, st, ds[0].cond, YES);
      OutsideIsWithin(x, gr, st, r.st);
      hide WellRanked, Shape, Sound, MemberVisible, Outside, Over;
      assert Seen(x, gr, r.st, gr.ms);
      assert r.v == EvalDep(ds[0].cond, NodeEnv(x));
      assert At(r.st, ds[0].value.sym).visible == MemberVisible(x, gr, ds[0].value.sym, YES);
      assert Shown(x, gr, ds[0].value.sym) <==> MemberVisible(x, gr, ds[0].value.sym, YES) != NO by {
        ShownIsVisible(x, gr, ds[0].value.sym);
      }
      if !(r.v != NO && Shown(x, gr, ds[0].value.sym)) {
        DefaultOfChoice(x, gr, r.st, ds[1..]);
        WithinTrans(x, gr, st, r.st, FindChoiceDefault(x.c, st, ds).st);
      }
    }
  }

  lemma ShownIsVisible(x: Context, gr: Group, m: Sym)
    requires WellRanked(x.c, x.g) && m in x.c.decls
    ensures Shown(x, gr, m) <==> MemberVisible(x, gr, m, YES) != NO
  {
  }

  lemma DefaultsOver(x: Context, gr: Group)
    requires Shape(x, gr)
    ensures forall d <- x.c.decls[gr.cs].defaults :: Over(x, {}, DepSyms(d.cond))
  {
  }

  /** What the choice keeps of the wishes of the user: it counts as set only while all members that show
      are set. */
  ghost function CountedUser(x: Context, gr: Group, st: State): User
    requires WellRanked(x.c, x.g)
  {
    var user := At(st, gr.cs).user;
    user.(has := user.has && AllSet(x, gr, st, gr.ms))
  }

  lemma {:induction false} LookAtMembers(x: Context, gr: Group, st: State) returns (st1: State)
    requires WellRanked(x.c, x.g) && Shape(x, gr) && Sound(x, st) && At(st, gr.cs).valid
    requires At(st, gr.cs).curr.tri == YES && At(st, gr.cs).user.pick == gr.user.pick
    ensures gr.cs in x.c.decls
    ensures Within(x, gr, st, st1) && Seen(x, gr, st1, gr.ms) && At(st1, gr.cs).pending == At(st, gr.cs).pending
    ensures At(st1, gr.cs).curr.tri == YES && At(st1, gr.cs).user == CountedUser(x, gr, st)
    ensures CalcChoice(x.c, st, gr.cs, gr.ms) == CalcPick(x.c, st1, gr.cs, gr.ms)
    decreases 0, 8
  {
    hide WellRanked, Shape, Sound, MemberVisible, Within, CalcMembers, CalcPick, AllSet;
    GroupOutside(x, gr);
    var cs := gr.cs;
    var m := CalcMembers(x.c, st, gr.ms, At(st, cs).user.has);
    MembersOfChoice(x, gr, st, gr.ms, [], At(st, cs).user.has);
    var cell := At(m.st, cs);
    cell := cell.(user := cell.user.(has := cell.user.has && m.v));
    st1 := Put(m.st, cs, cell);
    WithinSound(x, gr, st, m.st);
    PutChoice(x, gr, m.st, cell);
    WithinTrans(x, gr, st, m.st, st1);
  }

  lemma {:induction false} SelectCorrect(x: Context, gr: Group, st: State)
    requires WellRanked(x.c, x.g) && Shape(x, gr) && Sound(x, st) && At(st, gr.cs).valid
    requires At(st, gr.cs).curr.tri == YES && At(st, gr.cs).user.pick == gr.user.pick
    ensures gr.cs in x.c.decls
    ensures var r := CalcChoice(x.c, st, gr.cs, gr.ms);
      Within(x, gr, st, r.st) && r.v == Selected(x, gr) &&
      At(r.st, gr.cs).curr.tri == (if r.v.Some? then YES else NO) && At(r.st, gr.cs).pending == At(st, gr.cs).pending &&
      At(r.st, gr.cs).user == CountedUser(x, gr, st) && Seen(x, gr, r.st, gr.ms)
    decreases 0, 9
  {
    hide WellRanked, Shape, Sound, MemberVisible, Over, Within, CalcChoice, FindChoiceDefault, Shown, AllSet, Seen;
    GroupOutside(x, gr);
    ShapeFacts(x, gr);
    DefaultsOver(x, gr);
    var cs, ds := gr.cs, x.c.decls[gr.cs].defaults;
    var st1 := LookAtMembers(x, gr, st);
    WithinSound(x, gr, st, st1);
    var pick := gr.user.pick;
    if pick.Some? {
      ShownIsVisible(x, gr, pick.value);
      SeenAt(x, gr, st1, pick.value);
    }
    if !(pick.Some? && Shown(x, gr, pick.value)) {
      var d := FindChoiceDefault(x.c, st1, ds);
      DefaultOfChoice(x, gr, st1, ds);
      FirstVisibleIsFirstShown(x, gr, d.st, gr.ms);
      WithinTrans(x, gr, st, st1, d.st);
      PutCell(x, gr, st, d.st, At(d.st, cs).(curr := At(d.st, cs).curr.(tri := NO)));
      SeenStays(x, gr, d.st, At(d.st, cs).(curr := At(d.st, cs).curr.(tri := NO)));
    }
  }

  lemma SeenAt(x: Context, gr: Group, st: State, m: Sym)
    requires WellRanked(x.c, x.g) && Seen(x, gr, st, gr.ms) && m in gr.ms
    ensures m in x.c.decls && At(st, m).visible == MemberVisible(x, gr, m, YES)
  {
  }

  // A change of the cell of the choice.
  lemma SeenStays(x: Context, gr: Group, st: State, cell: Cell)
    requires WellRanked(x.c, x.g) && Shape(x, gr) && Seen(x, gr, st, gr.ms)
    ensures Seen(x, gr, Put(st, gr.cs, cell), gr.ms)
  {
    GroupOutside(x, gr);
    hide WellRanked, Shape, MemberVisible;
  }

  lemma {:induction false} LogicalOfChoice(x: Context, gr: Group, st: State)
    requires WellRanked(x.c, x.g) && Shape(x, gr) && Sound(x, st) && At(st, gr.cs).valid
    requires At(st, gr.cs) == SurveyedChoice(x, gr, At(st, gr.cs)) && At(st, gr.cs).user == gr.user
    ensures gr.cs in x.c.decls
    ensures var r := CalcLogical(x.c, st, gr.cs);
      r.v == Mode(x, gr) && (r.st == st || r.st == Put(st, gr.cs, At(st, gr.cs).(write := true)))
  {
    GroupOutside(x, gr);
    assert st.modulesVal == Mods(x);
    hide WellRanked, Shape, Sound, VisibleIn, DirDepIn, RevDepIn, ImpliedIn;
  }

  lemma ModeIsTwoValued(x: Context, gr: Group)
    requires WellRanked(x.c, x.g) && Shape(x, gr)
    ensures Mode(x, gr) != MOD
  {
    GroupOutside(x, gr);
    hide WellRanked, Shape, VisibleIn, DirDepIn, RevDepIn, ImpliedIn;
  }

  lemma {:induction false} CurrentOfChoice(x: Context, gr: Group, st: State)
    requires WellRanked(x.c, x.g) && Shape(x, gr) && Sound(x, st) && At(st, gr.cs).valid
    requires At(st, gr.cs) == SurveyedChoice(x, gr, At(st, gr.cs)) && At(st, gr.cs).user == gr.user
    ensures gr.cs in x.c.decls
    ensures var st' := CalcCurrent(x.c, st, gr.cs);
      Within(x, gr, st, st') && Done(x, gr, st') && At(st', gr.cs).pending == At(st, gr.cs).pending
    decreases 0, 10
  {
    hide WellRanked, Shape, Sound, Within, SurveyedChoice, Mode, Selected, CalcLogical, CalcChoice, Seen;
    GroupOutside(x, gr);
    ModeIsTwoValued(x, gr);
    var cs := gr.cs;
    var l := CalcLogical(x.c, st, cs);
    LogicalOfChoice(x, gr, st);
    OutsideIsWithin(x, gr, st, st);
    if l.st != st {
      PutChoice(x, gr, st, At(st, cs).(write := true));
    }
    WithinSound(x, gr, st, l.st);
    var cell := At(l.st, cs).(curr := Val(l.v, "n"), chosen := None);
    var st1 := Put(l.st, cs, cell);
    PutCell(x, gr, st, l.st, cell);
    if l.v == YES {
      SelectCorrect(x, gr, st1);
      var r := CalcChoice(x.c, st1, cs, gr.ms);
      WithinTrans(x, gr, st, st1, r.st);
      WithinSound(x, gr, st, r.st);
      PutCell(x, gr, st, r.st, At(r.st, cs).(chosen := r.v));
      SeenStays(x, gr, r.st, At(r.st, cs).(chosen := r.v));
    }
  }

  // A change of the cell of the choice after others.
  lemma PutCell(x: Context, gr: Group, st: State, st1: State, cell: Cell)
    requires WellRanked(x.c, x.g) && Shape(x, gr) && Within(x, gr, st, st1) && cell.valid
    ensures Within(x, gr, st, Put(st1, gr.cs, cell)) && Sound(x, Put(st1, gr.cs, cell))
    ensures At(Put(st1, gr.cs, cell), gr.cs) == cell
  {
    PutChoice(x, gr, st1, cell);
    WithinTrans(x, gr, st, st1, Put(st1, gr.cs, cell));
  }

  lemma {:induction false} WriteMembersWithin(x: Context, gr: Group, st: State, ms: seq<Sym>)
    requires WellRanked(x.c, x.g) && Shape(x, gr) && Sound(x, st) && At(st, gr.cs).valid && forall m <- ms :: m in gr.ms
    ensures var st' := WriteMembers(x.c, st, ms);
      Within(x, gr, st, st') && At(st', gr.cs) == At(st, gr.cs) && forall t :: At(st', t).visible == At(st, t).visible
    decreases |ms|
  {
    if ms == [] {
      OutsideIsWithin(x, gr, st, st);
    } else {
      var m := ms[0];
      var cell := At(st, m).(write := true);
      var st1 := if At(st, m).visible != NO then Put(st, m, cell) else st;
      OutsideIsWithin(x, gr, st, st);
      PutMember(x, gr, st, m, cell);
      WithinSound(x, gr, st, st1);
      hide WellRanked, Shape, Sound, Within;
      assert forall t :: At(st1, t).visible == At(st, t).visible;
      WriteMembersWithin(x, gr, st1, ms[1..]);
      WithinTrans(x, gr, st, st1, WriteMembers(x.c, st, ms));
    }
  }

  lemma {:induction false} FinishOfChoice(x: Context, gr: Group, st: State)
    requires WellRanked(x.c, x.g) && Shape(x, gr) && Sound(x, st) && Done(x, gr, st) && !At(st, gr.cs).pending
    ensures gr.cs in x.c.decls
    ensures var st' := Finish(x.c, st, gr.cs);
      Within(x, gr, st, st') && Done(x, gr, st')
  {
    GroupOutside(x, gr);
    hide WellRanked, Shape, Sound, Within, ChoiceTri, Selected;
    var cs := gr.cs;
    OutsideIsWithin(x, gr, st, st);
    WriteMembersWithin(x, gr, st, gr.ms);
    var st1 := if At(st, cs).write then WriteMembers(x.c, st, gr.ms) else st;
    assert At(st1, cs) == At(st, cs);
    PutCell(x, gr, st, st1, At(st1, cs).(write := false));
    DoneStays(x, gr, st, st1);
    DoneKept(x, gr, st1, At(st1, cs).(write := false));
  }

  // Only the mark of the choice changes.
  lemma DoneKept(x: Context, gr: Group, st: State, cell: Cell)
    requires WellRanked(x.c, x.g) && Shape(x, gr) && Done(x, gr, st)
    requires cell == At(st, gr.cs).(write := cell.write)
    ensures Done(x, gr, Put(st, gr.cs, cell))
  {
    GroupOutside(x, gr);
    hide WellRanked, Shape, MemberVisible, Selected, ChoiceTri;
  }

  /** Evaluating the choice gives it the value and the selected member it should have. */
  lemma {:induction false} ChoiceCorrect(x: Context, gr: Group, st: State)
    requires WellRanked(x.c, x.g) && Shape(x, gr) && Stage(x, gr, st, ChoiceTri(x, gr)) && !At(st, gr.cs).valid
    ensures var st' := CalcValue(x.c, st, gr.cs);
      Sound(x, st') && Moved(x, gr, st, st') && Done(x, gr, st')
    decreases 1, 0
  {
    hide WellRanked, Shape, Sound, Within, Stage, Done, Moved, ChoiceTri, Selected, SurveyedChoice;
    hide CalcVisibility, CalcCurrent, Finish;
    GroupOutside(x, gr);
    WaitingFacts(x, gr, st);
    var c, cs := x.c, gr.cs;
    var cell1 := At(st, cs).(valid := true, write := false);
    var st1 := Put(SetValid(c, st, cs), cs, cell1);
    assert st1 == Put(st, cs, cell1);
    PutChoice(x, gr, st, cell1);
    WithinSound(x, gr, st, st1);
    SurveyChoice(x, gr, st1);
    var st2 := CalcVisibility(c, st1, cs);
    WithinTrans(x, gr, st, st1, st2);
    SurveyedUser(x, gr, cell1);
    var cell2 := At(st2, cs);
    var cell3 := cell2.(write := cell2.write || cell2.visible != NO, curr := Unset(cs), chosen := None);
    var st3 := Put(st2, cs, cell3);
    SurveyedStays(x, gr, At(st1, cs), cell3);
    PutCell(x, gr, st, st2, cell3);
    CurrentOfChoice(x, gr, st3);
    var st4 := CalcCurrent(c, st3, cs);
    WithinTrans(x, gr, st, st3, st4);
    WithinSound(x, gr, st, st4);
    FinishOfChoice(x, gr, st4);
    var st5 := Finish(c, st4, cs);
    WithinTrans(x, gr, st, st4, st5);
    assert CalcValue(c, st, cs) == st5;
    WithinIsMoved(x, gr, st, st5);
  }

  lemma WaitingFacts(x: Context, gr: Group, st: State)
    requires WellRanked(x.c, x.g) && Shape(x, gr) && Stage(x, gr, st, ChoiceTri(x, gr)) && !At(st, gr.cs).valid
    ensures Sound(x, st) && At(st, gr.cs).user == gr.user && !At(st, gr.cs).pending && At(st, gr.cs).curr.tri != MOD
  {
  }

  lemma SurveyedUser(x: Context, gr: Group, cell: Cell)
    requires WellRanked(x.c, x.g) && Shape(x, gr)
    ensures var cell' := SurveyedChoice(x, gr, cell);
      cell'.user == cell.user && cell'.pending == cell.pending && cell'.valid == cell.valid
  {
  }

  lemma SurveyedStays(x: Context, gr: Group, cell: Cell, cell': Cell)
    requires WellRanked(x.c, x.g) && Shape(x, gr)
    requires cell' == SurveyedChoice(x, gr, cell).(write := cell'.write, curr := cell'.curr, chosen := cell'.chosen)
    ensures cell' == SurveyedChoice(x, gr, cell')
  {
    hide WellRanked, Shape, VisibleIn, DirDepIn, RevDepIn, ImpliedIn;
  }

  lemma WithinIsMoved(x: Context, gr: Group, st: State, st': State)
    requires WellRanked(x.c, x.g) && Shape(x, gr) && Within(x, gr, st, st') && !At(st, gr.cs).valid && Done(x, gr, st')
    ensures Moved(x, gr, st, st') && Sound(x, st')
  {
  }

  // ----- the evaluation of a member -----

  /** The value a member should have. */
  ghost function MemberTri(x: Context, gr: Group, m: Sym): Tri
    requires WellRanked(x.c, x.g) && Shape(x, gr)
  {
    if ChoiceTri(x, gr) == YES && Selected(x, gr) == Some(m) then YES else NO
  }

  // A member that nothing selects or implies; if it was evaluated it has its value.
  ghost predicate MemberOk(x: Context, gr: Group, st: State, m: Sym, busy: bool)
    requires WellRanked(x.c, x.g) && Shape(x, gr)
  {
    var cell := At(st, m);
    !cell.pending && cell.dirDep == NO && cell.revDep == NO && cell.implied == NO &&
    (cell.valid && !busy ==> cell.curr.tri == MemberTri(x, gr, m))
  }

  /** What holds between evaluations, and, except for the symbol busy, during them. */
  ghost predicate GroupOk(x: Context, gr: Group, st: State, busy: Option<Sym>)
    requires WellRanked(x.c, x.g) && Shape(x, gr)
  {
    Stage(x, gr, st, ChoiceTri(x, gr)) && (At(st, gr.cs).valid ==> Done(x, gr, st)) &&
    forall m <- gr.ms :: MemberOk(x, gr, st, m, busy == Some(m))
  }

  // Every symbol of the group that was evaluated in st was evaluated in st'.
  predicate NoneLost(gr: Group, st: State, st': State) {
    (At(st, gr.cs).valid ==> At(st', gr.cs).valid) && forall m <- gr.ms :: At(st, m).valid ==> At(st', m).valid
  }

  // The same members were evaluated.
  predicate SameValid(gr: Group, st: State, st': State) {
    forall m <- gr.ms :: At(st', m).valid == At(st, m).valid
  }

  lemma MovedIsOk(x: Context, gr: Group, st: State, st': State, busy: Option<Sym>)
    requires WellRanked(x.c, x.g) && Shape(x, gr) && GroupOk(x, gr, st, busy)
    requires Moved(x, gr, st, st') && Stage(x, gr, st', ChoiceTri(x, gr))
    ensures GroupOk(x, gr, st', busy) && NoneLost(gr, st, st') && SameValid(gr, st, st')
  {
    hide WellRanked, Shape, Sound, ChoiceTri, Selected, MemberTri;
    forall m | m in gr.ms ensures MemberOk(x, gr, st', m, busy == Some(m)) {
      assert MemberOk(x, gr, st, m, busy == Some(m));
    }
    GroupOutside(x, gr);
  }

  // The cell of the member m changes.
  lemma PutMemberOk(x: Context, gr: Group, st: State, m: Sym, cell: Cell, was: Option<Sym>, busy: Option<Sym>)
    requires WellRanked(x.c, x.g) && Shape(x, gr) && GroupOk(x, gr, st, was) && m in gr.ms
    requires (was == None || was == Some(m)) && (busy == None || busy == Some(m))
    requires !cell.pending && cell.dirDep == NO && cell.revDep == NO && cell.implied == NO && cell.valid
    requires busy == None ==> cell.curr.tri == MemberTri(x, gr, m)
    requires m in x.c.decls && (cell.visible == At(st, m).visible || cell.visible == MemberVisible(x, gr, m, ChoiceTri(x, gr)))
    ensures GroupOk(x, gr, Put(st, m, cell), busy) && NoneLost(gr, st, Put(st, m, cell))
    ensures At(Put(st, m, cell), m) == cell && At(Put(st, m, cell), gr.cs) == At(st, gr.cs)
  {
    hide WellRanked, Shape, Sound, ChoiceTri, Selected, MemberTri, IsOutside;
    MemberIsOutside(x, gr, m);
    PutIsSound(x, st, m, cell);
    GroupOutside(x, gr);
    var st' := Put(st, m, cell);
    forall m' | m' in gr.ms ensures MemberOk(x, gr, st', m', busy == Some(m')) {
      assert MemberOk(x, gr, st, m', was == Some(m'));
    }
  }

  // Where the choice is n no member shows.
  lemma {:induction false} HiddenWithoutChoice(x: Context, gr: Group, ps: seq<Dep>)
    requires WellRanked(x.c, x.g) && gr.cs.Var? && TypeOf(gr.cs).Boolean? && MemberPrompts(x, gr.cs, ps)
    ensures MaxPrompts(ps, GroupEnv(x, gr, NO), NO) == NO
  {
    if ps != [] {
      assert ps[0] in ps;
      PromptMentionsChoice(x, gr, ps[0], NO);
      HiddenWithoutChoice(x, gr, ps[1..]);
    }
  }

  // The visibility of a member in the value v of the choice, and what follows for its value.
  lemma {:induction false} VisibleMember(x: Context, gr: Group, m: Sym)
    requires WellRanked(x.c, x.g) && Shape(x, gr) && m in gr.ms
    ensures m in x.c.decls
    ensures var visible := MemberVisible(x, gr, m, ChoiceTri(x, gr));
      visible != MOD && (visible == YES ==> ChoiceTri(x, gr) == YES) && (visible == NO ==> MemberTri(x, gr, m) == NO)
  {
    GroupOutside(x, gr);
    if ChoiceTri(x, gr) == NO {
      assert MemberPrompts(x, gr.cs, x.c.decls[m].prompts);
      HiddenWithoutChoice(x, gr, x.c.decls[m].prompts);
    } else {
      ShownIsVisible(x, gr, m);
    }
  }

  lemma {:induction false} LogicalOfMember(x: Context, gr: Group, st: State, m: Sym)
    requires WellRanked(x.c, x.g) && Shape(x, gr) && m in gr.ms
    requires At(st, m).dirDep == NO && At(st, m).revDep == NO && At(st, m).implied == NO
    requires At(st, m).visible == MemberVisible(x, gr, m, ChoiceTri(x, gr))
    requires At(st, m).visible != NO ==> Done(x, gr, st)
    ensures m in x.c.decls
    ensures CalcLogical(x.c, st, m) == Result(st, MemberTri(x, gr, m))
  {
    GroupOutside(x, gr);
    VisibleMember(x, gr, m);
    hide WellRanked, Shape, MemberVisible, Selected;
    assert x.c.decls[m].role == Member(gr.cs);
    if At(st, m).visible == NO {
      assert FindDefault(x.c, st, x.c.decls[m].defaults) == Result(st, None);
      assert CalcDefault(x.c, st, m) == Result(st, NO);
    } else {
      assert At(st, gr.cs).chosen == Selected(x, gr);
    }
  }

  // The prompts of a member that is being evaluated.
  lemma {:induction false} PromptsAsked(x: Context, gr: Group, st: State, m: Sym)
    requires WellRanked(x.c, x.g) && Shape(x, gr) && GroupOk(x, gr, st, Some(m)) && m in gr.ms && At(st, m).valid
    ensures m in x.c.decls
    ensures var p := CalcPrompts(x.c, st, m, x.c.decls[m].prompts, NO);
      GroupOk(x, gr, p.st, Some(m)) && NoneLost(gr, st, p.st) && SameValid(gr, st, p.st) && NodesKept(x, st, p.st) &&
      p.v == MaxPrompts(x.c.decls[m].prompts, GroupEnv(x, gr, ChoiceTri(x, gr)), NO) &&
      (p.v != NO ==> Done(x, gr, p.st)) && At(p.st, m).curr == At(st, m).curr && p.st.modulesVal == Mods(x) &&
      (At(st, gr.cs).valid ==> OnlyMember(x, m, st, p.st) && At(p.st, m) == At(st, m))
  {
    GroupOutside(x, gr);
    var ps, v := x.c.decls[m].prompts, ChoiceTri(x, gr);
    assert MemberPrompts(x, gr.cs, ps);
    PromptsOfMember(x, gr, st, m, ps, NO, v);
    var p := CalcPrompts(x.c, st, m, ps, NO);
    StageFacts(x, gr, p.st, v);
    hide WellRanked, Shape, Stage, ChoiceTri, Selected, MemberTri, Done, MemberOk;
    MovedIsOk(x, gr, st, p.st, Some(m));
  }

  // The visibility of a member that is being evaluated.
  lemma {:induction false} SurveyMember(x: Context, gr: Group, st: State, m: Sym)
    requires WellRanked(x.c, x.g) && Shape(x, gr) && GroupOk(x, gr, st, Some(m)) && m in gr.ms && At(st, m).valid
    ensures m in x.c.decls
    ensures var st' := CalcVisibility(x.c, st, m);
      GroupOk(x, gr, st', Some(m)) && NoneLost(gr, st, st') &&
      At(st', m).visible == MemberVisible(x, gr, m, ChoiceTri(x, gr)) &&
      (At(st', m).visible != NO ==> Done(x, gr, st')) && At(st', m).curr == At(st, m).curr && SameValid(gr, st, st') &&
      NodesKept(x, st, st') &&
      (At(st, gr.cs).valid ==> OnlyMember(x, m, st, st') && At(st', m).write == At(st, m).write)
  {
    GroupOutside(x, gr);
    PromptsAsked(x, gr, st, m);
    var p := CalcPrompts(x.c, st, m, x.c.decls[m].prompts, NO);
    var cell := At(p.st, m).(visible := MemberVisible(x, gr, m, ChoiceTri(x, gr)));
    var st' := Put(p.st, m, cell);
    assert CalcVisibility(x.c, st, m) == st';
    hide WellRanked, Shape, Stage, ChoiceTri, Selected, MemberTri, CalcPrompts, CalcVisibility;
    assert MemberOk(x, gr, p.st, m, true);
    PutMemberOk(x, gr, p.st, m, cell, Some(m), Some(m));
    hide GroupOk, MemberOk;
    VisibleIsDone(x, gr, p.st, m, p.v);
  }

  // Where a prompt of the member shows the choice was evaluated, and stays so.
  lemma VisibleIsDone(x: Context, gr: Group, st: State, m: Sym, v: Tri)
    requires WellRanked(x.c, x.g) && Shape(x, gr) && m in gr.ms && m in x.c.decls && (v != NO ==> Done(x, gr, st))
    requires v == MaxPrompts(x.c.decls[m].prompts, GroupEnv(x, gr, ChoiceTri(x, gr)), NO)
    ensures var visible := MemberVisible(x, gr, m, ChoiceTri(x, gr));
      visible != NO ==> Done(x, gr, Put(st, m, At(st, m).(visible := visible)))
  {
    GroupOutside(x, gr);
    hide WellRanked, Shape, Selected;
  }

  lemma StageFacts(x: Context, gr: Group, st: State, v: Tri)
    requires WellRanked(x.c, x.g) && Shape(x, gr) && Stage(x, gr, st, v)
    ensures st.modulesVal == Mods(x) && Sound(x, st)
  {
  }

  // Outside of the acyclic part only the cell of m changed.
  ghost predicate OnlyMember(x: Context, m: Sym, st: State, st': State) {
    forall t :: t != m && t !in x.g.nodes ==> At(st', t) == At(st, t)
  }

  // Only the cell of m changed.
  ghost predicate OnlyCell(m: Sym, st: State, st': State) {
    forall t :: t != m ==> At(st', t) == At(st, t)
  }

  // What was evaluated in the acyclic part is as it was.
  ghost predicate NodesKept(x: Context, st: State, st': State) {
    forall t <- x.g.nodes :: At(st, t).valid ==> At(st', t) == At(st, t)
  }

  // What the evaluation of a member leaves in its cell: it is marked to be written if it shows.
  ghost predicate Evaluated(x: Context, gr: Group, st: State, m: Sym)
    requires WellRanked(x.c, x.g) && Shape(x, gr)
  {
    m in x.c.decls && At(st, m).valid && At(st, m).visible == MemberVisible(x, gr, m, ChoiceTri(x, gr)) &&
    (At(st, m).visible != NO ==> Done(x, gr, st) && (At(st, m).write <==> !x.c.decls[m].noWrite))
  }

  /** Evaluating a member gives it the value it should have. */
  lemma {:induction false} MemberCorrect(x: Context, gr: Group, st: State, m: Sym)
    requires WellRanked(x.c, x.g) && Shape(x, gr) && GroupOk(x, gr, st, None) && m in gr.ms && !At(st, m).valid
    ensures var st' := CalcValue(x.c, st, m);
      GroupOk(x, gr, st', None) && NoneLost(gr, st, st') && Evaluated(x, gr, st', m) &&
      (At(st, gr.cs).valid ==> OnlyMember(x, m, st, st')) && SameValid(gr, Put(st, m, At(st, m).(valid := true)), st') &&
      NodesKept(x, st, st')
  {
    hide WellRanked, Shape, Stage, Moved, Done, ChoiceTri, Selected, MemberTri, MemberVisible, CalcVisibility, CalcLogical;
    hide RestOfBody, CalcValue;
    GroupOutside(x, gr);
    assert MemberOk(x, gr, st, m, false);
    ValueOfMember(x.c, st, m);
    var cell1 := At(st, m).(valid := true, write := false);
    var st1 := Put(st, m, cell1);
    PutMemberOk(x, gr, st, m, cell1, None, Some(m));
    SurveyMember(x, gr, st1, m);
    RestOfMember(x, gr, CalcVisibility(x.c, st1, m), m);
  }

  lemma ValueOfMember(c: Config, st: State, m: Sym)
    requires m.Var? && m in c.decls && !At(st, m).valid && !At(st, m).pending && !TypeOf(m).Unknown?
    ensures CalcValue(c, st, m) == RestOfBody(c, CalcVisibility(c, Put(st, m, At(st, m).(valid := true, write := false)), m), m)
  {
    hide CalcVisibility, CalcCurrent, Finish;
    assert Put(SetValid(c, st, m), m, At(st, m).(valid := true, write := false)) ==
           Put(st, m, At(st, m).(valid := true, write := false));
  }

  // The part of the evaluation after the visibility was calculated.
  ghost function RestOfBody(c: Config, st: State, s: Sym): State
    requires s in c.decls
  {
    var write := At(st, s).write || At(st, s).visible != NO;
    Finish(c, CalcCurrent(c, Put(st, s, At(st, s).(write := write, curr := Unset(s), chosen := None)), s), s)
  }

  lemma {:induction false} RestOfMember(x: Context, gr: Group, st: State, m: Sym)
    requires WellRanked(x.c, x.g) && Shape(x, gr) && GroupOk(x, gr, st, Some(m)) && m in gr.ms && At(st, m).valid
    requires m in x.c.decls && At(st, m).visible == MemberVisible(x, gr, m, ChoiceTri(x, gr))
    requires At(st, m).visible != NO ==> Done(x, gr, st)
    ensures var st' := RestOfBody(x.c, st, m);
      GroupOk(x, gr, st', None) && NoneLost(gr, st, st') && Evaluated(x, gr, st', m) && OnlyCell(m, st, st')
  {
    hide WellRanked, Shape, Stage, Moved, Done, ChoiceTri, Selected, MemberTri, MemberVisible, CalcLogical;
    GroupOutside(x, gr);
    assert MemberOk(x, gr, st, m, true);
    var cell3 := At(st, m).(write := At(st, m).write || At(st, m).visible != NO, curr := Unset(m), chosen := None);
    var st3 := Put(st, m, cell3);
    PutMemberOk(x, gr, st, m, cell3, Some(m), Some(m));
    DoneStays(x, gr, st, st3);
    LogicalOfMember(x, gr, st3, m);
    var cell4 := cell3.(curr := Val(MemberTri(x, gr, m), "n"));
    var st4 := Put(st3, m, cell4);
    assert CalcCurrent(x.c, st3, m) == st4;
    PutMemberOk(x, gr, st3, m, cell4, Some(m), None);
    DoneStays(x, gr, st3, st4);
    FinishOfMember(x, gr, st4, m);
  }

  lemma FinishOfMember(x: Context, gr: Group, st: State, m: Sym)
    requires WellRanked(x.c, x.g) && Shape(x, gr) && GroupOk(x, gr, st, None) && m in gr.ms && At(st, m).valid
    requires m in x.c.decls && At(st, m).visible == MemberVisible(x, gr, m, ChoiceTri(x, gr))
    requires At(st, m).visible != NO ==> Done(x, gr, st) && At(st, m).write
    ensures var st' := Finish(x.c, st, m);
      GroupOk(x, gr, st', None) && NoneLost(gr, st, st') && Evaluated(x, gr, st', m) && OnlyCell(m, st, st')
  {
    hide WellRanked, Shape, Stage, Done, MemberTri, MemberVisible, ChoiceTri;
    GroupOutside(x, gr);
    DoneStays(x, gr, st, Put(st, m, At(st, m).(write := false)));
    assert MemberOk(x, gr, st, m, false);
    var cell := At(st, m).(write := false);
    PutMemberOk(x, gr, st, m, cell, None, None);
    assert Finish(x.c, st, m) == if x.c.decls[m].noWrite then Put(st, m, cell) else st;
  }

  lemma DoneStays(x: Context, gr: Group, st: State, st': State)
    requires WellRanked(x.c, x.g) && Shape(x, gr) && At(st', gr.cs) == At(st, gr.cs)
    requires forall m <- gr.ms :: At(st', m).visible == At(st, m).visible
    ensures Done(x, gr, st) ==> Done(x, gr, st')
  {
  }

  // ----- any order -----

  // Evaluating any symbol of the group or of the acyclic part.
  lemma {:induction false} AskGroup(x: Context, gr: Group, st: State, s: Sym)
    requires WellRanked(x.c, x.g) && Shape(x, gr) && GroupOk(x, gr, st, None)
    requires s == gr.cs || s in gr.ms || s in x.g.nodes
    ensures var st' := CalcValue(x.c, st, s);
      GroupOk(x, gr, st', None) && NoneLost(gr, st, st') && At(st', s).valid
  {
    if At(st, s).valid {
    } else if s in gr.ms {
      MemberCorrect(x, gr, st, s);
    } else {
      var v := ChoiceTri(x, gr);
      SymbolIsOver(x, gr, s);
      hide WellRanked, Shape, Stage, Moved, Done, ChoiceTri, MemberOk, Over;
      OperandInGroup(x, gr, st, s, v);
      MovedIsOk(x, gr, st, CalcValue(x.c, st, s), None);
    }
  }

  lemma SymbolIsOver(x: Context, gr: Group, s: Sym)
    requires s == gr.cs || s in x.g.nodes
    ensures Over(x, {gr.cs}, {s})
  {
  }

  lemma {:induction false} AskAllOfGroup(x: Context, gr: Group, st: State, order: seq<Sym>)
    requires WellRanked(x.c, x.g) && Shape(x, gr) && GroupOk(x, gr, st, None)
    requires forall s <- order :: s == gr.cs || s in gr.ms || s in x.g.nodes
    ensures var st' := AskAll(x.c, st, order);
      GroupOk(x, gr, st', None) && NoneLost(gr, st, st') &&
      forall s <- order :: s == gr.cs || s in gr.ms ==> At(st', s).valid
    decreases |order|
  {
    if order != [] {
      hide WellRanked, Shape, GroupOk, CalcValue;
      AskGroup(x, gr, st, order[0]);
      AskAllOfGroup(x, gr, CalcValue(x.c, st, order[0]), order[1..]);
    }
  }

  /** A state after the user changed values: nothing of the group is pending, and nothing outside
      choices is recorded about it. */
  ghost predicate Waiting(x: Context, gr: Group, st: State) {
    At(st, gr.cs).user == gr.user && !At(st, gr.cs).pending && At(st, gr.cs).curr.tri != MOD &&
    forall m <- gr.ms ::
      !At(st, m).pending && At(st, m).dirDep == NO && At(st, m).revDep == NO && At(st, m).implied == NO
  }

  lemma {:induction false} ClearedIsOk(x: Context, gr: Group, st: State)
    requires WellRanked(x.c, x.g) && Shape(x, gr) && Waiting(x, gr, st) && UsersAre(x.g, st, x.users) && Wired(x.c, st)
    ensures GroupOk(x, gr, ClearAllValid(x.c, st), None)
  {
    ClearIsSound(x, st);
    ClearOutside(x, st);
    var st0, st' := Invalidate(st), ClearAllValid(x.c, st);
    hide WellRanked, Sound, UsersAre, Wired, ClearAllValid;
    GroupOutside(x, gr);
    hide Shape, ChoiceTri;
    assert At(st', gr.cs) == At(st0, gr.cs);
    forall m | m in gr.ms ensures MemberOk(x, gr, st', m, false) {
      assert At(st', m) == At(st0, m);
    }
  }

  // sym_clear_all_valid evaluates nothing outside the acyclic part.
  lemma {:induction false} ClearOutside(x: Context, st: State)
    requires WellRanked(x.c, x.g) && UsersAre(x.g, st, x.users)
    ensures forall t :: t !in x.g.nodes ==> At(ClearAllValid(x.c, st), t) == At(Invalidate(st), t)
  {
    var m := x.c.modules;
    if m.Var? && m in x.c.decls {
      CalcValueCorrect(x, Invalidate(st), m, x.g.rank[m] + 1, false);
    }
  }

  /** Whatever was cached before, evaluating the choice and its members in any order gives the choice
      its value, makes the selected member y and all others n: the member picked by the user if it
      shows, and no member at all if none shows or the choice is not y. */
  lemma {:induction false} OneMemberSelected(x: Context, gr: Group, st: State, order: seq<Sym>)
    requires WellRanked(x.c, x.g) && Shape(x, gr) && Waiting(x, gr, st) && UsersAre(x.g, st, x.users) && Wired(x.c, st)
    requires gr.cs in order && forall m <- gr.ms :: m in order
    requires forall s <- order :: s == gr.cs || s in gr.ms || s in x.g.nodes
    ensures var st' := AskAll(x.c, ClearAllValid(x.c, st), order);
      if Mode(x, gr) == YES && exists m <- gr.ms :: m in x.c.decls && Shown(x, gr, m) then
        At(st', gr.cs).curr.tri == YES &&
        (exists w <- gr.ms :: forall m <- gr.ms :: At(st', m).curr.tri == if m == w then YES else NO) &&
        (gr.user.pick.Some? && gr.user.pick.value in x.c.decls && Shown(x, gr, gr.user.pick.value) ==>
           At(st', gr.user.pick.value).curr.tri == YES)
      else
        At(st', gr.cs).curr.tri == NO && forall m <- gr.ms :: At(st', m).curr.tri == NO
  {
    hide *;
    var st' := AskAll(x.c, ClearAllValid(x.c, st), order);
    GroupValues(x, gr, st, order);
    SelectionIsUnique(x, gr);
    ghost var w := Selected(x, gr);
    if w.Some? {
      assert (forall m <- gr.ms :: MemberTri(x, gr, m) == if m == w.value then YES else NO) ==>
        forall m <- gr.ms :: At(st', m).curr.tri == if m == w.value then YES else NO;
    }
  }

  lemma SelectionIsUnique(x: Context, gr: Group)
    requires WellRanked(x.c, x.g) && Shape(x, gr)
    ensures var w := Selected(x, gr);
      if Mode(x, gr) == YES && exists m <- gr.ms :: m in x.c.decls && Shown(x, gr, m) then
        ChoiceTri(x, gr) == YES && w.Some? && w.value in gr.ms &&
        (forall m <- gr.ms :: MemberTri(x, gr, m) == if m == w.value then YES else NO) &&
        (var pick := gr.user.pick;
         pick.Some? && pick.value in x.c.decls && Shown(x, gr, pick.value) ==> w == pick)
      else ChoiceTri(x, gr) == NO && forall m <- gr.ms :: MemberTri(x, gr, m) == NO
  {
    ShapeFacts(x, gr);
    hide WellRanked, Shape, Shown, Mode;
  }

  // The values of the choice and its members after a run.
  lemma {:induction false} GroupValues(x: Context, gr: Group, st: State, order: seq<Sym>)
    requires WellRanked(x.c, x.g) && Shape(x, gr) && Waiting(x, gr, st) && UsersAre(x.g, st, x.users) && Wired(x.c, st)
    requires gr.cs in order && forall m <- gr.ms :: m in order
    requires forall s <- order :: s == gr.cs || s in gr.ms || s in x.g.nodes
    ensures var st' := AskAll(x.c, ClearAllValid(x.c, st), order);
      At(st', gr.cs).curr.tri == ChoiceTri(x, gr) && forall m <- gr.ms :: At(st', m).curr.tri == MemberTri(x, gr, m)
  {
    hide WellRanked, Shape, AskAll, ClearAllValid, Invalidate, Waiting, UsersAre, Wired, Stage, MemberTri, ChoiceTri;
    var st1 := ClearAllValid(x.c, st);
    var st' := AskAll(x.c, st1, order);
    ClearedIsOk(x, gr, st);
    AskAllOfGroup(x, gr, st1, order);
    forall m | m in gr.ms ensures At(st', m).curr.tri == MemberTri(x, gr, m) {
      assert MemberOk(x, gr, st', m, false);
    }
  }

  /** What menu_finalize makes of the prompts of a member is what is required here: the member shows
      only where the choice does. */
  lemma {:induction false} FinalizedPromptNeedsChoice(cs: Sym, dep: Dep, cond: Dep, modules: Sym)
    requires PlainDep(dep) && PlainDep(cond)
    ensures NeedsChoice(PropagateCondition(Propagate(Some(Symbol(cs)), dep, modules), cond, modules, false), cs)
  {
    var base := Propagate(Some(Symbol(cs)), dep, modules);
    forall env: Env | WellTyped(env) && Lookup(env, cs).tri == NO
      ensures EvalDep(PropagateCondition(base, cond, modules, false), env) == NO
    {
      PropagateSound(Some(Symbol(cs)), dep, modules, env);
      ConditionSound(Some(Symbol(cs)), dep, modules, false, env);
      ConditionSound(base, cond, modules, false, env);
    }
  }
}
