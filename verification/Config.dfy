// Declared symbols, their state, and the lazy evaluation of symbol.c as a function from states to
// states (sym_calc_visibility, sym_choice_default, sym_calc_choice, sym_calc_value, expr_calc_value,
// and set_all_choice_values of confdata.c).
module Config {
  import opened Tristate
  import opened Expr

  datatype Default = Default(cond: Dep, value: Expr)

  /** An optional choice may be n; optional is SYMBOL_OPTIONAL. */
  datatype Role = Plain | Choice(members: seq<Sym>, optional: bool) | Member(choice: Sym)

  /** What the Kconfig files say about a symbol. */
  datatype Decl = Decl(
    prompts: seq<Dep>,
    defaults: seq<Default>,
    dirDep: Dep,
    revDep: Dep,
    implied: Dep,
    role: Role,
    noWrite: bool)

  datatype Config = Config(decls: map<Sym, Decl>, modules: Sym)

  /** The value given by the user; has is SYMBOL_DEF_USER, pick the member chosen in a choice. */
  datatype User = User(has: bool, tri: Tri, str: string, pick: Option<Sym>)

  /** What struct symbol records about a symbol at run time; pending is
      SYMBOL_NEED_SET_CHOICE_VALUES. */
  datatype Cell = Cell(
    curr: Val,
    chosen: Option<Sym>,
    visible: Tri,
    dirDep: Tri,
    revDep: Tri,
    implied: Tri,
    valid: bool,
    write: bool,
    pending: bool,
    user: User)

  datatype State = State(cells: map<Sym, Cell>, modulesVal: Tri)

  const FRESH := Cell(Val(NO, ""), None, NO, NO, NO, NO, false, false, false, User(false, NO, "", None))

  function At(st: State, s: Sym): Cell {
    if s in st.cells then st.cells[s] else FRESH
  }

  function Put(st: State, s: Sym, cell: Cell): State {
    st.(cells := st.cells[s := cell])
  }

  // ----- the measure of the evaluation -----

  ghost function Pending(c: Config, st: State): set<Sym> {
    set s | s in c.decls && At(st, s).pending
  }

  ghost function Invalid(c: Config, st: State): set<Sym> {
    set s | s in c.decls && !At(st, s).valid
  }

  /** st' is no further from the end of the evaluation than st: fewer choices are pending, or as
      many and no more symbols are without a value. */
  ghost predicate NoFurther(c: Config, st': State, st: State) {
    |Pending(c, st')| < |Pending(c, st)| ||
    (|Pending(c, st')| == |Pending(c, st)| && |Invalid(c, st')| <= |Invalid(c, st)|)
  }

  // A change of a cell that concerns neither flag of the measure.
  function Update(c: Config, st: State, s: Sym, cell: Cell): (r: State)
    requires cell.valid == At(st, s).valid && cell.pending == At(st, s).pending
    ensures NoFurther(c, r, st) && r == Put(st, s, cell)
  {
    var r := Put(st, s, cell);
    assert Pending(c, r) == Pending(c, st);
    assert Invalid(c, r) == Invalid(c, st);
    r
  }

  function SetValid(c: Config, st: State, s: Sym): (r: State)
    requires s in c.decls
    ensures |Pending(c, r)| == |Pending(c, st)|
    ensures !At(st, s).valid ==> |Invalid(c, r)| == |Invalid(c, st)| - 1
    ensures r == Put(st, s, At(st, s).(valid := true))
  {
    var r := Put(st, s, At(st, s).(valid := true));
    assert Pending(c, r) == Pending(c, st);
    assert Invalid(c, r) == Invalid(c, st) - {s};
    r
  }

  function ClearPending(c: Config, st: State, s: Sym, valid: bool): (r: State)
    requires s in c.decls && At(st, s).pending
    ensures |Pending(c, r)| == |Pending(c, st)| - 1
    ensures r == Put(st, s, At(st, s).(pending := false, valid := valid))
  {
    var r := Put(st, s, At(st, s).(pending := false, valid := valid));
    assert Pending(c, r) == Pending(c, st) - {s};
    r
  }

  // ----- evaluation -----

  /** sym_get_type, as far as it tells a bool from a tristate. */
  predicate IsBoolNow(c: Config, st: State, s: Sym) {
    TypeOf(s).Boolean? ||
    (TypeOf(s).Tri3? &&
      ((s in c.decls && c.decls[s].role.Member? && At(st, s).visible == YES) || st.modulesVal == NO))
  }

  // m becomes y for a symbol that is a bool now.
  function Bump(c: Config, st: State, s: Sym, v: Tri): Tri {
    if v == MOD && IsBoolNow(c, st, s) then YES else v
  }

  /** The value recorded for a symbol; constants and undeclared symbols have fixed values. */
  function Current(c: Config, st: State, s: Sym): Val {
    if s.Var? && s in c.decls then At(st, s).curr else Lookup(map[], s)
  }

  datatype Result<T> = Result(st: State, v: T)

  /** expr_calc_value. */
  function CalcExpr(c: Config, st: State, e: Expr): (r: Result<Tri>)
    ensures NoFurther(c, r.st, st)
    decreases |Pending(c, st)|, |Invalid(c, st)|, 2, Size(e)
  {
    match e
    case Symbol(s) =>
      var st1 := CalcValue(c, st, s);
      Result(st1, Current(c, st1, s).tri)
    case Not(a) =>
      var r := CalcExpr(c, st, a);
      Result(r.st, Negate(r.v))
    case And(a, b) =>
      var x := CalcExpr(c, st, a);
      var y := CalcExpr(c, x.st, b);
      Result(y.st, Min(x.v, y.v))
    case Or(a, b) =>
      var x := CalcExpr(c, st, a);
      var y := CalcExpr(c, x.st, b);
      Result(y.st, Max(x.v, y.v))
    case Cmp(rel, a, b) =>
      var st1 := CalcValue(c, st, a);
      var st2 := CalcValue(c, st1, b);
      var x := StringValue(c, st2, a);
      var y := StringValue(c, x.st, b);
      Result(y.st, FromBool(Holds(rel, Compare(TypeOf(a), x.v, TypeOf(b), y.v))))
  }

  /** sym_get_string_value. */
  function StringValue(c: Config, st: State, s: Sym): (r: Result<string>)
    ensures NoFurther(c, r.st, st)
    decreases |Pending(c, st)|, |Invalid(c, st)|, 1, 0
  {
    var v := Current(c, st, s);
    if !IsLogical(s) then Result(st, v.str)
    else if v.tri == MOD then
      var st1 := CalcValue(c, st, c.modules);
      Result(st1, if Current(c, st1, c.modules).tri == NO then "n" else "m")
    else Result(st, Letter(v.tri))
  }

  function CalcDep(c: Config, st: State, d: Dep, missing: Tri): (r: Result<Tri>)
    ensures NoFurther(c, r.st, st)
    decreases |Pending(c, st)|, |Invalid(c, st)|, 3, 0
  {
    if d.None? then Result(st, missing) else CalcExpr(c, st, d.value)
  }

  // The highest visibility among the prompts ps, at least acc.
  function CalcPrompts(c: Config, st: State, s: Sym, ps: seq<Dep>, acc: Tri): (r: Result<Tri>)
    ensures NoFurther(c, r.st, st)
    decreases |Pending(c, st)|, |Invalid(c, st)|, 4, |ps|
  {
    if ps == [] then Result(st, acc)
    else
      var r := CalcDep(c, st, ps[0], YES);
      var hidden := s in c.decls && c.decls[s].role.Member? && TypeOf(s).Tri3? && r.v == MOD &&
        Current(c, r.st, c.decls[s].role.choice).tri == YES;
      CalcPrompts(c, r.st, s, ps[1..], Max(acc, if hidden then NO else r.v))
  }

  /** sym_calc_visibility. */
  function CalcVisibility(c: Config, st: State, s: Sym): (r: State)
    requires s in c.decls
    ensures NoFurther(c, r, st)
    decreases |Pending(c, st)|, |Invalid(c, st)|, 6, 0
  {
    var p := CalcPrompts(c, st, s, c.decls[s].prompts, NO);
    var visible := if p.v == MOD && (!TypeOf(s).Tri3? || p.st.modulesVal == NO) then YES else p.v;
    var st1 := Update(c, p.st, s, At(p.st, s).(visible := visible));
    if c.decls[s].role.Member? then st1
    else CalcImplied(c, CalcRevDep(c, CalcDirDep(c, st1, s), s), s)
  }

  function CalcDirDep(c: Config, st: State, s: Sym): (r: State)
    requires s in c.decls
    ensures NoFurther(c, r, st)
    decreases |Pending(c, st)|, |Invalid(c, st)|, 5, 0
  {
    var x := CalcDep(c, st, c.decls[s].dirDep, YES);
    Update(c, x.st, s, At(x.st, s).(dirDep := Bump(c, x.st, s, x.v)))
  }

  function CalcRevDep(c: Config, st: State, s: Sym): (r: State)
    requires s in c.decls
    ensures NoFurther(c, r, st)
    decreases |Pending(c, st)|, |Invalid(c, st)|, 5, 0
  {
    var x := CalcDep(c, st, c.decls[s].revDep, NO);
    Update(c, x.st, s, At(x.st, s).(revDep := Bump(c, x.st, s, x.v)))
  }

  function CalcImplied(c: Config, st: State, s: Sym): (r: State)
    requires s in c.decls
    ensures NoFurther(c, r, st)
    decreases |Pending(c, st)|, |Invalid(c, st)|, 5, 0
  {
    var x := if At(st, s).dirDep != NO then CalcDep(c, st, c.decls[s].implied, NO) else Result(st, NO);
    Update(c, x.st, s, At(x.st, s).(implied := Bump(c, x.st, s, x.v)))
  }

  /** sym_get_default_prop: the first default whose condition is not n, and its condition's value. */
  function FindDefault(c: Config, st: State, ds: seq<Default>): (r: Result<Option<(Expr, Tri)>>)
    ensures NoFurther(c, r.st, st)
    decreases |Pending(c, st)|, |Invalid(c, st)|, 4, |ds|
  {
    if ds == [] then Result(st, None)
    else
      var r := CalcDep(c, st, ds[0].cond, YES);
      if r.v != NO then Result(r.st, Some((ds[0].value, r.v)))
      else FindDefault(c, r.st, ds[1..])
  }

  // The first member that is visible.
  function FirstVisible(st: State, members: seq<Sym>): (r: Option<Sym>)
    ensures r.Some? ==> r.value in members && At(st, r.value).visible != NO
    ensures r.None? ==> forall m <- members :: At(st, m).visible == NO
  {
    if members == [] then None
    else if At(st, members[0]).visible != NO then Some(members[0])
    else FirstVisible(st, members[1..])
  }

  // The first default of a choice that applies and names a visible symbol.
  function FindChoiceDefault(c: Config, st: State, ds: seq<Default>): (r: Result<Option<Sym>>)
    ensures NoFurther(c, r.st, st)
    decreases |Pending(c, st)|, |Invalid(c, st)|, 4, |ds|
  {
    if ds == [] then Result(st, None)
    else
      var r := CalcDep(c, st, ds[0].cond, YES);
      if r.v != NO && ds[0].value.Symbol? && At(r.st, ds[0].value.sym).visible != NO then
        Result(r.st, Some(ds[0].value.sym))
      else FindChoiceDefault(c, r.st, ds[1..])
  }

  /** sym_choice_default. */
  function ChoiceDefault(c: Config, st: State, s: Sym, members: seq<Sym>): (r: Result<Option<Sym>>)
    requires s in c.decls
    ensures NoFurther(c, r.st, st)
    decreases |Pending(c, st)|, |Invalid(c, st)|, 5, 0
  {
    var r := FindChoiceDefault(c, st, c.decls[s].defaults);
    if r.v.Some? then r else Result(r.st, FirstVisible(r.st, members))
  }

  // Whether every visible member has a user value, after calculating all visibilities.
  function CalcMembers(c: Config, st: State, members: seq<Sym>, all: bool): (r: Result<bool>)
    ensures NoFurther(c, r.st, st)
    decreases |Pending(c, st)|, |Invalid(c, st)|, 7, |members|
  {
    if members == [] then Result(st, all)
    else
      var m := members[0];
      var st1 := if m in c.decls then CalcVisibility(c, st, m) else st;
      CalcMembers(c, st1, members[1..], all && (At(st1, m).visible == NO || At(st1, m).user.has))
  }

  // The selected member, once the visibility of all members is known.
  function CalcPick(c: Config, st: State, s: Sym, members: seq<Sym>): (r: Result<Option<Sym>>)
    requires s in c.decls
    ensures NoFurther(c, r.st, st)
    decreases |Pending(c, st)|, |Invalid(c, st)|, 6, 0
  {
    var pick := At(st, s).user.pick;
    if pick.Some? && At(st, pick.value).visible != NO then Result(st, pick)
    else
      var r := ChoiceDefault(c, st, s, members);
      if r.v.Some? then r
      else
        Result(Update(c, r.st, s, At(r.st, s).(curr := At(r.st, s).curr.(tri := NO))), None)
  }

  /** sym_calc_choice: the selected member; without one the choice falls back to n. */
  function CalcChoice(c: Config, st: State, s: Sym, members: seq<Sym>): (r: Result<Option<Sym>>)
    requires s in c.decls
    ensures NoFurther(c, r.st, st)
    decreases |Pending(c, st)|, |Invalid(c, st)|, 8, 0
  {
    var m := CalcMembers(c, st, members, At(st, s).user.has);
    var cell := At(m.st, s);
    var st1 := Update(c, m.st, s, cell.(user := cell.user.(has := cell.user.has && m.v)));
    CalcPick(c, st1, s, members)
  }

  // A choice that is written makes its visible members written.
  function WriteMembers(c: Config, st: State, members: seq<Sym>): (r: State)
    ensures NoFurther(c, r, st)
    decreases |members|
  {
    if members == [] then st
    else
      var m := members[0];
      var st1 := if At(st, m).visible != NO then Update(c, st, m, At(st, m).(write := true)) else st;
      WriteMembers(c, st1, members[1..])
  }

  // The members without a user value get n.
  function ResetMembers(c: Config, st: State, members: seq<Sym>): (r: State)
    ensures NoFurther(c, r, st)
    ensures forall t :: At(r, t).pending == At(st, t).pending
    decreases |members|
  {
    if members == [] then st
    else
      var m := members[0];
      var st1 := if !At(st, m).user.has then Update(c, st, m, At(st, m).(user := At(st, m).user.(tri := NO))) else st;
      ResetMembers(c, st1, members[1..])
  }

  /** The value sym_calc_value computes for a bool or tristate before a choice picks a member. */
  function CalcLogical(c: Config, st: State, s: Sym): (r: Result<Tri>)
    requires s in c.decls
    ensures NoFurther(c, r.st, st)
    decreases |Pending(c, st)|, |Invalid(c, st)|, 8, 0
  {
    var d := c.decls[s];
    var r :=
      if d.role.Member? && At(st, s).visible == YES then
        Result(st, FromBool(At(st, d.role.choice).chosen == Some(s)))
      else if At(st, s).visible != NO && At(st, s).user.has then
        var v := Min(At(st, s).user.tri, At(st, s).visible);
        Result(st, Select(At(st, s), v))
      else
        var st1 := if At(st, s).revDep != NO then Update(c, st, s, At(st, s).(write := true)) else st;
        var x := if d.role.Choice? then Result(st1, NO) else CalcDefault(c, st1, s);
        Result(x.st, Select(At(x.st, s), x.v));
    Result(r.st, if r.v == MOD && (IsBoolNow(c, r.st, s) || At(r.st, s).implied == YES) then YES else r.v)
  }

  // The effect of the symbols that select this one.
  function Select(cell: Cell, v: Tri): Tri {
    if cell.dirDep == NO && cell.revDep != NO then NO else Max(v, cell.revDep)
  }

  // The value from the defaults and from the symbols that imply this one.
  function CalcDefault(c: Config, st: State, s: Sym): (r: Result<Tri>)
    requires s in c.decls
    ensures NoFurther(c, r.st, st)
    decreases |Pending(c, st)|, |Invalid(c, st)|, 7, 0
  {
    var f := FindDefault(c, st, c.decls[s].defaults);
    var d :=
      if f.v.None? then Result(f.st, NO)
      else
        var st1 := Update(c, f.st, s, At(f.st, s).(write := true));
        var x := CalcExpr(c, st1, f.v.value.0);
        Result(x.st, Min(x.v, f.v.value.1));
    if At(d.st, s).implied == NO then d
    else Result(Update(c, d.st, s, At(d.st, s).(write := true)), Max(d.v, At(d.st, s).implied))
  }

  // The text of a string symbol.
  function CalcText(c: Config, st: State, s: Sym): (r: Result<string>)
    requires s in c.decls
    ensures NoFurther(c, r.st, st)
    decreases |Pending(c, st)|, |Invalid(c, st)|, 7, 0
  {
    if At(st, s).visible != NO && At(st, s).user.has then Result(st, At(st, s).user.str)
    else
      var f := FindDefault(c, st, c.decls[s].defaults);
      if f.v.None? || !f.v.value.0.Symbol? then Result(f.st, "")
      else
        var ds := f.v.value.0.sym;
        var st1 := Update(c, f.st, s, At(f.st, s).(write := true));
        var st2 := CalcValue(c, st1, ds);
        Result(st2, Current(c, st2, ds).str)
  }

  /** sym_calc_value. The evaluation ends on every graph, cyclic or not: a symbol is marked valid
      before anything it depends on is evaluated, and only a pending choice loses the mark again. */
  function CalcValue(c: Config, st: State, s: Sym): (r: State)
    ensures NoFurther(c, r, st)
    decreases |Pending(c, st)|, |Invalid(c, st)|, 0, 0
  {
    if !s.Var? || s !in c.decls || At(st, s).valid then st
    else
      var d := c.decls[s];
      var st1 := if d.role.Member? && At(st, s).pending
                 then CalcValue(c, ClearPending(c, st, s, false), d.role.choice) else st;
      CalcBody(c, SetValid(c, st1, s), s)
  }

  // The part of sym_calc_value after the symbol was marked valid.
  function CalcBody(c: Config, st: State, s: Sym): (r: State)
    requires s in c.decls
    ensures NoFurther(c, r, st)
    decreases |Pending(c, st)|, |Invalid(c, st)|, 10, 0
  {
    if TypeOf(s).Unknown? then Update(c, st, s, At(st, s).(curr := Unset(s)))
    else
      var st1 := CalcVisibility(c, Update(c, st, s, At(st, s).(write := false)), s);
      var write := At(st1, s).write || At(st1, s).visible != NO;
      var st2 := Update(c, st1, s, At(st1, s).(write := write, curr := Unset(s), chosen := None));
      Finish(c, CalcCurrent(c, st2, s), s)
  }

  // What follows from the new value. The code assigns modules_val only when the value changed; as
  // it starts out equal and nothing else assigns it, this is the same assignment.
  function Finish(c: Config, st: State, s: Sym): (r: State)
    requires s in c.decls
    ensures NoFurther(c, r, st)
  {
    var d := c.decls[s];
    var st1 := if s == c.modules then st.(modulesVal := At(st, s).curr.tri) else st;
    assert Pending(c, st1) == Pending(c, st) && Invalid(c, st1) == Invalid(c, st);
    var st2 := if d.role.Choice? && At(st1, s).write then WriteMembers(c, st1, d.role.members) else st1;
    var st3 := if d.noWrite then Update(c, st2, s, At(st2, s).(write := false)) else st2;
    if d.role.Choice? && At(st3, s).pending then SetAllChoiceValues(c, st3, s, d.role.members) else st3
  }

  // The new value of the symbol, including the member selected in a choice.
  function CalcCurrent(c: Config, st: State, s: Sym): (r: State)
    requires s in c.decls
    ensures NoFurther(c, r, st)
    decreases |Pending(c, st)|, |Invalid(c, st)|, 9, 0
  {
    if !IsLogical(s) then
      var x := CalcText(c, st, s);
      Update(c, x.st, s, At(x.st, s).(curr := Val(NO, x.v)))
    else
      var x := CalcLogical(c, st, s);
      var st1 := Update(c, x.st, s, At(x.st, s).(curr := Val(x.v, "n"), chosen := None));
      if c.decls[s].role.Choice? && x.v == YES then
        var ch := CalcChoice(c, st1, s, c.decls[s].role.members);
        Update(c, ch.st, s, At(ch.st, s).(chosen := ch.v))
      else st1
  }

  /** set_all_choice_values. */
  function SetAllChoiceValues(c: Config, st: State, s: Sym, members: seq<Sym>): (r: State)
    requires s in c.decls && At(st, s).pending
    ensures NoFurther(c, r, st)
  {
    var st1 := ResetMembers(c, st, members);
    var st2 := Update(c, st1, s, At(st1, s).(user := At(st1, s).user.(has := true)));
    ClearPending(c, st2, s, false)
  }
}
