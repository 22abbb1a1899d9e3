// Writing and reading configuration files (kconfig_print_symbol, conf_write_symbol, the symbol
// part of conf_write_defconfig, conf_set_sym_val, conf_reset and the line loop of conf_read_simple
// of confdata.c).
module Confdata {
  import opened Tristate
  import opened Expr
  import opened Text
  import opened Config
  import opened Meaning
  import opened Evaluation
  import opened Setting
  import opened Minimal

  const CONFIG_PREFIX := "CONFIG_"
  const NOT_SET := "is not set"

  // ----- lines -----

  /** kconfig_print_symbol, printing unset symbols too. */
  function PrintLine(s: Sym, value: string): string
    requires s.Var?
  {
    if IsLogical(s) && value != [] && value[0] == 'n' then
      "# " + CONFIG_PREFIX + s.name + " " + NOT_SET + "\n"
    else CONFIG_PREFIX + s.name + "=" + value + "\n"
  }

  /** conf_write_symbol, given the value of sym_get_string_value. */
  function SymbolLine(s: Sym, value: string): string
    requires s.Var?
  {
    if s.typ.Unknown? then [] else PrintLine(s, if s.typ.String? then Escape(value) else value)
  }

  // ----- reading one line -----

  type Table = map<string, Type>

  /** sym_find. */
  function FindSym(table: Table, name: string): Option<Sym> {
    if name == "y" || name == "m" || name == "n" then Some(Const(name))
    else if name in table then Some(Var(name, table[name]))
    else None
  }

  // The position of a character, at most |s|.
  function Find(s: string, ch: char): (n: nat)
    ensures n <= |s|
  {
    if s == [] || s[0] == ch then 0 else 1 + Find(s[1..], ch)
  }

  predicate StartsWith(s: string, prefix: string) {
    |prefix| <= |s| && s[..|prefix|] == prefix
  }

  predicate AllDigits(s: string, base: nat) {
    forall ch <- s :: DigitOf(ch) < base
  }

  /** sym_string_valid, for the types stored as text. */
  predicate ValidText(typ: Type, str: string) {
    match typ
    case String => true
    case Int =>
      var t := if str != [] && str[0] == '-' then str[1..] else str;
      t != [] && AllDigits(t, 10) && (t[0] == '0' ==> |t| == 1)
    case Hex =>
      var t := if |str| >= 2 && str[0] == '0' && (str[1] == 'x' || str[1] == 'X') then str[2..] else str;
      t != [] && AllDigits(t, 16)
    case _ => false
  }

  /** conf_set_sym_val for user values; None is its error return. */
  function SetSymVal(typ: Type, u: User, p: string): Option<User> {
    var first := if p == [] then '\0' else p[0];
    match typ
    case Tri3 =>
      if first == 'm' then Some(u.(has := true, tri := MOD)) else SetBool(u, first)
    case Boolean => SetBool(u, first)
    case String =>
      if first != '"' then Some(u)
      else
        (match Unescape(p[1..])
         case None => None
         case Some(str) => Some(u.(has := true, str := str)))
    case Unknown => Some(u)
    case _ => if ValidText(typ, p) then Some(u.(has := true, str := p)) else None
  }

  function SetBool(u: User, first: char): Option<User> {
    if first == 'y' then Some(u.(has := true, tri := YES))
    else if first == 'n' then Some(u.(has := true, tri := NO))
    else None
  }

  // A member that was set changes what is recorded for its choice.
  function NoteMember(c: Config, st: State, s: Sym): State {
    if s !in c.decls || !c.decls[s].role.Member? then st
    else
      var cs := c.decls[s].role.choice;
      var tri, cu := At(st, s).user.tri, At(st, cs).user;
      var cu1 :=
        if tri == MOD && cu.tri == YES then cu.(has := false)
        else if tri == YES then cu.(pick := Some(s))
        else cu;
      Put(st, cs, At(st, cs).(user := cu1.(tri := Max(cu.tri, tri))))
  }

  function SetUser(st: State, s: Sym, u: User): State {
    Put(st, s, At(st, s).(user := u))
  }

  /** One turn of the loop of conf_read_simple. */
  function ReadLine(c: Config, table: Table, st: State, line: string): State {
    if line != [] && line[0] == '#' then
      if |line| < 2 || !StartsWith(line[2..], CONFIG_PREFIX) then st
      else
        var t := line[2 + |CONFIG_PREFIX|..];
        var n := Find(t, ' ');
        if n == |t| || !StartsWith(t[n + 1..], NOT_SET) then st
        else
          (match FindSym(table, t[..n])
           case None => st
           case Some(s) =>
             if IsLogical(s) then
               NoteMember(c, SetUser(st, s, At(st, s).user.(has := true, tri := NO)), s)
             else NoteMember(c, st, s))
    else if StartsWith(line, CONFIG_PREFIX) then
      var t := line[|CONFIG_PREFIX|..];
      var n := Find(t, '=');
      if n == |t| then st
      else
        (match FindSym(table, t[..n])
         case None => st
         case Some(s) =>
           match SetSymVal(TypeOf(s), At(st, s).user, StripEnd(t[n + 1..]))
           case None => st
           case Some(u) => NoteMember(c, SetUser(st, s, u), s))
    else st
  }

  // The text up to the newline, without a carriage return before it.
  function StripEnd(p: string): string {
    var n := Find(p, '\n');
    if n < |p| && n > 0 && p[n - 1] == '\r' then p[..n - 1] else p[..n]
  }

  function ReadLines(c: Config, table: Table, st: State, lines: seq<string>): State
    decreases |lines|
  {
    if lines == [] then st else ReadLines(c, table, ReadLine(c, table, st, lines[0]), lines[1..])
  }

  /** conf_reset: no user values, except that choices count as set. */
  function ConfReset(c: Config, st: State): State {
    st.(cells := map s | s in c.decls.Keys + st.cells.Keys :: ResetCell(c, s, At(st, s)))
  }

  function ResetCell(c: Config, s: Sym, cell: Cell): Cell {
    cell.(valid := false, user := User(s in c.decls && c.decls[s].role.Choice?, NO, "", None))
  }

  /** conf_read_simple. */
  function ReadText(c: Config, table: Table, st: State, text: string): State {
    ReadLines(c, table, ConfReset(c, st), Lines(text))
  }

  // ----- writing a minimal configuration -----

  /** The turn of the loop of conf_write_defconfig for a menu entry with a symbol. */
  function WriteStep(c: Config, st: State, s: Sym): Result<string>
    requires s.Var? && s in c.decls
  {
    if c.decls[s].role.Choice? then Result(st, [])
    else
      var st1 := CalcValue(c, st, s);
      if !At(st1, s).write then Result(st1, [])
      else WriteChanged(c, Put(st1, s, At(st1, s).(write := false)), s)
  }

  /** Whether s is the member that its choice, which must not be n, would select by default, and y. */
  function IsDefaultMember(c: Config, st: State, s: Sym): Result<bool>
    requires s in c.decls
  {
    var role := c.decls[s].role;
    if role.Member? && role.choice in c.decls && c.decls[role.choice].role.Choice? then
      var choice := c.decls[role.choice].role;
      var ds := ChoiceDefault(c, st, role.choice, choice.members);
      Result(ds.st, !choice.optional && ds.v == Some(s) && TypeOf(s).Boolean? && At(ds.st, s).curr.tri == YES)
    else Result(st, false)
  }

  // Only a symbol that can be changed and differs from its default is written.
  function WriteChanged(c: Config, st: State, s: Sym): Result<string>
    requires s.Var? && s in c.decls
  {
    if At(st, s).visible <= At(st, s).revDep then Result(st, [])
    else
      var value := StringValue(c, st, s);
      var default := StringDefault(c, value.st, s);
      if value.v == default.v then Result(default.st, [])
      else
        var picked := IsDefaultMember(c, default.st, s);
        if picked.v then Result(picked.st, [])
        else
          var again := StringValue(c, picked.st, s);
          Result(again.st, SymbolLine(s, again.v))
  }

  // Menu entries are declared symbols that were given a type.
  ghost predicate AllDeclared(c: Config, order: seq<Sym>) {
    forall s <- order :: s.Var? && s in c.decls && !s.typ.Unknown?
  }

  /** The entries in menu order; a symbol may have several. */
  function WriteAll(c: Config, st: State, order: seq<Sym>): Result<string>
    requires AllDeclared(c, order)
    decreases |order|
  {
    if order == [] then Result(st, [])
    else
      var a := WriteStep(c, st, order[0]);
      var b := WriteAll(c, a.st, order[1..]);
      Result(b.st, a.v + b.v)
  }

  function WriteDefconfig(c: Config, st: State, order: seq<Sym>): Result<string>
    requires AllDeclared(c, order)
  {
    WriteAll(c, ClearAllValid(c, st), order)
  }

  // ----- what the writer writes -----

  // Whether the evaluation of s may rely on the value of modules.
  predicate Calm(x: Context, s: Sym) {
    s != x.c.modules
  }

  lemma SoundIsInside(x: Context, st: State, s: Sym)
    requires WellRanked(x.c, x.g) && Sound(x, st) && s in x.g.nodes && At(st, s).valid
    ensures Inside(x, st, s, Calm(x, s))
  {
  }

  // Work done below a symbol whose cell ends up as it was keeps the state sound.
  lemma OwnIsSound(x: Context, st: State, st': State, s: Sym)
    requires WellRanked(x.c, x.g) && Sound(x, st) && s in x.g.nodes && At(st, s).valid
    requires Own(x, st, st', s) && At(st', s) == At(st, s)
    ensures Sound(x, st')
    ensures forall t <- x.g.nodes :: At(st, t).valid ==> At(st', t) == At(st, t)
    ensures forall t :: t !in x.g.nodes ==> At(st', t) == At(st, t)
  {
    hide True, Records;
    forall t | t in x.g.nodes && At(st', t).valid
      ensures Records(st', t, True(x, t), x.cleared)
    {
      if x.g.rank[t] >= x.g.rank[s] {
        assert At(st', t) == At(st, t);
        SameCell(st, st', t, True(x, t), x.cleared);
      }
    }
  }

  lemma SameCell(st: State, st': State, t: Sym, o: Outcome, cleared: set<Sym>)
    requires At(st', t) == At(st, t)
    ensures Records(st, t, o, cleared) == Records(st', t, o, cleared)
  {
  }

  // Surveying an evaluated symbol again changes nothing about it.
  lemma {:induction false} ResurveyCorrect(x: Context, st: State, s: Sym)
    requires WellRanked(x.c, x.g) && Sound(x, st) && s in x.g.nodes && At(st, s).valid && !TypeOf(s).Unknown?
    ensures var st' := CalcValue(x.c, CalcVisibility(x.c, st, s), x.c.modules);
      Own(x, st, st', s) && Inside(x, st', s, Calm(x, s)) && At(st', s) == At(st, s) && Sound(x, st')
  {
    SoundIsInside(x, st, s);
    VisibilityCorrect(x, st, s, Calm(x, s));
    assert Surveyed(x, s, At(st, s)) == At(st, s) by {
      assert Records(st, s, True(x, s), x.cleared);
    }
    OwnIsSound(x, st, CalcVisibility(x.c, st, s), s);
  }

  lemma {:induction false} FoundDefaultCorrect(x: Context, st: State, s: Sym, calm: bool)
    requires WellRanked(x.c, x.g) && Inside(x, st, s, calm) && !TypeOf(s).Unknown?
    ensures var f := FindDefault(x.c, st, x.c.decls[s].defaults);
      var fs := FirstDefault(x.c.decls[s].defaults, TrueEnv(x, s));
      f.v == fs && Own(x, st, f.st, s) && Inside(x, f.st, s, calm) && At(f.st, s) == At(st, s) &&
      (fs.Some? ==>
        var e := CalcExpr(x.c, f.st, fs.value.0);
        e.v == Eval(fs.value.0, TrueEnv(x, s)) && Own(x, st, e.st, s) && Inside(x, e.st, s, calm) && At(e.st, s) == At(st, s)) &&
      (fs.Some? && fs.value.0.Symbol? ==>
        var st2 := CalcValue(x.c, f.st, fs.value.0.sym);
        Current(x.c, st2, fs.value.0.sym).str == DefaultText(x.c.decls[s].defaults, TrueEnv(x, s)) &&
        Own(x, st, st2, s) && At(st2, s) == At(st, s))
  {
    var f := FindDefault(x.c, st, x.c.decls[s].defaults);
    FindDefaultCorrect(x, st, s, x.c.decls[s].defaults, calm);
    hide Own, Inside, Good, WellRanked, FindDefault, FirstDefault, Eval;
    InsideFacts(x, st, s, calm);
    if f.v.Some? {
      var e := CalcExpr(x.c, f.st, f.v.value.0);
      DepCorrect(x, f.st, s, Some(f.v.value.0), NO, calm);
      OwnTrans(x, st, f.st, e.st, s, calm);
      if f.v.value.0.Symbol? {
        var ds := f.v.value.0.sym;
        var st2 := CalcValue(x.c, f.st, ds);
        MentionedBelow(x, s, {ds}, calm);
        InsideStart(x, f.st, s, calm);
        CalcOperand(x, f.st, ds, TrueEnv(x, s), x.g.rank[s], calm);
        KeptIsOwn(x, f.st, st2, s);
        OwnTrans(x, st, f.st, st2, s, calm);
        InsideStart(x, st2, s, calm);
        DefaultTextCorrect(x, st2, s, ds, calm);
      }
    }
  }

  lemma {:induction false} StringDefaultKeeps(x: Context, st: State, s: Sym)
    requires WellRanked(x.c, x.g) && Sound(x, st) && s in x.g.nodes && At(st, s).valid && !TypeOf(s).Unknown?
    ensures var r := StringDefault(x.c, st, s);
      Sound(x, r.st) && At(r.st, s) == At(st, s) &&
      (forall t <- x.g.nodes :: At(st, t).valid ==> At(r.st, t) == At(st, t)) &&
      (forall t :: t !in x.g.nodes ==> At(r.st, t) == At(st, t))
  {
    hide Own, Inside, Good, Sound, WellRanked, FindDefault, FirstDefault, Eval, CalcVisibility, CalcValue, True, TrueEnv,
      Mods, At, Current, Letter, Adjust, DefaultText, Records, CalcExpr, StringValue, Lookup, Calm;
    SoundFacts(x, st, s);
    var st1 := CalcValue(x.c, CalcVisibility(x.c, st, s), x.c.modules);
    ResurveyCorrect(x, st, s);
    FoundDefaultCorrect(x, st1, s, Calm(x, s));
    SoundIsInside(x, st, s);
    var r := StringDefault(x.c, st, s);
    OwnTrans(x, st, st1, r.st, s, Calm(x, s));
    OwnIsSound(x, st, r.st, s);
  }

  // In a sound state the default text is looked up correctly.
  lemma {:induction false} StringDefaultCorrect(x: Context, st: State, s: Sym)
    requires WellRanked(x.c, x.g) && Sound(x, st) && s in x.g.nodes && At(st, s).valid && !TypeOf(s).Unknown?
    ensures StringDefault(x.c, st, s).v == DefaultString(x, s)
  {
    hide Own, Inside, Good, Sound, WellRanked, FindDefault, FirstDefault, Eval, CalcVisibility, CalcValue, True, TrueEnv,
      Mods, Letter, Adjust, Records, CalcExpr, StringValue, Lookup, Calm;
    SoundFacts(x, st, s);
    var st1 := CalcValue(x.c, CalcVisibility(x.c, st, s), x.c.modules);
    ResurveyCorrect(x, st, s);
    FoundDefaultCorrect(x, st1, s, Calm(x, s));
    StringDefaultKeeps(x, st, s);
    SoundFacts(x, StringDefault(x.c, st, s).st, s);
  }

  lemma SoundFacts(x: Context, st: State, s: Sym)
    requires WellRanked(x.c, x.g) && Sound(x, st) && s in x.g.nodes && At(st, s).valid
    ensures Current(x.c, st, x.c.modules).tri == Mods(x) && s in x.c.decls && s.Var? && x.c.decls[s].role.Plain?
    ensures var o := True(x, s);
      Records(st, s, o, x.cleared) &&
      (!TypeOf(s).Unknown? ==> At(st, s).revDep == o.revDep && At(st, s).implied == o.implied) &&
      StringValue(x.c, st, s) == Result(st, TextOf(s, o))
  {
    if IsLogical(s) {
      NoModWithoutModules(x.c, x.g, Mods(x), x.users, s);
    }
  }

  // ----- the text of a minimal configuration -----

  // The symbols whose mark was cleared have been evaluated.
  ghost predicate Visited(x: Context, st: State) {
    forall t <- x.cleared :: At(st, t).valid && !At(st, t).write
  }

  ghost function Visit(x: Context, s: Sym): Context {
    x.(cleared := x.cleared + {s})
  }

  lemma VisitSameTruth(x: Context, s: Sym, t: Sym)
    requires WellRanked(x.c, x.g) && t in x.g.nodes
    ensures True(Visit(x, s), t) == True(x, t) && Mods(Visit(x, s)) == Mods(x)
    ensures Written(Visit(x, s), t) == Written(x, t) && ReadBack(Visit(x, s), t) == ReadBack(x, t)
  {
  }

  // The mark to write s is cleared.
  lemma {:induction false} ClearMark(x: Context, st: State, s: Sym)
    requires WellRanked(x.c, x.g) && Sound(x, st) && Visited(x, st) && s in x.g.nodes && At(st, s).valid
    ensures var st' := Put(st, s, At(st, s).(write := false));
      Sound(Visit(x, s), st') && Visited(Visit(x, s), st')
  {
    var st' := Put(st, s, At(st, s).(write := false));
    VisitSameTruth(x, s, s);
    forall t | t in x.g.nodes && At(st', t).valid
      ensures Records(st', t, True(Visit(x, s), t), x.cleared + {s})
    {
      VisitSameTruth(x, s, t);
      assert Records(st, t, True(x, t), x.cleared);
    }
  }

  // The text for one menu entry: the line of the symbol, the first time it is visited.
  ghost function EntryText(x: Context, s: Sym): string
    requires WellRanked(x.c, x.g) && s in x.g.nodes
  {
    if s !in x.cleared && Written(x, s) then SymbolLine(s, TextOf(s, True(x, s))) else []
  }

  // A symbol without the mark is as good as visited.
  lemma {:induction false} AlreadyClear(x: Context, st: State, s: Sym)
    requires WellRanked(x.c, x.g) && Sound(x, st) && Visited(x, st) && s in x.g.nodes
    requires At(st, s).valid && !At(st, s).write
    ensures Sound(Visit(x, s), st) && Visited(Visit(x, s), st)
  {
    assert st.cells[s := At(st, s).(write := false)] == st.cells;
    assert Put(st, s, At(st, s).(write := false)) == st;
    ClearMark(x, st, s);
  }

  lemma {:induction false} AskForWriting(x: Context, st: State, s: Sym)
    requires WellRanked(x.c, x.g) && Sound(x, st) && Visited(x, st) && s in x.g.nodes && x.cleared <= x.g.nodes
    requires !TypeOf(s).Unknown?
    ensures var st1 := CalcValue(x.c, st, s);
      Sound(x, st1) && Visited(x, st1) && At(st1, s).valid &&
      (At(st1, s).write <==> s !in x.cleared && True(x, s).write) &&
      forall t :: t !in x.g.nodes ==> At(st1, t) == At(st, t)
    ensures s.Var? && s in x.c.decls && x.c.decls[s].role.Plain?
  {
    AskIsSound(x, st, s);
    CalcValueCorrect(x, st, s, x.g.rank[s] + 1, true);
    SoundFacts(x, CalcValue(x.c, st, s), s);
    hide Sound, CalcValue, True;
  }

  lemma {:induction false} WriteStepCorrect(x: Context, st: State, s: Sym)
    requires WellRanked(x.c, x.g) && Sound(x, st) && Visited(x, st) && s in x.g.nodes && x.cleared <= x.g.nodes
    requires !TypeOf(s).Unknown?
    ensures var r := WriteStep(x.c, st, s);
      r.v == EntryText(x, s) && Sound(Visit(x, s), r.st) && Visited(Visit(x, s), r.st) &&
      forall t :: t !in x.g.nodes ==> At(r.st, t) == At(st, t)
  {
    hide Sound, Visited, WellRanked, WriteChanged, CalcValue, True, Written;
    var st1 := CalcValue(x.c, st, s);
    AskForWriting(x, st, s);
    if !At(st1, s).write {
      AlreadyClear(x, st1, s);
    } else {
      ClearMark(x, st1, s);
      WriteChangedCorrect(Visit(x, s), Put(st1, s, At(st1, s).(write := false)), s);
      VisitSameTruth(x, s, s);
      WrittenAsChanged(x, s);
    }
    WrittenIsMarked(x, s);
  }

  lemma WrittenIsMarked(x: Context, s: Sym)
    requires WellRanked(x.c, x.g) && s in x.g.nodes
    ensures Written(x, s) ==> True(x, s).write
  {
  }

  // The conditions for writing a marked symbol.
  ghost predicate Changed(x: Context, s: Sym)
    requires WellRanked(x.c, x.g) && s in x.g.nodes
  {
    var o := True(x, s);
    o.visible > o.revDep && TextOf(s, o) != DefaultString(x, s)
  }

  lemma WrittenAsChanged(x: Context, s: Sym)
    requires WellRanked(x.c, x.g) && s in x.g.nodes
    ensures Written(x, s) <==> True(x, s).write && Changed(Visit(x, s), s)
    ensures TextOf(s, True(Visit(x, s), s)) == TextOf(s, True(x, s))
    ensures True(x, s).write ==> !TypeOf(s).Unknown?
  {
    VisitSameTruth(x, s, s);
  }

  lemma {:induction false} WriteChangedCorrect(x: Context, st: State, s: Sym)
    requires WellRanked(x.c, x.g) && Sound(x, st) && Visited(x, st) && s in x.g.nodes && x.cleared <= x.g.nodes
    requires At(st, s).valid && !TypeOf(s).Unknown?
    ensures var r := WriteChanged(x.c, st, s);
      r.v == (if Changed(x, s) then SymbolLine(s, TextOf(s, True(x, s))) else []) && Sound(x, r.st) && Visited(x, r.st) &&
      forall t :: t !in x.g.nodes ==> At(r.st, t) == At(st, t)
  {
    WriteStepRest(x, st, s);
    SoundFacts(x, st, s);
    hide Sound, Visited, WellRanked, StringDefault, StringValue, CalcValue, True, DefaultString, SymbolLine, TextOf;
  }

  // The part of a turn after the mark was cleared.
  lemma {:induction false} WriteStepRest(x: Context, st: State, s: Sym)
    requires WellRanked(x.c, x.g) && Sound(x, st) && Visited(x, st) && s in x.g.nodes && x.cleared <= x.g.nodes
    requires At(st, s).valid && !TypeOf(s).Unknown?
    ensures var value := StringValue(x.c, st, s);
      var default := StringDefault(x.c, value.st, s);
      var again := StringValue(x.c, default.st, s);
      value == Result(st, TextOf(s, True(x, s))) && default.v == DefaultString(x, s) &&
      again == Result(default.st, value.v) && Sound(x, default.st) && Visited(x, default.st) &&
      (forall t :: t !in x.g.nodes ==> At(default.st, t) == At(st, t))
  {
    SoundFacts(x, st, s);
    StringDefaultKeeps(x, st, s);
    StringDefaultCorrect(x, st, s);
    SoundFacts(x, StringDefault(x.c, st, s).st, s);
  }

  /** The text that the loop writes from a sound state. */
  ghost function DefconfigText(x: Context, order: seq<Sym>): string
    requires WellRanked(x.c, x.g) && forall s <- order :: s in x.g.nodes
    decreases |order|
  {
    if order == [] then [] else EntryText(x, order[0]) + DefconfigText(Visit(x, order[0]), order[1..])
  }

  lemma {:induction false} WriteAllCorrect(x: Context, st: State, order: seq<Sym>)
    requires WellRanked(x.c, x.g) && Sound(x, st) && Visited(x, st) && x.cleared <= x.g.nodes
    requires AllDeclared(x.c, order) && forall s <- order :: s in x.g.nodes
    ensures WriteAll(x.c, st, order).v == DefconfigText(x, order)
    decreases |order|
  {
    if order != [] {
      WriteStepCorrect(x, st, order[0]);
      WriteAllCorrect(Visit(x, order[0]), WriteStep(x.c, st, order[0]).st, order[1..]);
    }
  }

  /** conf_write_defconfig writes one line for every symbol whose value must be written, and nothing
      else, whatever was cached before. */
  lemma {:induction false} WriteDefconfigCorrect(x: Context, st: State, order: seq<Sym>)
    requires WellRanked(x.c, x.g) && UsersAre(x.g, st, x.users) && Wired(x.c, st) && x.cleared == {}
    requires AllDeclared(x.c, order) && forall s <- order :: s in x.g.nodes
    ensures WriteDefconfig(x.c, st, order).v == DefconfigText(x, order)
  {
    ClearIsSound(x, st);
    WriteAllCorrect(x, ClearAllValid(x.c, st), order);
  }

  // ----- reading back -----

  /** A word that can stand in a line: the lexer allows none of these characters in one. */
  predicate IsWord(name: string) {
    ' ' !in name && '=' !in name && '\n' !in name
  }

  // A word that is not one of the constants.
  predicate NameOk(name: string) {
    IsWord(name) && name != "y" && name != "m" && name != "n"
  }

  lemma {:induction false} FindAfter(a: string, ch: char, rest: string)
    requires ch !in a
    ensures Find(a + [ch] + rest, ch) == |a|
  {
    if a != [] {
      assert (a + [ch] + rest)[1..] == a[1..] + [ch] + rest;
      FindAfter(a[1..], ch, rest);
    }
  }

  // The symbol is known under its name.
  predicate Named(table: Table, s: Sym) {
    s.Var? && NameOk(s.name) && s.name in table && table[s.name] == s.typ
  }

  // It is also not part of a choice.
  predicate Known(c: Config, table: Table, s: Sym) {
    Named(table, s) && (s in c.decls ==> c.decls[s].role.Plain?)
  }

  // The parts of a line with a value.
  lemma {:induction false} SplitValueLine(name: string, value: string)
    requires IsWord(name) && '\n' !in value && (value != [] ==> value[|value| - 1] != '\r')
    ensures var line := CONFIG_PREFIX + name + "=" + value + "\n";
      line[0] != '#' && StartsWith(line, CONFIG_PREFIX) &&
      var t := line[|CONFIG_PREFIX|..];
      Find(t, '=') == |name| < |t| && t[..|name|] == name && StripEnd(t[|name| + 1..]) == value
  {
    var line := CONFIG_PREFIX + name + "=" + value + "\n";
    assert line[..|CONFIG_PREFIX|] == CONFIG_PREFIX;
    var t := line[|CONFIG_PREFIX|..];
    var rest := value + "\n";
    assert t == name + ['='] + rest;
    FindAfter(name, '=', rest);
    assert t[..|name|] == name && t[|name| + 1..] == rest;
    assert rest == value + ['\n'] + [];
    FindAfter(value, '\n', []);
    assert rest[..|value|] == value;
  }

  // A line with a value is read by conf_set_sym_val.
  lemma {:induction false} ReadValueLine(c: Config, table: Table, st: State, s: Sym, value: string)
    requires Named(table, s) && '\n' !in value && (value != [] ==> value[|value| - 1] != '\r')
    ensures ReadLine(c, table, st, CONFIG_PREFIX + s.name + "=" + value + "\n") ==
      match SetSymVal(s.typ, At(st, s).user, value)
      case None => st
      case Some(u) => NoteMember(c, SetUser(st, s, u), s)
  {
    hide SetSymVal, Find, StripEnd, StartsWith;
    SplitValueLine(s.name, value);
  }

  lemma {:induction false} ReadUnsetLine(c: Config, table: Table, st: State, s: Sym)
    requires Named(table, s) && IsLogical(s)
    ensures ReadLine(c, table, st, "# " + CONFIG_PREFIX + s.name + " " + NOT_SET + "\n") ==
            NoteMember(c, SetUser(st, s, At(st, s).user.(has := true, tri := NO)), s)
  {
    var line := "# " + CONFIG_PREFIX + s.name + " " + NOT_SET + "\n";
    assert line[2..][..|CONFIG_PREFIX|] == CONFIG_PREFIX;
    var t := line[2 + |CONFIG_PREFIX|..];
    assert t == s.name + [' '] + (NOT_SET + "\n");
    FindAfter(s.name, ' ', NOT_SET + "\n");
    assert t[..|s.name|] == s.name && t[|s.name| + 1..] == NOT_SET + "\n";
    assert (NOT_SET + "\n")[..|NOT_SET|] == NOT_SET;
  }

  // What kconfig_print_symbol prints for a bool or tristate is read back as the same value, and noted for
  // its choice if it is a member.
  lemma {:induction false} ReadLogicalLine(c: Config, table: Table, st: State, s: Sym, v: Tri)
    requires Named(table, s) && IsLogical(s) && (s.typ.Boolean? ==> v != MOD)
    ensures ReadLine(c, table, st, SymbolLine(s, Letter(v))) ==
            NoteMember(c, SetUser(st, s, At(st, s).user.(has := true, tri := v)), s)
  {
    if v == NO {
      ReadUnsetLine(c, table, st, s);
    } else {
      ReadValueLine(c, table, st, s, Letter(v));
    }
  }

  /** What kconfig_print_symbol prints for a bool or tristate is read back as the same value. */
  lemma {:induction false} LogicalLineRoundTrip(c: Config, table: Table, st: State, s: Sym, v: Tri)
    requires Known(c, table, s) && IsLogical(s) && (s.typ.Boolean? ==> v != MOD)
    ensures ReadLine(c, table, st, SymbolLine(s, Letter(v))) == SetUser(st, s, At(st, s).user.(has := true, tri := v))
  {
    ReadLogicalLine(c, table, st, s, v);
    hide ReadLine;
  }

  lemma {:induction false} EscapeHasNoNewline(str: string)
    requires '\n' !in str
    ensures '\n' !in EscapeBody(str)
  {
    if str != [] {
      EscapeHasNoNewline(str[1..]);
    }
  }

  /** The same for a string, whatever quotes and backslashes it contains. */
  lemma {:induction false} StringLineRoundTrip(c: Config, table: Table, st: State, s: Sym, str: string)
    requires Known(c, table, s) && s.typ.String? && '\n' !in str
    ensures ReadLine(c, table, st, SymbolLine(s, str)) == SetUser(st, s, At(st, s).user.(has := true, str := str))
  {
    var value := Escape(str);
    EscapeHasNoNewline(str);
    ReadValueLine(c, table, st, s, value);
    hide ReadLine;
    assert value[1..] == EscapeBody(str) + "\"" + [];
    UnescapeEscape(str, []);
  }

  // What is valid as a number fits in a line.
  lemma ValidFits(typ: Type, str: string)
    requires (typ.Int? || typ.Hex?) && ValidText(typ, str)
    ensures str != [] && '\n' !in str && str[|str| - 1] != '\r'
  {
    var t := if typ.Int? then (if str[0] == '-' then str[1..] else str)
             else if |str| >= 2 && str[0] == '0' && (str[1] == 'x' || str[1] == 'X') then str[2..] else str;
    assert t[|t| - 1] in t && t[|t| - 1] == str[|str| - 1];
    assert DigitOf('\n') == 36 && DigitOf('\r') == 36;
    assert forall i | |str| - |t| <= i < |str| :: str[i] == t[i - (|str| - |t|)];
  }

  /** The same for a number, if its text is valid; a text that is not valid is refused. */
  lemma {:induction false} NumberLineRoundTrip(c: Config, table: Table, st: State, s: Sym, str: string)
    requires Known(c, table, s) && (s.typ.Int? || s.typ.Hex?)
    ensures ValidText(s.typ, str) ==>
      ReadLine(c, table, st, SymbolLine(s, str)) == SetUser(st, s, At(st, s).user.(has := true, str := str))
    ensures !ValidText(s.typ, str) && '\n' !in str && (str != [] ==> str[|str| - 1] != '\r') ==>
      ReadLine(c, table, st, SymbolLine(s, str)) == st
  {
    if ValidText(s.typ, str) {
      ValidFits(s.typ, str);
    }
    if '\n' !in str && (str != [] ==> str[|str| - 1] != '\r') {
      ReadValueLine(c, table, st, s, str);
    }
    hide ReadLine, ValidText;
  }

  // Every symbol can be named in a file, and if it is written its text is one that can be read.
  ghost predicate Fileable(x: Context, table: Table)
    requires WellRanked(x.c, x.g)
  {
    forall s <- x.g.nodes :: Known(x.c, table, s) && (Written(x, s) && !IsLogical(s) ==> TextFits(s, True(x, s).str))
  }

  lemma FileableStays(x: Context, table: Table, s: Sym)
    requires WellRanked(x.c, x.g) && Fileable(x, table)
    ensures Fileable(Visit(x, s), table)
  {
    forall t | t in x.g.nodes
      ensures Known(x.c, table, t) && (Written(Visit(x, s), t) && !IsLogical(t) ==> TextFits(t, True(Visit(x, s), t).str))
    {
      VisitSameTruth(x, s, t);
      hide Written, True, WellRanked, TextFits, Known;
    }
  }

  predicate TextFits(s: Sym, str: string) {
    s.Var? && if s.typ.String? then '\n' !in str else (s.typ.Int? || s.typ.Hex?) && ValidText(s.typ, str)
  }

  lemma {:induction false} ReadBackLine(x: Context, table: Table, st: State, s: Sym)
    requires WellRanked(x.c, x.g) && Fileable(x, table) && s in x.g.nodes && Written(x, s)
    requires At(st, s).user == FRESH.user
    ensures var line := SymbolLine(s, TextOf(s, True(x, s)));
      IsLine(line) && ReadLine(x.c, table, st, line) == SetUser(st, s, ReadBack(x, s))
  {
    var o := True(x, s);
    if IsLogical(s) {
      NoModWithoutModules(x.c, x.g, Mods(x), x.users, s);
      LogicalLineRoundTrip(x.c, table, st, s, o.tri);
    } else if s.typ.String? {
      EscapeHasNoNewline(o.str);
      StringLineRoundTrip(x.c, table, st, s, o.str);
    } else {
      NumberLineRoundTrip(x.c, table, st, s, o.str);
    }
    LineOfSymbol(s, TextOf(s, o));
  }

  lemma LineOfSymbol(s: Sym, value: string)
    requires s.Var? && NameOk(s.name) && !s.typ.Unknown?
    requires if IsLogical(s) then value == "n" || value == "m" || value == "y" else TextFits(s, value)
    ensures IsLine(SymbolLine(s, value))
  {
    if s.typ.String? {
      EscapeHasNoNewline(value);
    } else if !IsLogical(s) {
      ValidFits(s.typ, value);
    }
    var line := SymbolLine(s, value);
    var body := line[..|line| - 1];
    assert '\n' !in body by {
      if IsLogical(s) && value == "n" {
        assert body == "# " + CONFIG_PREFIX + s.name + " " + NOT_SET;
      } else {
        assert body == CONFIG_PREFIX + s.name + "=" + (if s.typ.String? then Escape(value) else value);
      }
    }
    forall k | 0 <= k < |line| - 1 ensures line[k] != '\n' {
      assert line[k] == body[k];
    }
  }

  // The user value of t after the lines for the entries in order were read.
  ghost function UserAfter(x: Context, st: State, order: seq<Sym>, t: Sym): User
    requires WellRanked(x.c, x.g) && t in x.g.nodes
  {
    if t in order && t !in x.cleared && Written(x, t) then ReadBack(x, t) else At(st, t).user
  }

  lemma {:induction false} ReadAllLines(x: Context, table: Table, st: State, order: seq<Sym>)
    requires WellRanked(x.c, x.g) && Fileable(x, table) && forall s <- order :: s in x.g.nodes
    requires forall s <- order :: s !in x.cleared ==> At(st, s).user == FRESH.user
    ensures var st' := ReadLines(x.c, table, st, Lines(DefconfigText(x, order)));
      st'.modulesVal == st.modulesVal && forall t <- x.g.nodes :: At(st', t).user == UserAfter(x, st, order, t)
    decreases |order|
  {
    if order != [] {
      var s, x' := order[0], Visit(x, order[0]);
      var rest := DefconfigText(x', order[1..]);
      var st1 := if s !in x.cleared && Written(x, s) then SetUser(st, s, ReadBack(x, s)) else st;
      FileableStays(x, table, s);
      ReadEntry(x, table, st, s, rest);
      hide Written, ReadBack, WellRanked, Fileable, EntryText, UserAfter;
      ReadAllLines(x', table, st1, order[1..]);
      OneEntry(x, st, st1, order);
    } else {
      hide WellRanked, Fileable;
    }
  }

  // The line of one entry, if it has one.
  lemma ReadEntry(x: Context, table: Table, st: State, s: Sym, rest: string)
    requires WellRanked(x.c, x.g) && Fileable(x, table) && s in x.g.nodes
    requires s !in x.cleared ==> At(st, s).user == FRESH.user
    ensures var st1 := if s !in x.cleared && Written(x, s) then SetUser(st, s, ReadBack(x, s)) else st;
      ReadLines(x.c, table, st, Lines(EntryText(x, s) + rest)) == ReadLines(x.c, table, st1, Lines(rest))
  {
    var line := EntryText(x, s);
    if s !in x.cleared && Written(x, s) {
      ReadBackLine(x, table, st, s);
      hide Written, ReadBack, WellRanked, Fileable, EntryText;
      LinesOfLine(line, rest);
      assert ([line] + Lines(rest))[1..] == Lines(rest);
    } else {
      assert line + rest == rest;
    }
  }

  lemma {:induction false} OneEntry(x: Context, st: State, st1: State, order: seq<Sym>)
    requires WellRanked(x.c, x.g) && order != [] && order[0] in x.g.nodes
    requires st1 == if order[0] !in x.cleared && Written(x, order[0])
      then SetUser(st, order[0], ReadBack(x, order[0])) else st
    ensures forall t <- x.g.nodes :: UserAfter(Visit(x, order[0]), st1, order[1..], t) == UserAfter(x, st, order, t)
  {
    hide Written, ReadBack, WellRanked;
    var s := order[0];
    forall t | t in x.g.nodes
      ensures UserAfter(Visit(x, s), st1, order[1..], t) == UserAfter(x, st, order, t)
    {
      VisitSameTruth(x, s, t);
      assert t in order <==> t == s || t in order[1..];
    }
  }

  /** Reading a minimal configuration into any state sets exactly the user values that were
      written. Every symbol has a menu entry. */
  lemma {:induction false} DefconfigReadsBack(x: Context, table: Table, st: State, st0: State, order: seq<Sym>)
    requires WellRanked(x.c, x.g) && UsersAre(x.g, st, x.users) && Wired(x.c, st) && x.cleared == {}
    requires AllDeclared(x.c, order) && (forall s <- order :: s in x.g.nodes) && (forall s <- x.g.nodes :: s in order)
    requires Fileable(x, table)
    ensures var text := WriteDefconfig(x.c, st, order).v;
      var st' := ReadText(x.c, table, st0, text);
      UsersAre(x.g, st', AllReadBack(x)) && st'.modulesVal == st0.modulesVal
  {
    WriteDefconfigCorrect(x, st, order);
    var st1 := ConfReset(x.c, st0);
    forall s | s in x.g.nodes ensures At(st1, s).user == FRESH.user {
    }
    ReadAllLines(x, table, st1, order);
    var st' := ReadText(x.c, table, st0, WriteDefconfig(x.c, st, order).v);
    forall t | t in x.g.nodes ensures At(st', t).user == UserOf(AllReadBack(x), t) {
      assert At(st', t).user == UserAfter(x, st1, order, t);
    }
  }

  /** The round trip of a minimal configuration: writing, reading into any state and evaluating
      again gives every symbol the value it had, exactly when no symbol is lost. */
  lemma {:induction false} DefconfigRoundTrip(x: Context, table: Table, st: State, st0: State, order: seq<Sym>)
    requires WellRanked(x.c, x.g) && UsersAre(x.g, st, x.users) && Wired(x.c, st) && Wired(x.c, st0) && x.cleared == {}
    requires AllDeclared(x.c, order) && (forall s <- order :: s in x.g.nodes) && (forall s <- x.g.nodes :: s in order)
    requires Fileable(x, table)
    ensures var st' := ReadText(x.c, table, st0, WriteDefconfig(x.c, st, order).v);
      (forall s <- x.g.nodes ::
        At(CalcValue(x.c, ClearAllValid(x.c, st'), s), s).curr == At(CalcValue(x.c, ClearAllValid(x.c, st), s), s).curr)
      <==> (forall s <- x.g.nodes :: !Lost(x, s))
  {
    var st' := ReadText(x.c, table, st0, WriteDefconfig(x.c, st, order).v);
    DefconfigReadsBack(x, table, st, st0, order);
    var y := Reread(x);
    ClearIsSound(x, st);
    ClearIsSound(y, st');
    MinimalLosesNothing(x);
    forall s | s in x.g.nodes
      ensures At(CalcValue(x.c, ClearAllValid(x.c, st'), s), s).curr == Val(True(y, s).tri, True(y, s).str)
      ensures At(CalcValue(x.c, ClearAllValid(x.c, st), s), s).curr == Val(True(x, s).tri, True(x, s).str)
    {
      AskIsSound(x, ClearAllValid(x.c, st), s);
      AskIsSound(y, ClearAllValid(x.c, st'), s);
    }
  }
}
