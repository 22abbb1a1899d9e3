// A minimal configuration with a choice: what conf_write_defconfig writes for its members, and what
// reading the text makes of them (confdata.c).
module Groups {
  import opened Tristate
  import opened Expr
  import opened Text
  import opened Config
  import opened Meaning
  import opened Evaluation
  import opened Setting
  import opened Minimal
  import opened Choices
  import opened Confdata
  import opened Picking

  // ----- a group depends on the values of the acyclic part only -----

  /** The symbols outside of choices have the same values. */
  ghost predicate Alike(x: Context, y: Context)
    requires WellRanked(x.c, x.g)
  {
    y.c == x.c && y.g == x.g && Mods(y) == Mods(x) && NodeEnv(y) == NodeEnv(x)
  }

  lemma AlikeShape(x: Context, y: Context, gr: Group)
    requires y.c == x.c && y.g == x.g && Shape(x, gr)
    ensures Shape(y, gr)
  {
    hide NeedsChoice, PromptSyms;
  }

  lemma AlikeShown(x: Context, y: Context, gr: Group, m: Sym)
    requires WellRanked(x.c, x.g) && Alike(x, y) && m in x.c.decls
    ensures Shown(y, gr, m) == Shown(x, gr, m)
  {
    hide WellRanked, VisibleIn;
  }

  lemma {:induction false} AlikeFirst(x: Context, y: Context, gr: Group, ms: seq<Sym>)
    requires WellRanked(x.c, x.g) && Alike(x, y) && forall m <- ms :: m in x.c.decls
    ensures FirstShown(y, gr, ms) == FirstShown(x, gr, ms)
  {
    if ms != [] {
      AlikeShown(x, y, gr, ms[0]);
      AlikeFirst(x, y, gr, ms[1..]);
      hide Alike, Shown;
    }
  }

  lemma {:induction false} AlikeDefault(x: Context, y: Context, gr: Group, ds: seq<Default>)
    requires WellRanked(x.c, x.g) && Alike(x, y) && forall d <- ds :: d.value.Symbol? && d.value.sym in x.c.decls
    ensures DefaultShown(y, gr, ds) == DefaultShown(x, gr, ds)
  {
    if ds != [] {
      AlikeShown(x, y, gr, ds[0].value.sym);
      AlikeDefault(x, y, gr, ds[1..]);
      hide Shown;
    }
  }

  lemma AlikeGroup(x: Context, y: Context, gr: Group)
    requires WellRanked(x.c, x.g) && Alike(x, y) && Shape(x, gr)
    ensures Shape(y, gr) && Selected(y, gr) == Selected(x, gr) && Mode(y, gr) == Mode(x, gr)
    ensures ChoiceTri(y, gr) == ChoiceTri(x, gr) && forall m <- gr.ms :: MemberTri(y, gr, m) == MemberTri(x, gr, m)
  {
    AlikeShape(x, y, gr);
    ShapeFacts(x, gr);
    AlikeFirst(x, y, gr, gr.ms);
    AlikeDefault(x, y, gr, x.c.decls[gr.cs].defaults);
    if gr.user.pick.Some? {
      AlikeShown(x, y, gr, gr.user.pick.value);
    }
    hide WellRanked, Shape, Shown, FirstShown, DefaultShown, VisibleIn, DirDepIn, RevDepIn, ImpliedIn, Settle;
  }

  // ----- the line of a member -----

  /** The group without a pick of the user. */
  function Unpicked(gr: Group): Group {
    gr.(user := gr.user.(pick := None))
  }

  lemma UnpickedShape(x: Context, gr: Group)
    requires Shape(x, gr)
    ensures Shape(x, Unpicked(gr))
  {
  }

  /** A member is written if it is y, unless the choice is not optional and would select it by default. */
  ghost predicate InFile(x: Context, gr: Group, m: Sym)
    requires WellRanked(x.c, x.g) && Shape(x, gr) && m in gr.ms
  {
    GroupOutside(x, gr);
    UnpickedShape(x, gr);
    MemberTri(x, gr, m) == YES && !x.c.decls[m].noWrite &&
    (x.c.decls[gr.cs].role.optional || Selected(x, Unpicked(gr)) != Some(m))
  }

  ghost predicate Writing(x: Context, gr: Group, st: State, done: set<Sym>)
    requires WellRanked(x.c, x.g) && Shape(x, gr)
  {
    GroupOk(x, gr, st, None) && (forall m <- gr.ms :: At(st, m).valid <==> m in done) &&
    forall m <- gr.ms :: m in done && MemberTri(x, gr, m) == YES ==> At(st, gr.cs).valid && !At(st, m).write
  }

  // Looking things up changed nothing about the member m that was evaluated.
  ghost predicate LookedUp(x: Context, gr: Group, m: Sym, st: State, st': State, done: set<Sym>)
    requires WellRanked(x.c, x.g) && Shape(x, gr)
  {
    Writing(x, gr, st', done) && NodesKept(x, st, st') && (At(st, gr.cs).valid ==> At(st', gr.cs).valid) &&
    At(st', m).curr == At(st, m).curr
  }

  lemma WritingMember(x: Context, gr: Group, st: State, m: Sym, done: set<Sym>)
    requires WellRanked(x.c, x.g) && Shape(x, gr) && Writing(x, gr, st, done) && m in gr.ms && m in done
    ensures At(st, m).valid && At(st, m).curr.tri == MemberTri(x, gr, m) && GroupOk(x, gr, st, Some(m))
    ensures At(st, m).revDep == NO && At(st, m).implied == NO && !At(st, m).pending
    ensures Sound(x, st) && st.modulesVal == Mods(x)
  {
    hide WellRanked, Shape, MemberTri, ChoiceTri;
    assert MemberOk(x, gr, st, m, false);
    forall t | t in gr.ms ensures MemberOk(x, gr, st, t, Some(m) == Some(t)) {
      assert MemberOk(x, gr, st, t, false);
    }
  }

  lemma {:induction false} ResurveyMember(x: Context, gr: Group, st: State, m: Sym, done: set<Sym>)
    requires WellRanked(x.c, x.g) && Shape(x, gr) && Writing(x, gr, st, done) && m in gr.ms && m in done
    ensures m in x.c.decls
    ensures LookedUp(x, gr, m, st, CalcVisibility(x.c, st, m), done)
  {
    WritingMember(x, gr, st, m, done);
    SurveyMember(x, gr, st, m);
    GroupOutside(x, gr);
    hide WellRanked, Shape, CalcVisibility, MemberTri, Done, Stage, MemberVisible, ChoiceTri;
    var st' := CalcVisibility(x.c, st, m);
    assert GroupOk(x, gr, st', None) by {
      forall t | t in gr.ms ensures MemberOk(x, gr, st', t, false) {
        assert MemberOk(x, gr, st', t, Some(m) == Some(t));
      }
    }
    hide GroupOk;
  }

  lemma {:induction false} AskModulesKeeps(x: Context, gr: Group, st: State, m: Sym, done: set<Sym>)
    requires WellRanked(x.c, x.g) && Shape(x, gr) && Writing(x, gr, st, done) && m in gr.ms && m in done
    ensures LookedUp(x, gr, m, st, CalcValue(x.c, st, x.c.modules), done)
  {
    GroupOutside(x, gr);
    var v, s := ChoiceTri(x, gr), x.c.modules;
    assert Over(x, {gr.cs}, {s});
    OperandInGroup(x, gr, st, s, v);
    var st' := CalcValue(x.c, st, s);
    MovedIsOk(x, gr, st, st', None);
    hide WellRanked, Shape, CalcValue, MemberTri, Done, Stage, ChoiceTri, GroupOk;
  }

  // The default text of a member that was evaluated is n.
  lemma {:induction false} DefaultOfMember(x: Context, gr: Group, st: State, m: Sym, done: set<Sym>)
    requires WellRanked(x.c, x.g) && Shape(x, gr) && Writing(x, gr, st, done) && m in gr.ms && m in done
    ensures m in x.c.decls
    ensures var r := StringDefault(x.c, st, m); r.v == "n" && LookedUp(x, gr, m, st, r.st, done)
  {
    GroupOutside(x, gr);
    var st1 := CalcVisibility(x.c, st, m);
    ResurveyMember(x, gr, st, m, done);
    var st2 := CalcValue(x.c, st1, x.c.modules);
    AskModulesKeeps(x, gr, st1, m, done);
    WritingMember(x, gr, st2, m, done);
    hide WellRanked, Shape, CalcVisibility, CalcValue, Writing;
    assert x.c.decls[m].defaults == [];
  }

  // ----- the member a choice selects by default -----

  lemma OutsideTrans(x: Context, a: State, b: State, c: State)
    requires Outside(x, a, b) && Outside(x, b, c)
    ensures Outside(x, a, c)
  {
  }

  lemma {:induction false} DefaultsOutside(x: Context, gr: Group, st: State, ds: seq<Default>)
    requires WellRanked(x.c, x.g) && Shape(x, gr) && Sound(x, st) && At(st, gr.cs).valid && At(st, gr.cs).curr.tri == YES
    requires forall d <- ds :: Over(x, {}, DepSyms(d.cond))
    ensures var r := FindChoiceDefault(x.c, st, ds); Sound(x, r.st) && Outside(x, st, r.st)
    decreases |ds|
  {
    if ds != [] {
      assert ds[0] in ds;
      var r := CalcDep(x.c, st, ds[0].cond, YES);
      DepOutside(x, gr, st, ds[0].cond, YES);
      GroupOutside(x, gr);
      hide WellRanked, Shape, Sound, Over;
      assert At(r.st, gr.cs) == At(st, gr.cs);
      DefaultsOutside(x, gr, r.st, ds[1..]);
      OutsideTrans(x, st, r.st, FindChoiceDefault(x.c, r.st, ds[1..]).st);
    }
  }

  // In a state in which the choice was evaluated, sym_choice_default is what would be selected without a pick.
  lemma {:induction false} DefaultIsSelected(x: Context, gr: Group, st: State)
    requires WellRanked(x.c, x.g) && Shape(x, gr) && Sound(x, st) && Done(x, gr, st) && ChoiceTri(x, gr) == YES
    ensures gr.cs in x.c.decls && Shape(x, Unpicked(gr))
    ensures var r := ChoiceDefault(x.c, st, gr.cs, gr.ms);
      Sound(x, r.st) && Outside(x, st, r.st) && r.v == Selected(x, Unpicked(gr))
  {
    GroupOutside(x, gr);
    UnpickedShape(x, gr);
    ShapeFacts(x, gr);
    DefaultsOver(x, gr);
    var ds := x.c.decls[gr.cs].defaults;
    DefaultsOutside(x, gr, st, ds);
    DefaultOfChoice(x, gr, st, ds);
    var d := FindChoiceDefault(x.c, st, ds);
    FirstVisibleIsFirstShown(x, gr, d.st, gr.ms);
    AlikeUnpicked(x, gr);
    hide WellRanked, Shape, Sound, Outside, FindChoiceDefault, FirstVisible, Seen;
  }

  lemma {:induction false} AlikeUnpicked(x: Context, gr: Group)
    requires WellRanked(x.c, x.g) && Shape(x, gr)
    ensures Shape(x, Unpicked(gr)) && forall m <- gr.ms :: m in x.c.decls
    ensures forall f <- x.c.decls[gr.cs].defaults :: f.value.Symbol? && f.value.sym in gr.ms && f.value.sym in x.c.decls
    ensures DefaultShown(x, Unpicked(gr), x.c.decls[gr.cs].defaults) == DefaultShown(x, gr, x.c.decls[gr.cs].defaults)
    ensures FirstShown(x, Unpicked(gr), gr.ms) == FirstShown(x, gr, gr.ms)
  {
    UnpickedShape(x, gr);
    ShapeFacts(x, gr);
    SameFirst(x, gr, Unpicked(gr), gr.ms);
    SameDefault(x, gr, Unpicked(gr), x.c.decls[gr.cs].defaults);
  }

  lemma {:induction false} SameFirst(x: Context, gr: Group, gr': Group, ms: seq<Sym>)
    requires WellRanked(x.c, x.g) && gr'.cs == gr.cs && forall m <- ms :: m in x.c.decls
    ensures FirstShown(x, gr', ms) == FirstShown(x, gr, ms)
  {
    if ms != [] {
      assert GroupEnv(x, gr', YES) == GroupEnv(x, gr, YES);
      SameFirst(x, gr, gr', ms[1..]);
    }
  }

  lemma {:induction false} SameDefault(x: Context, gr: Group, gr': Group, ds: seq<Default>)
    requires WellRanked(x.c, x.g) && gr'.cs == gr.cs && forall d <- ds :: d.value.Symbol? && d.value.sym in x.c.decls
    ensures DefaultShown(x, gr', ds) == DefaultShown(x, gr, ds)
  {
    if ds != [] {
      assert GroupEnv(x, gr', YES) == GroupEnv(x, gr, YES);
      SameDefault(x, gr, gr', ds[1..]);
    }
  }

  // ----- one entry -----

  // The member m is evaluated and not yet written.
  ghost predicate Ready(x: Context, gr: Group, st: State, m: Sym, done: set<Sym>)
    requires WellRanked(x.c, x.g) && Shape(x, gr) && m in gr.ms
  {
    GroupOk(x, gr, st, None) && (forall t <- gr.ms :: At(st, t).valid <==> t in done || t == m) &&
    (forall t <- gr.ms :: t in done && MemberTri(x, gr, t) == YES ==> At(st, gr.cs).valid && !At(st, t).write) &&
    (MemberTri(x, gr, m) == YES ==> At(st, gr.cs).valid && At(st, m).visible != NO)
  }

  // A member that is y shows.
  lemma {:induction false} ChosenShows(x: Context, gr: Group, m: Sym)
    requires WellRanked(x.c, x.g) && Shape(x, gr) && m in gr.ms && MemberTri(x, gr, m) == YES
    ensures m in x.c.decls && ChoiceTri(x, gr) == YES && MemberVisible(x, gr, m, YES) != NO
  {
    ShownIsVisible(x, gr, m);
  }

  lemma {:induction false} EvaluateMember(x: Context, gr: Group, st: State, m: Sym, done: set<Sym>)
    requires WellRanked(x.c, x.g) && Shape(x, gr) && Writing(x, gr, st, done) && m in gr.ms
    ensures m in x.c.decls
    ensures var st1 := CalcValue(x.c, st, m);
      Ready(x, gr, st1, m, done) && NodesKept(x, st, st1) &&
      (m !in done && MemberTri(x, gr, m) == YES ==> (At(st1, m).write <==> !x.c.decls[m].noWrite))
  {
    GroupOutside(x, gr);
    var st1 := CalcValue(x.c, st, m);
    if MemberTri(x, gr, m) == YES {
      ChosenShows(x, gr, m);
    }
    if m in done {
      ChosenSeen(x, gr, st, m, done);
      hide WellRanked, Shape, MemberTri, Done, Stage, ChoiceTri, GroupOk, MemberVisible;
    } else {
      MemberCorrect(x, gr, st, m);
      hide WellRanked, Shape, MemberTri, Done, Stage, ChoiceTri, CalcValue, GroupOk, MemberVisible;
      EvaluatedCells(x, gr, st, st1, m, done);
    }
  }

  lemma ChosenSeen(x: Context, gr: Group, st: State, m: Sym, done: set<Sym>)
    requires WellRanked(x.c, x.g) && Shape(x, gr) && Writing(x, gr, st, done) && m in gr.ms && m in done
    ensures MemberTri(x, gr, m) == YES ==> At(st, gr.cs).valid && At(st, m).visible != NO
  {
    if MemberTri(x, gr, m) == YES {
      ChosenShows(x, gr, m);
      SeenAt(x, gr, st, m);
    }
  }

  lemma EvaluatedCells(x: Context, gr: Group, st: State, st1: State, m: Sym, done: set<Sym>)
    requires WellRanked(x.c, x.g) && Shape(x, gr) && Writing(x, gr, st, done) && m in gr.ms && m !in done
    requires GroupOk(x, gr, st1, None) && NoneLost(gr, st, st1) && Evaluated(x, gr, st1, m)
    requires At(st, gr.cs).valid ==> OnlyMember(x, m, st, st1)
    requires SameValid(gr, Put(st, m, At(st, m).(valid := true)), st1)
    requires MemberTri(x, gr, m) == YES ==> ChoiceTri(x, gr) == YES && MemberVisible(x, gr, m, YES) != NO
    ensures Ready(x, gr, st1, m, done)
    ensures MemberTri(x, gr, m) == YES ==> (At(st1, m).write <==> !x.c.decls[m].noWrite)
  {
    GroupOutside(x, gr);
    hide WellRanked, Shape, MemberTri, Stage, ChoiceTri, MemberVisible, GroupOk, Selected, Seen;
    forall t | t in gr.ms ensures At(st1, t).valid <==> t in done || t == m {
    }
  }

  lemma {:induction false} ClearMemberMark(x: Context, gr: Group, st: State, m: Sym, done: set<Sym>)
    requires WellRanked(x.c, x.g) && Shape(x, gr) && m in gr.ms && Ready(x, gr, st, m, done)
    ensures Writing(x, gr, Put(st, m, At(st, m).(write := false)), done + {m})
    ensures !At(st, m).write ==> Writing(x, gr, st, done + {m})
    ensures NodesKept(x, st, Put(st, m, At(st, m).(write := false)))
  {
    GroupOutside(x, gr);
    var cell := At(st, m).(write := false);
    assert MemberOk(x, gr, st, m, false);
    PutMemberOk(x, gr, st, m, cell, None, None);
    hide WellRanked, Shape, MemberTri, Done, Stage, ChoiceTri, GroupOk, MemberVisible;
  }

  lemma {:induction false} StringOfMember(x: Context, gr: Group, st: State, m: Sym, done: set<Sym>)
    requires WellRanked(x.c, x.g) && Shape(x, gr) && Writing(x, gr, st, done) && m in gr.ms && m in done
    ensures StringValue(x.c, st, m) == Result(st, if MemberTri(x, gr, m) == YES then "y" else "n")
  {
    WritingMember(x, gr, st, m, done);
    GroupOutside(x, gr);
    MemberIsTwoValued(x, gr, m);
    hide WellRanked, Shape, MemberTri, Writing;
  }

  lemma MemberIsTwoValued(x: Context, gr: Group, m: Sym)
    requires WellRanked(x.c, x.g) && Shape(x, gr)
    ensures MemberTri(x, gr, m) != MOD
  {
  }

  // Whether the member is the one its choice selects by default.
  lemma {:induction false} DefaultMemberCorrect(x: Context, gr: Group, st: State, m: Sym, done: set<Sym>)
    requires WellRanked(x.c, x.g) && Shape(x, gr) && Writing(x, gr, st, done) && m in gr.ms && m in done
    requires MemberTri(x, gr, m) == YES
    ensures m in x.c.decls && Shape(x, Unpicked(gr)) && gr.cs in x.c.decls && x.c.decls[gr.cs].role.Choice?
    ensures var r := IsDefaultMember(x.c, st, m);
      (r.v <==> !x.c.decls[gr.cs].role.optional && Selected(x, Unpicked(gr)) == Some(m)) &&
      LookedUp(x, gr, m, st, r.st, done)
  {
    GroupOutside(x, gr);
    ChosenShows(x, gr, m);
    WritingMember(x, gr, st, m, done);
    DefaultIsSelected(x, gr, st);
    var r := ChoiceDefault(x.c, st, gr.cs, gr.ms);
    OutsideKeeps(x, gr, st, r.st, m, done);
    hide WellRanked, Shape, Writing, ChoiceDefault, Selected, Sound, Outside, Done;
  }

  lemma OutsideKeeps(x: Context, gr: Group, st: State, st': State, m: Sym, done: set<Sym>)
    requires WellRanked(x.c, x.g) && Shape(x, gr) && Writing(x, gr, st, done) && m in gr.ms
    requires Sound(x, st') && Outside(x, st, st')
    ensures LookedUp(x, gr, m, st, st', done)
  {
    GroupOutside(x, gr);
    OutsideIsMoved(x, gr, st, st', ChoiceTri(x, gr));
    MovedIsOk(x, gr, st, st', None);
    hide WellRanked, Shape, MemberTri, Done, Stage, ChoiceTri, GroupOk, Moved, Sound;
  }

  // The line of a member.
  ghost function MemberLine(x: Context, gr: Group, m: Sym): string
    requires WellRanked(x.c, x.g) && Shape(x, gr) && m in gr.ms && m.Var?
  {
    if InFile(x, gr, m) then SymbolLine(m, "y") else []
  }

  // A member that is n is not written.
  lemma {:induction false} UnchangedMember(x: Context, gr: Group, st: State, m: Sym, done: set<Sym>)
    requires WellRanked(x.c, x.g) && Shape(x, gr) && Writing(x, gr, st, done) && m in gr.ms && m in done
    requires MemberTri(x, gr, m) != YES && m.Var? && m in x.c.decls
    ensures var r := WriteChanged(x.c, st, m); Writing(x, gr, r.st, done) && NodesKept(x, st, r.st) && r.v == []
  {
    StringOfMember(x, gr, st, m, done);
    DefaultOfMember(x, gr, st, m, done);
    hide WellRanked, Shape, Writing, StringDefault, StringValue, IsDefaultMember, SymbolLine, MemberTri, Selected;
  }

  // A member that is y is written unless it is the default of its choice.
  lemma {:induction false} ChangedMember(x: Context, gr: Group, st: State, m: Sym, done: set<Sym>)
    requires WellRanked(x.c, x.g) && Shape(x, gr) && Writing(x, gr, st, done) && m in gr.ms && m in done
    requires MemberTri(x, gr, m) == YES && At(st, m).visible != NO && m.Var? && m in x.c.decls
    ensures gr.cs in x.c.decls && x.c.decls[gr.cs].role.Choice? && Shape(x, Unpicked(gr))
    ensures var r := WriteChanged(x.c, st, m);
      Writing(x, gr, r.st, done) && NodesKept(x, st, r.st) &&
      r.v == if x.c.decls[gr.cs].role.optional || Selected(x, Unpicked(gr)) != Some(m) then SymbolLine(m, "y") else []
  {
    hide WellRanked, Shape, Writing, StringDefault, StringValue, IsDefaultMember, SymbolLine, MemberTri, Selected, WriteChanged;
    WritingMember(x, gr, st, m, done);
    StringOfMember(x, gr, st, m, done);
    DefaultOfMember(x, gr, st, m, done);
    var d := StringDefault(x.c, st, m);
    DefaultMemberCorrect(x, gr, d.st, m, done);
    StringOfMember(x, gr, IsDefaultMember(x.c, d.st, m).st, m, done);
    WriteChangedYes(x.c, st, m);
  }

  // The steps for a value of y that is not the default text.
  lemma WriteChangedYes(c: Config, st: State, m: Sym)
    requires m.Var? && m in c.decls && At(st, m).visible > At(st, m).revDep && StringValue(c, st, m) == Result(st, "y")
    requires var d := StringDefault(c, st, m);
      var p := IsDefaultMember(c, d.st, m);
      d.v == "n" && StringValue(c, p.st, m) == Result(p.st, "y")
    ensures var p := IsDefaultMember(c, StringDefault(c, st, m).st, m);
      WriteChanged(c, st, m) == Result(p.st, if p.v then [] else SymbolLine(m, "y"))
  {
    hide StringDefault, StringValue, IsDefaultMember, SymbolLine;
  }

  lemma {:induction false} WriteChangedMember(x: Context, gr: Group, st: State, m: Sym, done: set<Sym>)
    requires WellRanked(x.c, x.g) && Shape(x, gr) && Writing(x, gr, st, done) && m in gr.ms && m in done
    requires MemberTri(x, gr, m) == YES ==> At(st, m).visible != NO
    ensures m.Var? && m in x.c.decls && gr.cs in x.c.decls && x.c.decls[gr.cs].role.Choice? && Shape(x, Unpicked(gr))
    ensures var r := WriteChanged(x.c, st, m);
      Writing(x, gr, r.st, done) && NodesKept(x, st, r.st) &&
      r.v == if MemberTri(x, gr, m) == YES && (x.c.decls[gr.cs].role.optional || Selected(x, Unpicked(gr)) != Some(m))
             then SymbolLine(m, "y") else []
  {
    GroupOutside(x, gr);
    UnpickedShape(x, gr);
    hide WellRanked, Shape, Writing, WriteChanged, SymbolLine, MemberTri, Selected, NodesKept;
    if MemberTri(x, gr, m) == YES {
      ChangedMember(x, gr, st, m, done);
    } else {
      UnchangedMember(x, gr, st, m, done);
    }
  }

  /** The turn of the loop for a member writes its line the first time it is met, if its value is not what
      the choice would select by default. */
  lemma {:induction false} MemberStep(x: Context, gr: Group, st: State, m: Sym, done: set<Sym>)
    requires WellRanked(x.c, x.g) && Shape(x, gr) && Writing(x, gr, st, done) && m in gr.ms
    ensures m.Var? && m in x.c.decls
    ensures var r := WriteStep(x.c, st, m);
      r.v == (if m in done then [] else MemberLine(x, gr, m)) && Writing(x, gr, r.st, done + {m}) && NodesKept(x, st, r.st)
  {
    GroupOutside(x, gr);
    EvaluateMember(x, gr, st, m, done);
    var st1 := CalcValue(x.c, st, m);
    ClearMemberMark(x, gr, st1, m, done);
    if At(st1, m).write {
      WriteChangedMember(x, gr, Put(st1, m, At(st1, m).(write := false)), m, done + {m});
    }
    NotWritten(x, gr, st1, m, done);
    hide WellRanked, Shape, CalcValue, WriteChanged, SymbolLine, MemberTri, Selected, GroupOk, Writing;
  }

  lemma NotWritten(x: Context, gr: Group, st: State, m: Sym, done: set<Sym>)
    requires WellRanked(x.c, x.g) && Shape(x, gr) && m in gr.ms && Ready(x, gr, st, m, done)
    ensures m in done && MemberTri(x, gr, m) == YES ==> !At(st, m).write
    ensures MemberTri(x, gr, m) == YES ==> At(st, m).visible != NO
  {
  }

  // ----- all entries -----

  lemma {:induction false} VisitAlike(x: Context, gr: Group, s: Sym)
    requires WellRanked(x.c, x.g) && Shape(x, gr)
    ensures Alike(x, Visit(x, s)) && Shape(Visit(x, s), gr)
  {
    assert forall t <- x.g.nodes :: True(Visit(x, s), t) == True(x, t);
    AlikeShape(x, Visit(x, s), gr);
  }

  lemma AlikeVisible(x: Context, y: Context, gr: Group, m: Sym)
    requires WellRanked(x.c, x.g) && Alike(x, y) && m in x.c.decls
    ensures forall v :: MemberVisible(y, gr, m, v) == MemberVisible(x, gr, m, v)
  {
    hide WellRanked, VisibleIn;
  }

  // The same cells are as good for a context that is alike.
  lemma {:induction false} AlikeOk(x: Context, y: Context, gr: Group, st: State, st': State)
    requires WellRanked(x.c, x.g) && Alike(x, y) && Shape(x, gr) && Shape(y, gr) && GroupOk(x, gr, st, None)
    requires Sound(y, st') && forall t :: t !in x.g.nodes ==> At(st', t) == At(st, t)
    ensures GroupOk(y, gr, st', None)
  {
    AlikeGroup(x, y, gr);
    GroupOutside(x, gr);
    forall m | m in gr.ms ensures MemberOk(y, gr, st', m, false) {
      assert MemberOk(x, gr, st, m, false);
      hide *;
    }
    if At(st, gr.cs).valid {
      AlikeDone(x, y, gr, st, st');
    }
    hide WellRanked, Shape, Alike, Sound, Done, MemberTri, ChoiceTri, Selected;
  }

  lemma {:induction false} AlikeDone(x: Context, y: Context, gr: Group, st: State, st': State)
    requires WellRanked(x.c, x.g) && Alike(x, y) && Shape(x, gr) && Shape(y, gr) && Done(x, gr, st)
    requires forall t :: t !in x.g.nodes ==> At(st', t) == At(st, t)
    ensures Done(y, gr, st')
  {
    AlikeGroup(x, y, gr);
    GroupOutside(x, gr);
    forall m | m in gr.ms ensures MemberVisible(y, gr, m, YES) == MemberVisible(x, gr, m, YES) {
      AlikeVisible(x, y, gr, m);
    }
    hide WellRanked, Shape, Alike, ChoiceTri, Selected, MemberVisible;
  }

  lemma {:induction false} AlikeWriting(x: Context, y: Context, gr: Group, st: State, st': State, done: set<Sym>)
    requires WellRanked(x.c, x.g) && Alike(x, y) && Shape(x, gr) && Shape(y, gr) && Writing(x, gr, st, done)
    requires Sound(y, st') && forall t :: t !in x.g.nodes ==> At(st', t) == At(st, t)
    ensures Writing(y, gr, st', done)
  {
    hide WellRanked, Shape, Alike, GroupOk, MemberTri, Sound, ChoiceTri, Selected, Mode;
    AlikeOk(x, y, gr, st, st');
    AlikeGroup(x, y, gr);
    OutsideCells(x, gr, st, st');
  }

  lemma OutsideCells(x: Context, gr: Group, st: State, st': State)
    requires Shape(x, gr) && forall t :: t !in x.g.nodes ==> At(st', t) == At(st, t)
    ensures At(st', gr.cs) == At(st, gr.cs) && forall m <- gr.ms :: At(st', m) == At(st, m)
  {
    GroupOutside(x, gr);
    hide Shape;
  }

  // The turn for a symbol outside of the choice.
  lemma {:induction false} NodeStep(x: Context, gr: Group, st: State, s: Sym, done: set<Sym>)
    requires WellRanked(x.c, x.g) && Shape(x, gr) && Writing(x, gr, st, done) && Visited(x, st)
    requires s in x.g.nodes && x.cleared <= x.g.nodes && !TypeOf(s).Unknown?
    ensures s.Var? && s in x.c.decls && Shape(Visit(x, s), gr)
    ensures var r := WriteStep(x.c, st, s);
      r.v == EntryText(x, s) && Writing(Visit(x, s), gr, r.st, done) && Visited(Visit(x, s), r.st)
  {
    StageOfWriting(x, gr, st, done);
    NodeIsPlain(x, s);
    VisitAlike(x, gr, s);
    hide WellRanked, Shape, Alike, WriteStep, Writing, Visited, EntryText, Sound;
    WriteStepCorrect(x, st, s);
    AlikeWriting(x, Visit(x, s), gr, st, WriteStep(x.c, st, s).st, done);
  }

  lemma StageOfWriting(x: Context, gr: Group, st: State, done: set<Sym>)
    requires WellRanked(x.c, x.g) && Shape(x, gr) && Writing(x, gr, st, done)
    ensures Sound(x, st)
  {
  }

  /** The text for the entries in order, of which those in done were met before. */
  ghost function GroupDefconfig(x: Context, gr: Group, order: seq<Sym>, done: set<Sym>): string
    requires WellRanked(x.c, x.g) && Shape(x, gr) && forall s <- order :: s in x.g.nodes || s == gr.cs || s in gr.ms
    decreases |order|
  {
    if order == [] then []
    else
      var s, rest := order[0], order[1..];
      assert s in order;
      if s in x.g.nodes then
        VisitAlike(x, gr, s);
        EntryText(x, s) + GroupDefconfig(Visit(x, s), gr, rest, done)
      else if s in gr.ms then
        GroupOutside(x, gr);
        (if s in done then [] else MemberLine(x, gr, s)) + GroupDefconfig(x, gr, rest, done + {s})
      else GroupDefconfig(x, gr, rest, done)
  }

  // What one turn of the loop writes.
  ghost function Turn(x: Context, gr: Group, s: Sym, done: set<Sym>): string
    requires WellRanked(x.c, x.g) && Shape(x, gr) && (s in x.g.nodes || s == gr.cs || s in gr.ms)
  {
    GroupOutside(x, gr);
    if s in x.g.nodes then EntryText(x, s) else if s in gr.ms && s !in done then MemberLine(x, gr, s) else []
  }

  function AfterTurn(x: Context, s: Sym): Context {
    if s in x.g.nodes then x.(cleared := x.cleared + {s}) else x
  }

  lemma {:induction false} OneTurn(x: Context, gr: Group, st: State, s: Sym, done: set<Sym>)
    requires WellRanked(x.c, x.g) && Shape(x, gr) && Writing(x, gr, st, done) && Visited(x, st) && x.cleared <= x.g.nodes
    requires s.Var? && s in x.c.decls && !s.typ.Unknown? && (s in x.g.nodes || s == gr.cs || s in gr.ms)
    ensures Shape(AfterTurn(x, s), gr)
    ensures var r := WriteStep(x.c, st, s);
      r.v == Turn(x, gr, s, done) && Visited(AfterTurn(x, s), r.st) &&
      Writing(AfterTurn(x, s), gr, r.st, if s in gr.ms then done + {s} else done)
  {
    GroupOutside(x, gr);
    if s in x.g.nodes {
      NodeStep(x, gr, st, s, done);
    } else if s in gr.ms {
      MemberStep(x, gr, st, s, done);
    } else {
      assert WriteStep(x.c, st, s) == Result(st, []);
    }
    hide WellRanked, Shape, Writing, WriteStep, EntryText, MemberLine;
  }

  lemma {:induction false} DefconfigTurn(x: Context, gr: Group, order: seq<Sym>, done: set<Sym>)
    requires WellRanked(x.c, x.g) && Shape(x, gr) && order != []
    requires forall s <- order :: s in x.g.nodes || s == gr.cs || s in gr.ms
    ensures Shape(AfterTurn(x, order[0]), gr)
    ensures GroupDefconfig(x, gr, order, done) ==
            Turn(x, gr, order[0], done) +
            GroupDefconfig(AfterTurn(x, order[0]), gr, order[1..], if order[0] in gr.ms then done + {order[0]} else done)
  {
    GroupOutside(x, gr);
    VisitAlike(x, gr, order[0]);
    hide WellRanked, Shape, EntryText, MemberLine;
  }

  lemma {:induction false} WriteAllOfGroup(x: Context, gr: Group, st: State, order: seq<Sym>, done: set<Sym>)
    requires WellRanked(x.c, x.g) && Shape(x, gr) && Writing(x, gr, st, done) && Visited(x, st) && x.cleared <= x.g.nodes
    requires AllDeclared(x.c, order) && forall s <- order :: s in x.g.nodes || s == gr.cs || s in gr.ms
    ensures WriteAll(x.c, st, order).v == GroupDefconfig(x, gr, order, done)
    decreases |order|
  {
    if order != [] {
      var s, rest := order[0], order[1..];
      assert s in order && AllDeclared(x.c, rest);
      var y, done', a := AfterTurn(x, s), if s in gr.ms then done + {s} else done, WriteStep(x.c, st, s);
      assert y.c == x.c && y.g == x.g && (x.cleared <= x.g.nodes ==> y.cleared <= y.g.nodes);
      assert WriteAll(x.c, st, order).v == a.v + WriteAll(x.c, a.st, rest).v;
      hide WellRanked, Shape, Writing, Visited, WriteStep, Turn, GroupDefconfig, AfterTurn, WriteAll;
      OneTurn(x, gr, st, s, done);
      DefconfigTurn(x, gr, order, done);
      WriteAllOfGroup(y, gr, a.st, rest, done');
    }
  }

  /** conf_write_defconfig writes, besides the lines of the symbols outside of choices, the line of the selected
      member at its first entry, unless the choice is not optional and would select it by default; it writes
      nothing for the choice and its other members, whatever was cached before. */
  lemma {:induction false} WriteGroup(x: Context, gr: Group, st: State, order: seq<Sym>)
    requires WellRanked(x.c, x.g) && Shape(x, gr) && Waiting(x, gr, st) && UsersAre(x.g, st, x.users) && Wired(x.c, st)
    requires x.cleared == {} && AllDeclared(x.c, order)
    requires forall s <- order :: s in x.g.nodes || s == gr.cs || s in gr.ms
    ensures WriteDefconfig(x.c, st, order).v == GroupDefconfig(x, gr, order, {})
  {
    var st1 := ClearAllValid(x.c, st);
    ClearedIsOk(x, gr, st);
    ClearOutside(x, st);
    GroupOutside(x, gr);
    forall m | m in gr.ms ensures !At(st1, m).valid {
      InvalidateOnly(st, m);
    }
    hide WellRanked, Shape, Waiting, UsersAre, Wired, ClearAllValid, GroupOk, MemberTri, GroupDefconfig, Invalidate;
    WriteAllOfGroup(x, gr, st1, order, {});
  }

  // ----- reading it back -----

  /** The member whose line is in the file. */
  ghost function LineOf(x: Context, gr: Group): (r: Option<Sym>)
    requires WellRanked(x.c, x.g) && Shape(x, gr)
    ensures forall m <- gr.ms :: InFile(x, gr, m) <==> r == Some(m)
    ensures r.Some? ==> r.value in gr.ms
  {
    var w := Selected(x, gr);
    if w.Some? && InFile(x, gr, w.value) then w else None
  }

  // The user value of the choice after the lines for the entries in order were read.
  ghost function ChoiceAfter(x: Context, gr: Group, u: User, order: seq<Sym>, done: set<Sym>): User
    requires WellRanked(x.c, x.g) && Shape(x, gr)
  {
    var w := LineOf(x, gr);
    if w.Some? && w.value in order && w.value !in done then u.(tri := YES, pick := w) else u
  }

  // What reading the text does to the state.
  ghost predicate ReadTo(x: Context, gr: Group, order: seq<Sym>, done: set<Sym>, st: State, st': State)
    requires WellRanked(x.c, x.g) && Shape(x, gr)
  {
    OnlyUserValues(st, st') && At(st', gr.cs).user == ChoiceAfter(x, gr, At(st, gr.cs).user, order, done) &&
    forall t <- x.g.nodes :: At(st', t).user == UserAfter(x, st, order, t)
  }

  ghost predicate OnlyUserValues(st: State, st': State) {
    st'.modulesVal == st.modulesVal && forall t :: At(st', t) == At(st, t).(user := At(st', t).user)
  }

  // The state after the text of one turn was read.
  ghost function TurnRead(x: Context, gr: Group, table: Table, st: State, s: Sym, done: set<Sym>): State
    requires WellRanked(x.c, x.g) && Shape(x, gr) && (s in x.g.nodes || s == gr.cs || s in gr.ms)
  {
    if s in x.g.nodes then (if s !in x.cleared && Written(x, s) then SetUser(st, s, ReadBack(x, s)) else st)
    else if s in gr.ms && s !in done && LineOf(x, gr) == Some(s) then
      GroupOutside(x, gr);
      ReadLine(x.c, table, st, SymbolLine(s, "y"))
    else st
  }

  lemma {:induction false} ReadTurn(x: Context, gr: Group, table: Table, st: State, s: Sym, done: set<Sym>, rest: string)
    requires WellRanked(x.c, x.g) && Shape(x, gr) && Fileable(x, table) && Readable(x.c, table, gr.cs, gr.ms)
    requires s in x.g.nodes || s == gr.cs || s in gr.ms
    requires s in x.g.nodes && s !in x.cleared ==> At(st, s).user == FRESH.user
    ensures ReadLines(x.c, table, st, Lines(Turn(x, gr, s, done) + rest)) ==
            ReadLines(x.c, table, TurnRead(x, gr, table, st, s, done), Lines(rest))
  {
    GroupOutside(x, gr);
    if s in x.g.nodes {
      ReadEntry(x, table, st, s, rest);
    } else if s in gr.ms && s !in done && LineOf(x, gr) == Some(s) {
      ReadFirstLine(x.c, table, st, s, rest, YES);
    } else {
      assert Turn(x, gr, s, done) + rest == rest;
    }
    hide WellRanked, Shape, ReadLines, ReadLine, SymbolLine, Written, ReadBack, EntryText, LineOf, Lines;
  }

  lemma {:induction false} TurnReadTo(x: Context, gr: Group, table: Table, st: State, s: Sym, done: set<Sym>)
    requires WellRanked(x.c, x.g) && Shape(x, gr) && Readable(x.c, table, gr.cs, gr.ms)
    requires s in x.g.nodes || s == gr.cs || s in gr.ms
    ensures ReadTo(x, gr, [s], done, st, TurnRead(x, gr, table, st, s, done))
  {
    GroupOutside(x, gr);
    hide WellRanked, Shape, ReadLine, SymbolLine, Written, ReadBack, LineOf;
    if s in x.g.nodes {
      NodeReadTo(x, gr, st, s, done);
    } else if s in gr.ms && s !in done && LineOf(x, gr) == Some(s) {
      MemberReadTo(x, gr, table, st, s, done);
    } else {
      NothingReadTo(x, gr, st, s, done);
    }
  }

  lemma {:induction false} NothingReadTo(x: Context, gr: Group, st: State, s: Sym, done: set<Sym>)
    requires WellRanked(x.c, x.g) && Shape(x, gr) && s !in x.g.nodes
    requires LineOf(x, gr) != Some(s) || s in done
    ensures ReadTo(x, gr, [s], done, st, st)
  {
    hide WellRanked, Shape, Written, ReadBack, LineOf;
  }

  lemma {:induction false} NodeReadTo(x: Context, gr: Group, st: State, s: Sym, done: set<Sym>)
    requires WellRanked(x.c, x.g) && Shape(x, gr) && s in x.g.nodes
    ensures ReadTo(x, gr, [s], done, st, if s !in x.cleared && Written(x, s) then SetUser(st, s, ReadBack(x, s)) else st)
  {
    NoLine(x, gr, At(st, gr.cs).user, s, done);
    GroupOutside(x, gr);
    var st' := if s !in x.cleared && Written(x, s) then SetUser(st, s, ReadBack(x, s)) else st;
    forall t | t in x.g.nodes ensures At(st', t).user == UserAfter(x, st, [s], t) {
      hide Written, ReadBack, WellRanked, Shape;
    }
    SetUserOnly(st, s, ReadBack(x, s));
    hide WellRanked, Shape, Written, ReadBack, ChoiceAfter, UserAfter, OnlyUserValues;
  }

  lemma SetUserOnly(st: State, s: Sym, u: User)
    ensures OnlyUserValues(st, st) && OnlyUserValues(st, SetUser(st, s, u))
    ensures forall t :: t != s ==> At(SetUser(st, s, u), t) == At(st, t)
  {
  }

  lemma {:induction false} NoLine(x: Context, gr: Group, u: User, s: Sym, done: set<Sym>)
    requires WellRanked(x.c, x.g) && Shape(x, gr) && s in x.g.nodes
    ensures ChoiceAfter(x, gr, u, [s], done) == u
  {
    GroupOutside(x, gr);
    hide WellRanked, Shape, LineOf;
  }

  lemma {:induction false} MemberReadTo(x: Context, gr: Group, table: Table, st: State, s: Sym, done: set<Sym>)
    requires WellRanked(x.c, x.g) && Shape(x, gr) && Readable(x.c, table, gr.cs, gr.ms)
    requires s in gr.ms && s !in done && LineOf(x, gr) == Some(s)
    ensures s.Var? && ReadTo(x, gr, [s], done, st, ReadLine(x.c, table, st, SymbolLine(s, "y")))
  {
    GroupOutside(x, gr);
    assert Letter(YES) == "y";
    hide WellRanked, Shape, ReadLine, SymbolLine, Written, ReadBack, LineOf;
    ReadMemberLine(x.c, table, st, s, YES);
    MemberCells(gr.cs, s, st, ReadLine(x.c, table, st, SymbolLine(s, "y")), x.g.nodes);
    assert s in [s] && forall t <- x.g.nodes :: t !in [s];
    hide OnlyUserValues, At;
  }

  lemma MemberCells(cs: Sym, m: Sym, st: State, st': State, nodes: set<Sym>)
    requires At(st', m) == At(st, m).(user := At(st, m).user.(has := true, tri := YES))
    requires At(st', cs) == At(st, cs).(user := Noted(At(st, cs).user, m, YES))
    requires (forall t :: t != m && t != cs ==> At(st', t) == At(st, t)) && st'.modulesVal == st.modulesVal
    requires m !in nodes && cs !in nodes
    ensures OnlyUserValues(st, st') && At(st', cs).user == At(st, cs).user.(tri := YES, pick := Some(m))
    ensures forall t <- nodes :: At(st', t).user == At(st, t).user
  {
  }

  // The user values of the acyclic part after one turn and the others.
  lemma {:induction false} NodesOnward(x: Context, s: Sym, rest: seq<Sym>, st: State, st1: State, t: Sym)
    requires WellRanked(x.c, x.g) && t in x.g.nodes && At(st1, t).user == UserAfter(x, st, [s], t)
    ensures UserAfter(AfterTurn(x, s), st1, rest, t) == UserAfter(x, st, [s] + rest, t)
  {
    VisitSameTruth(x, s, t);
    hide WellRanked, Written, ReadBack;
  }

  lemma {:induction false} ChoiceOnward(x: Context, gr: Group, u: User, s: Sym, rest: seq<Sym>, done: set<Sym>)
    requires WellRanked(x.c, x.g) && Shape(x, gr) && Shape(AfterTurn(x, s), gr)
    ensures ChoiceAfter(AfterTurn(x, s), gr, ChoiceAfter(x, gr, u, [s], done), rest, if s in gr.ms then done + {s} else done) ==
            ChoiceAfter(x, gr, u, [s] + rest, done)
  {
    LineStays(x, gr, s);
    hide WellRanked, Shape, LineOf, AfterTurn;
  }

  lemma OnlyUsersOnward(a: State, b: State, c: State)
    requires OnlyUserValues(a, b) && OnlyUserValues(b, c)
    ensures OnlyUserValues(a, c)
  {
  }

  // One turn and then the others.
  lemma {:induction false} ReadOnward(x: Context, gr: Group, order: seq<Sym>, done: set<Sym>, st: State, st1: State, st': State)
    requires WellRanked(x.c, x.g) && Shape(x, gr) && order != []
    requires Shape(AfterTurn(x, order[0]), gr) && ReadTo(x, gr, [order[0]], done, st, st1)
    requires ReadTo(AfterTurn(x, order[0]), gr, order[1..], if order[0] in gr.ms then done + {order[0]} else done, st1, st')
    ensures ReadTo(x, gr, order, done, st, st')
  {
    var s, rest := order[0], order[1..];
    assert order == [s] + rest;
    OnlyUsersOnward(st, st1, st');
    ChoiceOnward(x, gr, At(st, gr.cs).user, s, rest, done);
    forall t | t in x.g.nodes ensures At(st', t).user == UserAfter(x, st, order, t) {
      NodesOnward(x, s, rest, st, st1, t);
      hide *;
    }
    hide WellRanked, Shape, UserAfter, ChoiceAfter, OnlyUserValues, At;
  }

  lemma {:induction false} LineStays(x: Context, gr: Group, s: Sym)
    requires WellRanked(x.c, x.g) && Shape(x, gr) && Shape(AfterTurn(x, s), gr)
    ensures LineOf(AfterTurn(x, s), gr) == LineOf(x, gr)
  {
    VisitAlike(x, gr, s);
    AlikeGroup(x, AfterTurn(x, s), gr);
    UnpickedShape(x, gr);
    AlikeGroup(x, AfterTurn(x, s), Unpicked(gr));
    GroupOutside(x, gr);
    hide WellRanked, Shape, MemberTri, ChoiceTri, Selected, Mode, Alike;
  }

  lemma {:induction false} ReadGroupText(x: Context, gr: Group, table: Table, st: State, order: seq<Sym>, done: set<Sym>)
    requires WellRanked(x.c, x.g) && Shape(x, gr) && Fileable(x, table) && Readable(x.c, table, gr.cs, gr.ms)
    requires forall s <- order :: s in x.g.nodes || s == gr.cs || s in gr.ms
    requires forall s <- order :: s in x.g.nodes && s !in x.cleared ==> At(st, s).user == FRESH.user
    ensures ReadTo(x, gr, order, done, st, ReadLines(x.c, table, st, Lines(GroupDefconfig(x, gr, order, done))))
    decreases |order|
  {
    if order != [] {
      var s, rest := order[0], order[1..];
      assert s in order;
      var st1, y := TurnRead(x, gr, table, st, s, done), AfterTurn(x, s);
      var done' := if s in gr.ms then done + {s} else done;
      DefconfigTurn(x, gr, order, done);
      var text := GroupDefconfig(y, gr, rest, done');
      ReadTurn(x, gr, table, st, s, done, text);
      TurnReadTo(x, gr, table, st, s, done);
      if s in x.g.nodes {
        FileableStays(x, table, s);
      }
      FreshStays(x, gr, order, done, st, st1);
      hide WellRanked, Shape, Fileable, Readable, ReadTo, TurnRead, Turn, GroupDefconfig, ReadLines;
      ReadGroupText(y, gr, table, st1, rest, done');
      ReadOnward(x, gr, order, done, st, st1, ReadLines(x.c, table, st1, Lines(text)));
    } else {
      hide WellRanked, Shape, Fileable, LineOf;
    }
  }

  lemma FreshStays(x: Context, gr: Group, order: seq<Sym>, done: set<Sym>, st: State, st1: State)
    requires WellRanked(x.c, x.g) && Shape(x, gr) && order != [] && ReadTo(x, gr, [order[0]], done, st, st1)
    requires forall s <- order :: s in x.g.nodes && s !in x.cleared ==> At(st, s).user == FRESH.user
    ensures forall s <- order[1..] ::
      s in x.g.nodes && s !in AfterTurn(x, order[0]).cleared ==> At(st1, s).user == FRESH.user
  {
    hide WellRanked, Shape, Written, ReadBack, LineOf;
  }

  // ----- the round trip -----

  /** A choice that must not be n is selected where it shows, as menu_finalize arranges it. */
  ghost predicate SelectedIfShown(x: Context, gr: Group)
    requires WellRanked(x.c, x.g) && Shape(x, gr)
  {
    ShapeFacts(x, gr);
    GroupOutside(x, gr);
    var d := x.c.decls[gr.cs];
    d.role.optional || VisibleIn(d, gr.cs, Mods(x), NodeEnv(x)) == NO || RevDepIn(d, gr.cs, Mods(x), NodeEnv(x)) != NO
  }

  /** The group after the file was read. */
  ghost function Reloaded(x: Context, gr: Group): Group
    requires WellRanked(x.c, x.g) && Shape(x, gr)
  {
    var w := LineOf(x, gr);
    gr.(user := User(true, if w.Some? then YES else NO, "", w))
  }

  lemma ReloadedShape(x: Context, gr: Group)
    requires WellRanked(x.c, x.g) && Shape(x, gr)
    ensures Shape(x, Reloaded(x, gr))
  {
    hide WellRanked, LineOf, Over, NeedsChoice;
  }

  // What a wish of the user makes of the mode of the choice.
  lemma ModeOfWish(x: Context, gr: Group, gr': Group)
    requires WellRanked(x.c, x.g) && Shape(x, gr) && Shape(x, gr') && gr'.cs == gr.cs && gr'.user.has && gr'.user.tri != MOD
    ensures Mode(x, gr) == YES && gr'.user.tri == YES ==> Mode(x, gr') == YES
    ensures Mode(x, gr) == NO && gr'.user.tri == NO ==> Mode(x, gr') == NO
    ensures Mode(x, gr) == YES && SelectedIfShown(x, gr) && !x.c.decls[gr.cs].role.optional ==> Mode(x, gr') == YES
  {
    GroupOutside(x, gr);
    hide WellRanked, Shape, VisibleIn, DirDepIn, RevDepIn, ImpliedIn;
  }

  lemma {:induction false} SelectedOfReloaded(x: Context, gr: Group)
    requires WellRanked(x.c, x.g) && Shape(x, gr) && Shape(x, Reloaded(x, gr)) && Shape(x, Unpicked(gr))
    ensures LineOf(x, gr).Some? ==> Selected(x, Reloaded(x, gr)) == LineOf(x, gr) == Selected(x, gr)
    ensures LineOf(x, gr).None? ==> Selected(x, Reloaded(x, gr)) == Selected(x, Unpicked(gr))
    ensures Selected(x, gr).None? ==> Selected(x, Unpicked(gr)).None?
  {
    var gr' := Reloaded(x, gr);
    ShapeFacts(x, gr);
    SameFirst(x, gr', Unpicked(gr), gr.ms);
    SameDefault(x, gr', Unpicked(gr), x.c.decls[gr.cs].defaults);
    ShownAgain(x, gr);
    hide WellRanked, Shape, InFile, Shown;
  }

  lemma ShownAgain(x: Context, gr: Group)
    requires WellRanked(x.c, x.g) && Shape(x, gr)
    ensures forall m <- gr.ms :: m in x.c.decls && (Shown(x, Reloaded(x, gr), m) <==> Shown(x, gr, m))
    ensures forall m <- gr.ms :: m in x.c.decls && (Shown(x, Unpicked(gr), m) <==> Shown(x, gr, m))
  {
    ShapeFacts(x, gr);
    assert GroupEnv(x, Reloaded(x, gr), YES) == GroupEnv(x, gr, YES) == GroupEnv(x, Unpicked(gr), YES);
    hide WellRanked, Shape, LineOf, VisibleIn;
  }

  /** The lines of the file, or their absence, say all there is to say about the choice: with what they set,
      the choice and its members have the values they had. */
  lemma {:induction false} NothingOfGroupLost(x: Context, gr: Group)
    requires WellRanked(x.c, x.g) && Shape(x, gr) && SelectedIfShown(x, gr)
    requires forall m <- gr.ms :: m in x.c.decls && !x.c.decls[m].noWrite
    ensures Shape(x, Reloaded(x, gr)) && ChoiceTri(x, Reloaded(x, gr)) == ChoiceTri(x, gr)
    ensures forall m <- gr.ms :: MemberTri(x, Reloaded(x, gr), m) == MemberTri(x, gr, m)
  {
    GroupOutside(x, gr);
    ReloadedShape(x, gr);
    UnpickedShape(x, gr);
    ModeOfWish(x, gr, Reloaded(x, gr));
    ModeIsTwoValued(x, gr);
    SelectedOfReloaded(x, gr);
    hide WellRanked, Shape, Selected, Mode;
  }

  lemma {:induction false} RereadAlike(x: Context)
    requires WellRanked(x.c, x.g) && forall s <- x.g.nodes :: !Lost(x, s)
    ensures Alike(x, Reread(x))
  {
    hide Step, Lost, ReadBack, ValueOf, WellRanked;
    MinimalLosesNothing(x);
    forall s | s in x.g.nodes
      ensures SameValue(ValueOf(x.c, x.g, Mods(x), AllReadBack(x), s), True(x, s))
    {
      NothingLost(x, s);
    }
    SameModules(x);
  }

  // The user values after the text was read into a state that was reset.
  lemma {:induction false} ReloadedWaits(x: Context, gr: Group, order: seq<Sym>, st: State, st': State)
    requires WellRanked(x.c, x.g) && Shape(x, gr) && x.cleared == {}
    requires (forall s <- x.g.nodes :: s in order) && forall m <- gr.ms :: m in order
    requires Waiting(x, gr.(user := User(true, NO, "", None)), st) && UsersAre(x.g, st, map[]) && Wired(x.c, st)
    requires ReadTo(x, gr, order, {}, st, st')
    ensures Waiting(x, Reloaded(x, gr), st') && UsersAre(x.g, st', AllReadBack(x)) && Wired(x.c, st')
  {
    ReloadedUser(x, gr, order);
    forall t | t in x.g.nodes ensures At(st', t).user == UserOf(AllReadBack(x), t) {
      NodeReloaded(x, order, st, t);
      hide *;
    }
    hide WellRanked, Shape, UserAfter, ChoiceAfter, Reloaded, AllReadBack, LineOf;
    StillWaiting(x, gr, Reloaded(x, gr), st, st');
  }

  lemma ReloadedUser(x: Context, gr: Group, order: seq<Sym>)
    requires WellRanked(x.c, x.g) && Shape(x, gr) && forall m <- gr.ms :: m in order
    ensures ChoiceAfter(x, gr, User(true, NO, "", None), order, {}) == Reloaded(x, gr).user
    ensures Reloaded(x, gr) == gr.(user := Reloaded(x, gr).user)
  {
    hide WellRanked, Shape, InFile;
  }

  lemma NodeReloaded(x: Context, order: seq<Sym>, st: State, t: Sym)
    requires WellRanked(x.c, x.g) && t in x.g.nodes && t in order && x.cleared == {} && At(st, t).user == UserOf(map[], t)
    ensures UserAfter(x, st, order, t) == UserOf(AllReadBack(x), t)
  {
    NeverWritten(x, t);
  }

  lemma StillWaiting(x: Context, gr: Group, gr': Group, st: State, st': State)
    requires Waiting(x, gr.(user := User(true, NO, "", None)), st) && OnlyUserValues(st, st')
    requires gr' == gr.(user := At(st', gr.cs).user)
    ensures Waiting(x, gr', st')
  {
  }

  lemma NeverWritten(x: Context, t: Sym)
    requires WellRanked(x.c, x.g) && t in x.g.nodes
    ensures !Written(x, t) ==> ReadBack(x, t) == FRESH.user
  {
  }

  // The state after conf_reset.
  lemma ResetFor(x: Context, gr: Group, st: State)
    requires WellRanked(x.c, x.g) && Shape(x, gr) && Waiting(x, gr.(user := At(st, gr.cs).user), st) && Wired(x.c, st)
    ensures var st' := ConfReset(x.c, st);
      Waiting(x, gr.(user := User(true, NO, "", None)), st') && UsersAre(x.g, st', map[]) && Wired(x.c, st')
  {
    var y := x.(users := map[]);
    AlikeShape(x, y, gr);
    ResetWaits(y, gr, st);
    hide WellRanked, Shape, ConfReset;
  }

  lemma ReloadedFacts(x: Context, gr: Group)
    requires WellRanked(x.c, x.g) && Shape(x, gr)
    ensures Reread(x).c == x.c && Reread(x).g == x.g && Reread(x).users == AllReadBack(x)
    ensures Reloaded(x, gr).cs == gr.cs && Reloaded(x, gr).ms == gr.ms
  {
    hide WellRanked, Shape, LineOf, AllReadBack;
  }

  // The group in the context of the file.
  lemma {:induction false} GroupReread(x: Context, gr: Group)
    requires WellRanked(x.c, x.g) && Shape(x, gr) && Alike(x, Reread(x)) && SelectedIfShown(x, gr)
    requires forall m <- gr.ms :: m in x.c.decls && !x.c.decls[m].noWrite
    ensures WellRanked(Reread(x).c, Reread(x).g) && Shape(Reread(x), Reloaded(x, gr))
    ensures ChoiceTri(Reread(x), Reloaded(x, gr)) == ChoiceTri(x, gr)
    ensures forall m <- gr.ms :: MemberTri(Reread(x), Reloaded(x, gr), m) == MemberTri(x, gr, m)
  {
    ReloadedFacts(x, gr);
    hide *;
    NothingOfGroupLost(x, gr);
    AlikeGroup(x, Reread(x), Reloaded(x, gr));
  }

  // Two states that wait for the same values.
  lemma {:induction false} SameEnd(x: Context, y: Context, gr: Group, gr': Group, st: State, st': State, asked: seq<Sym>)
    requires WellRanked(x.c, x.g) && Shape(x, gr) && Waiting(x, gr, st) && UsersAre(x.g, st, x.users) && Wired(x.c, st)
    requires y.c == x.c && y.g == x.g && gr'.cs == gr.cs && gr'.ms == gr.ms
    requires Shape(y, gr') && Waiting(y, gr', st') && UsersAre(y.g, st', y.users) && Wired(y.c, st')
    requires ChoiceTri(y, gr') == ChoiceTri(x, gr) && forall m <- gr.ms :: MemberTri(y, gr', m) == MemberTri(x, gr, m)
    requires gr.cs in asked && (forall m <- gr.ms :: m in asked) &&
      forall s <- asked :: s == gr.cs || s in gr.ms || s in x.g.nodes
    ensures SameGroup(gr, AskAll(x.c, ClearAllValid(x.c, st), asked), AskAll(x.c, ClearAllValid(x.c, st'), asked))
  {
    hide WellRanked, Shape, Waiting, UsersAre, Wired, AskAll, ClearAllValid, ChoiceTri, MemberTri;
    GroupValues(x, gr, st, asked);
    GroupValues(y, gr', st', asked);
  }

  /** The choice and its members have the same values. */
  predicate SameGroup(gr: Group, st: State, st': State) {
    At(st', gr.cs).curr.tri == At(st, gr.cs).curr.tri && forall m <- gr.ms :: At(st', m).curr.tri == At(st, m).curr.tri
  }

  // The file sets what Reloaded says.
  lemma {:induction false} GroupReads(x: Context, gr: Group, table: Table, st: State, st0: State, order: seq<Sym>)
    requires WellRanked(x.c, x.g) && Shape(x, gr) && Waiting(x, gr, st) && UsersAre(x.g, st, x.users) && Wired(x.c, st)
    requires Waiting(x, gr.(user := At(st0, gr.cs).user), st0) && Wired(x.c, st0) && x.cleared == {}
    requires AllDeclared(x.c, order) && forall s <- order :: s in x.g.nodes || s == gr.cs || s in gr.ms
    requires (forall s <- x.g.nodes :: s in order) && forall m <- gr.ms :: m in order
    requires Fileable(x, table) && Readable(x.c, table, gr.cs, gr.ms)
    ensures var st' := ReadText(x.c, table, st0, WriteDefconfig(x.c, st, order).v);
      Waiting(x, Reloaded(x, gr), st') && UsersAre(x.g, st', AllReadBack(x)) && Wired(x.c, st')
  {
    var text, st1 := WriteDefconfig(x.c, st, order).v, ConfReset(x.c, st0);
    var st' := ReadText(x.c, table, st0, text);
    WriteGroup(x, gr, st, order);
    assert st' == ReadLines(x.c, table, st1, Lines(text));
    ResetFor(x, gr, st0);
    hide ConfReset, ReadText, ReadLines, WriteDefconfig, WellRanked, Shape, Waiting, Wired, ReadTo, GroupDefconfig, Fileable,
      Readable, ReadBack;
    assert forall s <- order :: s in x.g.nodes && s !in x.cleared ==> At(st1, s).user == FRESH.user;
    hide UsersAre;
    ReadGroupText(x, gr, table, st1, order, {});
    ReloadedWaits(x, gr, order, st1, st');
  }

  /** The round trip of a minimal configuration with a choice: if none of the other symbols is lost, writing,
      reading into any state and evaluating again, in any order, gives the choice and each of its members the
      value it had. */
  lemma {:induction false} GroupRoundTrip(x: Context, gr: Group, table: Table, st: State, st0: State, order: seq<Sym>, asked: seq<Sym>)
    requires WellRanked(x.c, x.g) && Shape(x, gr) && Waiting(x, gr, st) && UsersAre(x.g, st, x.users) && Wired(x.c, st)
    requires Waiting(x, gr.(user := At(st0, gr.cs).user), st0) && Wired(x.c, st0) && x.cleared == {}
    requires AllDeclared(x.c, order) && forall s <- order :: s in x.g.nodes || s == gr.cs || s in gr.ms
    requires (forall s <- x.g.nodes :: s in order && !Lost(x, s)) && forall m <- gr.ms :: m in order
    requires Fileable(x, table) && Readable(x.c, table, gr.cs, gr.ms) && SelectedIfShown(x, gr)
    requires forall m <- gr.ms :: m in x.c.decls && !x.c.decls[m].noWrite
    requires gr.cs in asked && (forall m <- gr.ms :: m in asked) &&
      forall s <- asked :: s == gr.cs || s in gr.ms || s in x.g.nodes
    ensures var st' := ReadText(x.c, table, st0, WriteDefconfig(x.c, st, order).v);
      SameGroup(gr, AskAll(x.c, ClearAllValid(x.c, st), asked), AskAll(x.c, ClearAllValid(x.c, st'), asked))
  {
    ghost var st' := ReadText(x.c, table, st0, WriteDefconfig(x.c, st, order).v);
    hide *;
    GroupReads(x, gr, table, st, st0, order);
    RereadAlike(x);
    GroupReread(x, gr);
    ReloadedFacts(x, gr);
    WaitingAnywhere(x, Reread(x), Reloaded(x, gr), st');
    SameEnd(x, Reread(x), gr, Reloaded(x, gr), st, st', asked);
  }

  lemma WaitingAnywhere(x: Context, y: Context, gr: Group, st: State)
    ensures Waiting(x, gr, st) == Waiting(y, gr, st)
  {
  }
}
