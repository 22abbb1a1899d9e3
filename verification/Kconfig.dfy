// The evaluator as the program runs it: symbols are cells that the methods update in place. Every
// method does to the state exactly what the function of the same name does.
module Kconfig {
  import opened Tristate
  import opened Expr
  import C = Config

  class Kconfig {
    const config: C.Config
    var cells: map<Sym, C.Cell>
    var modulesVal: Tri

    constructor (config: C.Config)
      ensures this.config == config && State() == C.State(map[], NO)
    {
      this.config := config;
      cells := map[];
      modulesVal := NO;
    }

    function State(): C.State
      reads this
    {
      C.State(cells, modulesVal)
    }

    function At(s: Sym): C.Cell
      reads this
    {
      C.At(State(), s)
    }

    ghost predicate NoFurther(st: C.State)
      reads this
    {
      C.NoFurther(config, State(), st)
    }

    method Put(s: Sym, cell: C.Cell)
      modifies this`cells
      ensures State() == C.Put(old(State()), s, cell)
      ensures cell.valid == old(At(s)).valid && cell.pending == old(At(s)).pending ==> NoFurther(old(State()))
    {
      if cell.valid == At(s).valid && cell.pending == At(s).pending {
        assert C.NoFurther(config, C.Update(config, State(), s, cell), State());
      }
      cells := cells[s := cell];
    }

    method CalcExpr(e: Expr) returns (v: Tri)
      modifies this
      ensures C.Result(State(), v) == C.CalcExpr(config, old(State()), e)
      decreases |C.Pending(config, State())|, |C.Invalid(config, State())|, 2, Size(e)
    {
      match e
      case Symbol(s) =>
        CalcValue(s);
        v := C.Current(config, State(), s).tri;
      case Not(a) =>
        v := CalcExpr(a);
        v := Negate(v);
      case And(a, b) =>
        v := CalcExpr(a);
        var w := CalcExpr(b);
        v := Min(v, w);
      case Or(a, b) =>
        v := CalcExpr(a);
        var w := CalcExpr(b);
        v := Max(v, w);
      case Cmp(rel, a, b) =>
        CalcValue(a);
        CalcValue(b);
        var str1 := StringValue(a);
        var str2 := StringValue(b);
        v := FromBool(Holds(rel, Compare(TypeOf(a), str1, TypeOf(b), str2)));
    }

    method StringValue(s: Sym) returns (str: string)
      modifies this
      ensures C.Result(State(), str) == C.StringValue(config, old(State()), s)
      decreases |C.Pending(config, State())|, |C.Invalid(config, State())|, 1, 0
    {
      var v := C.Current(config, State(), s);
      if !IsLogical(s) {
        return v.str;
      }
      if v.tri == MOD {
        CalcValue(config.modules);
        return if C.Current(config, State(), config.modules).tri == NO then "n" else "m";
      }
      return Letter(v.tri);
    }

    method CalcDep(d: Dep, missing: Tri) returns (v: Tri)
      modifies this
      ensures C.Result(State(), v) == C.CalcDep(config, old(State()), d, missing)
      decreases |C.Pending(config, State())|, |C.Invalid(config, State())|, 3, 0
    {
      v := missing;
      if d.Some? {
        v := CalcExpr(d.value);
      }
    }

    // Whether any prompt is visible.
    method CalcPrompts(s: Sym) returns (tri: Tri)
      requires s in config.decls
      modifies this
      ensures C.Result(State(), tri) == C.CalcPrompts(config, old(State()), s, config.decls[s].prompts, NO)
      decreases |C.Pending(config, State())|, |C.Invalid(config, State())|, 5, 0
    {
      var d := config.decls[s];
      tri := NO;
      var i := 0;
      while i < |d.prompts|
        invariant 0 <= i <= |d.prompts| && NoFurther(old(State()))
        invariant C.CalcPrompts(config, State(), s, d.prompts[i..], tri) ==
                  C.CalcPrompts(config, old(State()), s, d.prompts, NO)
      {
        var v := CalcDep(d.prompts[i], YES);
        if d.role.Member? && TypeOf(s).Tri3? && v == MOD && C.Current(config, State(), d.role.choice).tri == YES {
          v := NO;
        }
        tri := Max(tri, v);
        assert d.prompts[i..][1..] == d.prompts[i + 1..];
        i := i + 1;
      }
    }

    method CalcVisibility(s: Sym)
      requires s in config.decls
      modifies this
      ensures State() == C.CalcVisibility(config, old(State()), s)
      decreases |C.Pending(config, State())|, |C.Invalid(config, State())|, 6, 0
    {
      var tri := CalcPrompts(s);
      if tri == MOD && (!TypeOf(s).Tri3? || modulesVal == NO) {
        tri := YES;
      }
      Put(s, At(s).(visible := tri));
      if config.decls[s].role.Member? {
        return;
      }
      CalcDependencies(s);
    }

    // Direct dependencies, selects and implies, in this order.
    method CalcDependencies(s: Sym)
      requires s in config.decls
      modifies this
      ensures State() ==
        C.CalcImplied(config, C.CalcRevDep(config, C.CalcDirDep(config, old(State()), s), s), s)
      decreases |C.Pending(config, State())|, |C.Invalid(config, State())|, 5, 1
    {
      var d := config.decls[s];
      var tri := CalcDep(d.dirDep, YES);
      Put(s, At(s).(dirDep := C.Bump(config, State(), s, tri)));
      assert State() == C.CalcDirDep(config, old(State()), s);
      tri := CalcDep(d.revDep, NO);
      Put(s, At(s).(revDep := C.Bump(config, State(), s, tri)));
      assert State() == C.CalcRevDep(config, C.CalcDirDep(config, old(State()), s), s);
      tri := NO;
      if At(s).dirDep != NO {
        tri := CalcDep(d.implied, NO);
      }
      Put(s, At(s).(implied := C.Bump(config, State(), s, tri)));
    }

    method FindDefault(ds: seq<C.Default>) returns (r: Option<(Expr, Tri)>)
      modifies this
      ensures C.Result(State(), r) == C.FindDefault(config, old(State()), ds)
      decreases |C.Pending(config, State())|, |C.Invalid(config, State())|, 4, |ds|
    {
      var i := 0;
      while i < |ds|
        invariant 0 <= i <= |ds| && NoFurther(old(State()))
        invariant C.FindDefault(config, State(), ds[i..]) == C.FindDefault(config, old(State()), ds)
      {
        var v := CalcDep(ds[i].cond, YES);
        if v != NO {
          return Some((ds[i].value, v));
        }
        assert ds[i..][1..] == ds[i + 1..];
        i := i + 1;
      }
      return None;
    }

    method ChoiceDefault(s: Sym, members: seq<Sym>) returns (r: Option<Sym>)
      requires s in config.decls
      modifies this
      ensures C.Result(State(), r) == C.ChoiceDefault(config, old(State()), s, members)
      decreases |C.Pending(config, State())|, |C.Invalid(config, State())|, 5, 0
    {
      var ds := config.decls[s].defaults;
      var i := 0;
      while i < |ds|
        invariant 0 <= i <= |ds| && NoFurther(old(State()))
        invariant C.FindChoiceDefault(config, State(), ds[i..]) == C.FindChoiceDefault(config, old(State()), ds)
      {
        var v := CalcDep(ds[i].cond, YES);
        if v != NO && ds[i].value.Symbol? && At(ds[i].value.sym).visible != NO {
          return Some(ds[i].value.sym);
        }
        assert ds[i..][1..] == ds[i + 1..];
        i := i + 1;
      }
      i := 0;
      while i < |members|
        invariant 0 <= i <= |members|
        invariant C.FirstVisible(State(), members[i..]) == C.FirstVisible(State(), members)
      {
        if At(members[i]).visible != NO {
          return Some(members[i]);
        }
        assert members[i..][1..] == members[i + 1..];
        i := i + 1;
      }
      return None;
    }

    // First all members' visibilities; the result says whether every visible one has a user value.
    method CalcMembers(members: seq<Sym>, mine: bool) returns (all: bool)
      modifies this
      ensures C.Result(State(), all) == C.CalcMembers(config, old(State()), members, mine)
      decreases |C.Pending(config, State())|, |C.Invalid(config, State())|, 7, 0
    {
      hide C.CalcVisibility;
      all := mine;
      var i := 0;
      while i < |members|
        invariant 0 <= i <= |members| && NoFurther(old(State()))
        invariant C.CalcMembers(config, State(), members[i..], all) ==
                  C.CalcMembers(config, old(State()), members, mine)
      {
        if members[i] in config.decls {
          CalcVisibility(members[i]);
        }
        if At(members[i]).visible != NO {
          all := all && At(members[i]).user.has;
        }
        assert members[i..][1..] == members[i + 1..];
        i := i + 1;
      }
    }

    method CalcChoice(s: Sym, members: seq<Sym>) returns (r: Option<Sym>)
      requires s in config.decls
      modifies this
      ensures C.Result(State(), r) == C.CalcChoice(config, old(State()), s, members)
      decreases |C.Pending(config, State())|, |C.Invalid(config, State())|, 8, 0
    {
      var all := CalcMembers(members, At(s).user.has);
      Put(s, At(s).(user := At(s).user.(has := At(s).user.has && all)));
      r := At(s).user.pick;
      if r.Some? && At(r.value).visible != NO {
        return;
      }
      r := ChoiceDefault(s, members);
      if r.None? {
        Put(s, At(s).(curr := At(s).curr.(tri := NO)));
      }
    }

    method CalcDefault(s: Sym) returns (v: Tri)
      requires s in config.decls
      modifies this
      ensures C.Result(State(), v) == C.CalcDefault(config, old(State()), s)
      decreases |C.Pending(config, State())|, |C.Invalid(config, State())|, 7, 0
    {
      v := NO;
      var prop := FindDefault(config.decls[s].defaults);
      if prop.Some? {
        Put(s, At(s).(write := true));
        v := CalcExpr(prop.value.0);
        v := Min(v, prop.value.1);
      }
      if At(s).implied != NO {
        Put(s, At(s).(write := true));
        v := Max(v, At(s).implied);
      }
    }

    method CalcLogical(s: Sym) returns (v: Tri)
      requires s in config.decls
      modifies this
      ensures C.Result(State(), v) == C.CalcLogical(config, old(State()), s)
      decreases |C.Pending(config, State())|, |C.Invalid(config, State())|, 8, 0
    {
      var role := config.decls[s].role;
      if role.Member? && At(s).visible == YES {
        v := FromBool(At(role.choice).chosen == Some(s));
      } else {
        v := NO;
        if At(s).visible != NO && At(s).user.has {
          v := Min(At(s).user.tri, At(s).visible);
        } else {
          if At(s).revDep != NO {
            Put(s, At(s).(write := true));
          }
          if !role.Choice? {
            v := CalcDefault(s);
          }
        }
        v := C.Select(At(s), v);
      }
      if v == MOD && (C.IsBoolNow(config, State(), s) || At(s).implied == YES) {
        v := YES;
      }
    }

    method CalcText(s: Sym) returns (str: string)
      requires s in config.decls
      modifies this
      ensures C.Result(State(), str) == C.CalcText(config, old(State()), s)
      decreases |C.Pending(config, State())|, |C.Invalid(config, State())|, 7, 0
    {
      if At(s).visible != NO && At(s).user.has {
        return At(s).user.str;
      }
      str := "";
      var prop := FindDefault(config.decls[s].defaults);
      if prop.Some? && prop.value.0.Symbol? {
        Put(s, At(s).(write := true));
        CalcValue(prop.value.0.sym);
        str := C.Current(config, State(), prop.value.0.sym).str;
      }
    }

    method SetAllChoiceValues(s: Sym, members: seq<Sym>)
      requires s in config.decls && At(s).pending
      modifies this
      ensures State() == C.SetAllChoiceValues(config, old(State()), s, members)
    {
      var i := 0;
      while i < |members|
        invariant 0 <= i <= |members| && modulesVal == old(modulesVal)
        invariant C.ResetMembers(config, State(), members[i..]) == C.ResetMembers(config, old(State()), members)
      {
        var m := members[i];
        if !At(m).user.has {
          Put(m, At(m).(user := At(m).user.(tri := NO)));
        }
        assert members[i..][1..] == members[i + 1..];
        i := i + 1;
      }
      Put(s, At(s).(user := At(s).user.(has := true)));
      Put(s, At(s).(pending := false, valid := false));
    }

    method WriteMembers(members: seq<Sym>)
      modifies this
      ensures State() == C.WriteMembers(config, old(State()), members)
    {
      var i := 0;
      while i < |members|
        invariant 0 <= i <= |members|
        invariant C.WriteMembers(config, State(), members[i..]) == C.WriteMembers(config, old(State()), members)
      {
        var m := members[i];
        if At(m).visible != NO {
          Put(m, At(m).(write := true));
        }
        assert members[i..][1..] == members[i + 1..];
        i := i + 1;
      }
    }

    method CalcValue(s: Sym)
      modifies this
      ensures State() == C.CalcValue(config, old(State()), s)
      decreases |C.Pending(config, State())|, |C.Invalid(config, State())|, 0, 0
    {
      if !s.Var? || s !in config.decls || At(s).valid {
        return;
      }
      var role := config.decls[s].role;
      if role.Member? && At(s).pending {
        ghost var st := C.ClearPending(config, State(), s, false);
        Put(s, At(s).(pending := false, valid := false));
        assert State() == st;
        CalcValue(role.choice);
      }
      ghost var marked := C.SetValid(config, State(), s);
      Put(s, At(s).(valid := true));
      assert State() == marked;
      CalcBody(s);
    }

    method CalcBody(s: Sym)
      requires s in config.decls
      modifies this
      ensures State() == C.CalcBody(config, old(State()), s)
      decreases |C.Pending(config, State())|, |C.Invalid(config, State())|, 10, 0
    {
      if TypeOf(s).Unknown? {
        Put(s, At(s).(curr := Unset(s)));
        return;
      }
      Put(s, At(s).(write := false));
      CalcVisibility(s);
      Put(s, At(s).(write := At(s).write || At(s).visible != NO, curr := Unset(s), chosen := None));
      CalcCurrent(s);
      Finish(s);
    }

    method CalcCurrent(s: Sym)
      requires s in config.decls
      modifies this
      ensures State() == C.CalcCurrent(config, old(State()), s)
      decreases |C.Pending(config, State())|, |C.Invalid(config, State())|, 9, 0
    {
      if !IsLogical(s) {
        var str := CalcText(s);
        Put(s, At(s).(curr := Val(NO, str)));
      } else {
        var v := CalcLogical(s);
        Put(s, At(s).(curr := Val(v, "n"), chosen := None));
        var role := config.decls[s].role;
        if role.Choice? && v == YES {
          var chosen := CalcChoice(s, role.members);
          Put(s, At(s).(chosen := chosen));
        }
      }
    }

    method Finish(s: Sym)
      requires s in config.decls
      modifies this
      ensures State() == C.Finish(config, old(State()), s)
    {
      var d := config.decls[s];
      if s == config.modules {
        modulesVal := At(s).curr.tri;
      }
      if d.role.Choice? && At(s).write {
        WriteMembers(d.role.members);
      }
      if d.noWrite {
        Put(s, At(s).(write := false));
      }
      if d.role.Choice? && At(s).pending {
        SetAllChoiceValues(s, d.role.members);
      }
    }
  }
}
