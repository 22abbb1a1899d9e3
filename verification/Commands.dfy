// What the front ends do with the symbols: setting a value, writing a minimal configuration and
// reading a configuration file, on the symbols themselves. Every method does to the state what the
// function of the same name does.
module Commands {
  import opened Tristate
  import opened Expr
  import C = Config
  import N = Meaning
  import V = Evaluation
  import S = Setting
  import M = Minimal
  import F = Confdata
  import T = Text
  import opened Kconfig

  // ----- symbol.c -----

  lemma InvalidateAll(st: C.State, now: map<Sym, C.Cell>)
    requires now.Keys == st.cells.Keys && forall s <- now :: now[s] == st.cells[s].(valid := false)
    ensures C.State(now, st.modulesVal) == S.Invalidate(st)
  {
    assert now == S.Invalidate(st).cells;
  }

  /** sym_clear_all_valid; the order of the symbols does not matter. */
  method ClearAllValid(k: Kconfig)
    modifies k
    ensures k.State() == S.ClearAllValid(k.config, old(k.State()))
  {
    ghost var st := k.State();
    var todo := k.cells.Keys;
    while todo != {}
      invariant todo <= k.cells.Keys == st.cells.Keys && k.modulesVal == st.modulesVal
      invariant forall s <- st.cells :: k.cells[s] == if s in todo then st.cells[s] else st.cells[s].(valid := false)
      decreases todo
    {
      var s :| s in todo;
      k.cells := k.cells[s := k.cells[s].(valid := false)];
      todo := todo - {s};
    }
    InvalidateAll(st, k.cells);
    k.CalcValue(k.config.modules);
  }

  /** User values are changed, all cached values dropped, and then symbols asked for in some order: each
      has the value of the recursive definition. */
  method Recalculate(k: Kconfig, changes: seq<(Sym, C.User)>, order: seq<Sym>, ghost x: V.Context)
    returns (values: seq<Val>)
    requires x.c == k.config && N.WellRanked(x.c, x.g) && V.UsersAre(x.g, k.State(), x.users) && S.Wired(x.c, k.State())
    requires forall s <- order :: s in x.g.nodes
    modifies k
    ensures |values| == |order|
    ensures var users := S.UsersAfter(x.users, changes);
      forall i | 0 <= i < |order| ::
        var o := N.ValueOf(x.c, x.g, N.Modules(x.c, x.g, users), users, order[i]);
        values[i] == Val(o.tri, o.str)
  {
    hide N.WellRanked, V.UsersAre, S.Wired, S.Sound, V.Records, C.NoFurther, V.True;
    ghost var x' := x.(users := S.UsersAfter(x.users, changes));
    S.ChangeUserTracks(x, k.State(), changes);
    assert S.Wired(x.c, S.ChangeUser(k.State(), changes)) by {
      WiredStays(x.c, k.State(), S.ChangeUser(k.State(), changes));
    }
    ChangeUsers(k, changes);
    S.ClearIsSound(x', k.State());
    ClearAllValid(k);
    values := [];
    var i := 0;
    while i < |order|
      invariant 0 <= i <= |order| == |order| && |values| == i && S.Sound(x', k.State())
      invariant forall j | 0 <= j < i :: values[j] == Val(V.True(x', order[j]).tri, V.True(x', order[j]).str)
    {
      S.AskIsSound(x', k.State(), order[i]);
      k.CalcValue(order[i]);
      RecordsValue(k.State(), order[i], V.True(x', order[i]), x.cleared);
      values := values + [k.At(order[i]).curr];
      i := i + 1;
    }
    forall j | 0 <= j < |order|
      ensures V.True(x', order[j]) == N.ValueOf(x.c, x.g, N.Modules(x.c, x.g, x'.users), x'.users, order[j])
    {
      TruthIs(x', order[j]);
    }
  }

  lemma TruthIs(x: V.Context, s: Sym)
    requires N.WellRanked(x.c, x.g) && s in x.g.nodes
    ensures V.True(x, s) == N.ValueOf(x.c, x.g, N.Modules(x.c, x.g, x.users), x.users, s)
  {
  }

  lemma WiredStays(c: C.Config, st: C.State, st': C.State)
    requires S.Wired(c, st) && st'.modulesVal == st.modulesVal
    ensures S.Wired(c, st')
  {
  }

  lemma RecordsValue(st: C.State, s: Sym, o: N.Outcome, cleared: set<Sym>)
    requires V.Records(st, s, o, cleared)
    ensures C.At(st, s).curr == Val(o.tri, o.str)
  {
  }

  method ChangeUsers(k: Kconfig, changes: seq<(Sym, C.User)>)
    modifies k
    ensures k.State() == S.ChangeUser(old(k.State()), changes)
  {
    var i := 0;
    assert changes[0..] == changes;
    while i < |changes|
      invariant 0 <= i <= |changes|
      invariant S.ChangeUser(k.State(), changes[i..]) == S.ChangeUser(old(k.State()), changes)
    {
      assert changes[i..][0] == changes[i] && changes[i..][1..] == changes[i + 1..];
      var (s, u) := changes[i];
      k.Put(s, k.At(s).(user := u));
      i := i + 1;
    }
  }

  // The loop of sym_set_tristate_value over the members of the choice.
  method MarkMembers(k: Kconfig, members: seq<Sym>)
    modifies k
    ensures k.State() == S.MarkMembers(old(k.State()), members)
  {
    var i := 0;
    assert members[0..] == members;
    while i < |members|
      invariant 0 <= i <= |members|
      invariant S.MarkMembers(k.State(), members[i..]) == S.MarkMembers(old(k.State()), members)
    {
      var m := members[i];
      if k.At(m).visible != NO {
        k.Put(m, k.At(m).(user := k.At(m).user.(has := true)));
      }
      assert members[i..][0] == m && members[i..][1..] == members[i + 1..];
      i := i + 1;
    }
  }

  /** sym_set_tristate_value. */
  method SetTristate(k: Kconfig, s: Sym, v: Tri) returns (ok: bool)
    modifies k
    ensures C.Result(k.State(), ok) == S.SetTristate(k.config, old(k.State()), s, v)
  {
    hide S.ClearAllValid, S.WithinRange, S.MarkMembers, C.NoFurther;
    var before := k.At(s).curr.tri;
    if before != v && !S.WithinRange(k.config, k.State(), s, v) {
      return false;
    }
    k.Put(s, k.At(s).(user := k.At(s).user.(has := true)));
    if v == YES && s in k.config.decls && k.config.decls[s].role.Member? {
      var cs := k.config.decls[s].role.choice;
      k.Put(cs, k.At(cs).(user := k.At(cs).user.(pick := Some(s), has := true)));
      if cs in k.config.decls && k.config.decls[cs].role.Choice? {
        MarkMembers(k, k.config.decls[cs].role.members);
      }
    }
    k.Put(s, k.At(s).(user := k.At(s).user.(tri := v)));
    if before != v {
      ClearAllValid(k);
    }
    ok := true;
  }

  /** sym_get_string_default. */
  method StringDefault(k: Kconfig, s: Sym) returns (str: string)
    requires s in k.config.decls
    modifies k
    ensures C.Result(k.State(), str) == M.StringDefault(k.config, old(k.State()), s)
  {
    hide C.CalcVisibility, C.CalcValue, C.FindDefault, C.CalcExpr;
    k.CalcVisibility(s);
    k.CalcValue(k.config.modules);
    var prop := k.FindDefault(k.config.decls[s].defaults);
    if IsLogical(s) {
      var v := NO;
      if prop.Some? {
        v := k.CalcExpr(prop.value.0);
        v := Min(v, prop.value.1);
      }
      var mods := C.Current(k.config, k.State(), k.config.modules).tri;
      var member := k.config.decls[s].role.Member?;
      str := Letter(M.Adjust(s, member, mods, k.At(s).revDep, k.At(s).implied, v));
    } else if TypeOf(s).Unknown? || prop.None? || !prop.value.0.Symbol? {
      str := "";
    } else {
      k.CalcValue(prop.value.0.sym);
      str := C.Current(k.config, k.State(), prop.value.0.sym).str;
    }
  }

  // ----- confdata.c -----

  // The turn of the loop of conf_write_defconfig for one menu entry.
  method WriteStep(k: Kconfig, s: Sym) returns (out: string)
    requires s.Var? && s in k.config.decls
    modifies k
    ensures C.Result(k.State(), out) == F.WriteStep(k.config, old(k.State()), s)
  {
    hide C.CalcValue, C.StringValue, M.StringDefault, F.SymbolLine, F.IsDefaultMember, C.NoFurther;
    if k.config.decls[s].role.Choice? {
      return [];
    }
    k.CalcValue(s);
    if !k.At(s).write {
      return [];
    }
    k.Put(s, k.At(s).(write := false));
    if k.At(s).visible <= k.At(s).revDep {
      return [];
    }
    var value := k.StringValue(s);
    var default := StringDefault(k, s);
    if value == default {
      return [];
    }
    var picked := IsDefaultMember(k, s);
    if picked {
      return [];
    }
    value := k.StringValue(s);
    out := F.SymbolLine(s, value);
  }

  // Whether a member is left out because its choice would select it by default.
  method IsDefaultMember(k: Kconfig, s: Sym) returns (picked: bool)
    requires s in k.config.decls
    modifies k
    ensures C.Result(k.State(), picked) == F.IsDefaultMember(k.config, old(k.State()), s)
  {
    hide C.ChoiceDefault;
    var role := k.config.decls[s].role;
    if role.Member? && role.choice in k.config.decls && k.config.decls[role.choice].role.Choice? {
      var choice := k.config.decls[role.choice].role;
      var ds := k.ChoiceDefault(role.choice, choice.members);
      return !choice.optional && ds == Some(s) && TypeOf(s).Boolean? && k.At(s).curr.tri == YES;
    }
    return false;
  }

  /** conf_write_defconfig, given the symbols in the order of the menu entries. */
  method WriteDefconfig(k: Kconfig, order: seq<Sym>) returns (out: string)
    requires F.AllDeclared(k.config, order)
    modifies k
    ensures C.Result(k.State(), out) == F.WriteDefconfig(k.config, old(k.State()), order)
  {
    hide S.ClearAllValid, F.WriteStep;
    ClearAllValid(k);
    out := "";
    var i := 0;
    ghost var all := F.WriteAll(k.config, k.State(), order);
    assert order[0..] == order;
    WriteNothing(all);
    while i < |order|
      invariant 0 <= i <= |order| && F.AllDeclared(k.config, order[i..])
      invariant all == Prepend(out, F.WriteAll(k.config, k.State(), order[i..]))
    {
      assert order[i..][0] == order[i] && order[i..][1..] == order[i + 1..];
      ghost var rest := F.WriteAll(k.config, F.WriteStep(k.config, k.State(), order[i]).st, order[i + 1..]);
      var text := WriteStep(k, order[i]);
      PrependTwice(out, text, rest);
      out := out + text;
      i := i + 1;
    }
    assert out + "" == out;
  }

  function Prepend(s: string, r: C.Result<string>): C.Result<string> {
    C.Result(r.st, s + r.v)
  }

  lemma PrependTwice(a: string, b: string, r: C.Result<string>)
    ensures Prepend(a, Prepend(b, r)) == Prepend(a + b, r)
  {
    assert a + (b + r.v) == a + b + r.v;
  }

  lemma WriteNothing(r: C.Result<string>)
    ensures Prepend("", r) == r
  {
    assert "" + r.v == r.v;
  }

  /** conf_set_sym_val for user values; a string is unescaped in the line buffer. */
  method SetSymVal(typ: Type, u: C.User, p: string) returns (r: Option<C.User>)
    requires '\0' !in p
    ensures r == F.SetSymVal(typ, u, p)
  {
    if typ.String? && p != [] && p[0] == '"' {
      var n := |p|;
      var line := new char[n + 1](i requires i >= 0 => if i < n then p[i] else '\0');
      assert line[..] == p + ['\0'];
      WholeCString(p, line[1..]);
      var ok := T.UnescapeInPlace(line, 1);
      if !ok {
        return None;
      }
      var str := ReadCString(line, 1);
      r := Some(u.(has := true, str := str));
    } else {
      r := F.SetSymVal(typ, u, p);
    }
  }

  // The C string at place p of the buffer.
  method ReadCString(b: array<char>, p: nat) returns (s: string)
    requires p <= b.Length && T.Terminated(b[p..])
    ensures s == T.CString(b[p..])
  {
    T.CStringLength(b[p..]);
    ghost var n := |T.CString(b[p..])|;
    var q := p;
    assert b[p..][n] == b[p + n];
    while b[q] != '\0'
      invariant p <= q <= p + n < b.Length
      decreases b.Length - q
    {
      q := q + 1;
    }
    s := b[p..q];
  }

  lemma WholeCString(p: string, b: seq<char>)
    requires '\0' !in p && p != [] && b == p[1..] + ['\0']
    ensures T.Terminated(b) && T.CString(b) == p[1..]
  {
    var n := |p| - 1;
    assert b[n] == '\0' && forall i :: 0 <= i < n ==> b[i] == p[i + 1];
    T.CStringIs(b, n);
    assert b[..n] == p[1..];
  }

  method NoteMember(k: Kconfig, s: Sym)
    modifies k
    ensures k.State() == F.NoteMember(k.config, old(k.State()), s)
  {
    if s !in k.config.decls || !k.config.decls[s].role.Member? {
      return;
    }
    var cs := k.config.decls[s].role.choice;
    var tri, was := k.At(s).user.tri, k.At(cs).user.tri;
    var cu := k.At(cs).user;
    if tri == MOD && was == YES {
      cu := cu.(has := false);
    } else if tri == YES {
      cu := cu.(pick := Some(s));
    }
    k.Put(cs, k.At(cs).(user := cu.(tri := Max(was, tri))));
  }

  // strchr: the place of a character, or the length.
  method FindChar(s: string, ch: char) returns (n: nat)
    ensures n == F.Find(s, ch)
  {
    n := 0;
    assert s[0..] == s;
    while n < |s| && s[n] != ch
      invariant 0 <= n <= |s| && F.Find(s, ch) == n + F.Find(s[n..], ch)
    {
      assert s[n..][0] == s[n] && s[n..][1..] == s[n + 1..];
      n := n + 1;
    }
    assert n < |s| ==> s[n..][0] == s[n];
  }

  /** One turn of the loop of conf_read_simple. */
  method ReadLine(k: Kconfig, table: F.Table, line: string)
    requires '\0' !in line
    modifies k
    ensures k.State() == F.ReadLine(k.config, table, old(k.State()), line)
  {
    hide C.NoFurther, F.NoteMember, F.SetSymVal, F.FindSym, F.Find;
    if line != [] && line[0] == '#' {
      if |line| < 2 || !F.StartsWith(line[2..], F.CONFIG_PREFIX) {
        return;
      }
      var t := line[2 + |F.CONFIG_PREFIX|..];
      var n := FindChar(t, ' ');
      FindFits(t, ' ');
      if n == |t| || !F.StartsWith(t[n + 1..], F.NOT_SET) {
        return;
      }
      var sym := F.FindSym(table, t[..n]);
      if sym.Some? {
        if IsLogical(sym.value) {
          k.Put(sym.value, k.At(sym.value).(user := k.At(sym.value).user.(has := true, tri := NO)));
        }
        NoteMember(k, sym.value);
      }
    } else if F.StartsWith(line, F.CONFIG_PREFIX) {
      ReadValue(k, table, line[|F.CONFIG_PREFIX|..]);
    }
  }

  lemma FindFits(s: string, ch: char)
    ensures F.Find(s, ch) <= |s|
  {
  }

  // A line that gives a value, after the prefix.
  method ReadValue(k: Kconfig, table: F.Table, t: string)
    requires '\0' !in t
    modifies k
    ensures k.State() == F.ReadLine(k.config, table, old(k.State()), F.CONFIG_PREFIX + t)
  {
    hide C.NoFurther, F.NoteMember, F.SetSymVal, F.FindSym, F.Find;
    ghost var line := F.CONFIG_PREFIX + t;
    assert line[|F.CONFIG_PREFIX|..] == t && F.StartsWith(line, F.CONFIG_PREFIX);
    var n := FindChar(t, '=');
    FindFits(t, '=');
    if n == |t| {
      return;
    }
    var p := t[n + 1..];
    var end := FindChar(p, '\n');
    FindFits(p, '\n');
    p := if end < |p| && end > 0 && p[end - 1] == '\r' then p[..end - 1] else p[..end];
    assert p == F.StripEnd(t[n + 1..]);
    var sym := F.FindSym(table, t[..n]);
    if sym.Some? {
      var s := sym.value;
      var u := SetSymVal(TypeOf(s), k.At(s).user, p);
      if u.Some? {
        k.Put(s, k.At(s).(user := u.value));
        NoteMember(k, s);
      }
    }
  }

  lemma ResetAll(c: C.Config, st: C.State, now: map<Sym, C.Cell>)
    requires now.Keys == c.decls.Keys + st.cells.Keys
    requires forall s <- now :: now[s] == F.ResetCell(c, s, C.At(st, s))
    ensures C.State(now, st.modulesVal) == F.ConfReset(c, st)
  {
    assert now == F.ConfReset(c, st).cells;
  }

  /** conf_reset. */
  method ConfReset(k: Kconfig)
    modifies k
    ensures k.State() == F.ConfReset(k.config, old(k.State()))
  {
    ghost var st := k.State();
    ghost var all := k.config.decls.Keys + k.cells.Keys;
    var todo := k.config.decls.Keys + k.cells.Keys;
    while todo != {}
      invariant todo <= all && k.modulesVal == st.modulesVal
      invariant all - todo <= k.cells.Keys <= all && st.cells.Keys <= k.cells.Keys
      invariant forall s <- todo :: k.At(s) == C.At(st, s)
      invariant forall s <- all :: s !in todo ==> k.cells[s] == F.ResetCell(k.config, s, C.At(st, s))
      decreases todo
    {
      var s :| s in todo;
      k.cells := k.cells[s := F.ResetCell(k.config, s, k.At(s))];
      todo := todo - {s};
    }
    ResetAll(k.config, st, k.cells);
  }

  /** conf_read_simple, for user values. */
  method ReadText(k: Kconfig, table: F.Table, text: string)
    requires '\0' !in text
    modifies k
    ensures k.State() == F.ReadText(k.config, table, old(k.State()), text)
  {
    hide F.ReadLine, F.ConfReset;
    ConfReset(k);
    ghost var all := F.ReadLines(k.config, table, k.State(), T.Lines(text));
    var rest := text;
    while rest != ""
      invariant '\0' !in rest && all == F.ReadLines(k.config, table, k.State(), T.Lines(rest))
      decreases |rest|
    {
      var n := T.FirstLine(rest);
      assert T.Lines(rest)[0] == rest[..n] && T.Lines(rest)[1..] == T.Lines(rest[n..]);
      ReadLine(k, table, rest[..n]);
      rest := rest[n..];
    }
  }
}
