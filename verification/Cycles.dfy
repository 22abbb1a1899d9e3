// The search for recursive dependencies (sym_check_expr_deps, sym_check_sym_deps,
// sym_check_choice_deps and sym_check_deps of symbol.c, the loop of conf_parse). A choice and its
// members are checked together, as one group.
module Cycles {
  import opened Tristate
  import opened Expr
  import opened Config
  import opened Meaning

  /** Choices and members name each other. */
  predicate GroupsOk(c: Config) {
    (forall s <- c.decls :: IsChoice(c, s) ==>
      forall m <- c.decls[s].role.members :: m in c.decls && c.decls[m].role == Member(s)) &&
    (forall s <- c.decls :: IsMember(c, s) ==> IsChoice(c, Rep(c, s)) && s in c.decls[Rep(c, s)].role.members)
  }

  predicate IsChoice(c: Config, s: Sym) {
    s in c.decls && c.decls[s].role.Choice?
  }

  predicate IsMember(c: Config, s: Sym) {
    s in c.decls && c.decls[s].role.Member?
  }

  /** The symbol that stands for the group of s: the choice, or s itself. */
  function Rep(c: Config, s: Sym): Sym {
    if IsMember(c, s) then c.decls[s].role.choice else s
  }

  // The symbols in defaults and their conditions. The defaults of a choice are members, and are not
  // followed.
  function FollowedDefaults(ds: seq<Default>, choice: bool): set<Sym> {
    if ds == [] then {}
    else DepSyms(ds[0].cond) + (if choice then {} else Syms(ds[0].value)) + FollowedDefaults(ds[1..], choice)
  }

  function Follows(d: Decl): set<Sym> {
    DepSyms(d.dirDep) + DepSyms(d.revDep) + DepSyms(d.implied) + PromptSyms(d.prompts) +
    FollowedDefaults(d.defaults, d.role.Choice?)
  }

  /** All symbols that a check of symbols of ss can meet belong to ss. */
  predicate IsClosed(c: Config, ss: set<Sym>) {
    forall s <- ss :: Rep(c, s) in ss && (s in c.decls ==> Follows(c.decls[s]) <= ss) &&
      (IsChoice(c, s) ==> forall m <- c.decls[s].role.members :: m in ss)
  }

  /** The symbols that a symbol depends on, including constants and undeclared ones. That a member
      depends on its choice does not count. */
  function Succ(c: Config, s: Sym): set<Sym> {
    if s !in c.decls then {} else if IsMember(c, s) then Follows(c.decls[s]) - {Rep(c, s)} else Follows(c.decls[s])
  }

  /** Some symbol of the group g depends on one of the group h. */
  ghost predicate Edge(c: Config, g: Sym, h: Sym) {
    exists s, t :: Rep(c, s) == g && t in Succ(c, s) && Rep(c, t) == h
  }

  ghost predicate IsPath(c: Config, p: seq<Sym>) {
    forall i :: 0 < i < |p| ==> Edge(c, p[i - 1], p[i])
  }

  /** Some group depends on itself, directly or through others. */
  ghost predicate HasCycle(c: Config) {
    exists p :: |p| >= 2 && IsPath(c, p) && p[0] == p[|p| - 1]
  }

  /** Every group comes after everything it depends on. */
  ghost predicate Ordered(c: Config, order: seq<Sym>) {
    forall i, h :: 0 <= i < |order| && Edge(c, order[i], h) ==> h in order[..i]
  }

  /** A choice is mentioned only by itself and its own members, as one without a name must be. */
  predicate Anonymous(c: Config) {
    forall s <- c.decls :: forall t <- Succ(c, s) :: IsChoice(c, t) ==> s == t
  }

  // The first position of an element.
  function Index(order: seq<Sym>, s: Sym): (i: nat)
    requires s in order
    ensures i < |order| && order[i] == s && forall k :: 0 <= k < i ==> order[k] != s
  {
    if order[0] == s then 0 else 1 + Index(order[1..], s)
  }

  lemma OrderDescends(c: Config, order: seq<Sym>, g: Sym, h: Sym)
    requires Ordered(c, order) && g in order && Edge(c, g, h)
    ensures h in order && Index(order, h) < Index(order, g)
  {
    assert h in order[..Index(order, g)];
  }

  lemma OrderGrows(c: Config, order: seq<Sym>, g: Sym)
    requires Ordered(c, order) && forall h :: Edge(c, g, h) ==> h in order
    ensures Ordered(c, order + [g])
  {
    var more := order + [g];
    forall i, h | 0 <= i < |more| && Edge(c, more[i], h) ensures h in more[..i] {
      assert more[..i] == order[..i];
    }
    assert order[..|order|] == order;
  }

  // Along a path in an order positions go down.
  lemma {:induction false} PathDescends(c: Config, order: seq<Sym>, p: seq<Sym>, i: nat)
    requires Ordered(c, order) && IsPath(c, p) && i < |p| && p[0] in order
    ensures p[i] in order && Index(order, p[i]) + i <= Index(order, p[0])
  {
    if i > 0 {
      PathDescends(c, order, p, i - 1);
      OrderDescends(c, order, p[i - 1], p[i]);
    }
  }

  lemma {:induction false} OrderedHasNoCycle(c: Config, order: seq<Sym>)
    requires Ordered(c, order) && forall s <- c.decls :: Rep(c, s) in order
    ensures !HasCycle(c)
  {
    forall p | |p| >= 2 && IsPath(c, p) ensures p[0] != p[|p| - 1] {
      assert Edge(c, p[0], p[1]);
      PathDescends(c, order, p, |p| - 1);
    }
  }

  /** A choice is one with its members: a member that depends on a member of the same choice, itself included,
      makes a cycle. */
  lemma MembersAreOne(c: Config, m: Sym, t: Sym)
    requires m in c.decls && t in c.decls && c.decls[m].role.Member? && c.decls[t].role == c.decls[m].role
    requires t != c.decls[m].role.choice && t in Follows(c.decls[m])
    ensures HasCycle(c)
  {
    var g := Rep(c, m);
    assert t in Succ(c, m) && Rep(c, t) == g;
    assert Edge(c, g, g);
    var p := [g, g];
    assert IsPath(c, p) && p[0] == p[|p| - 1];
  }

  // Neither defaults nor conditions of a choice are of concern here.
  predicate IsFree(d: Decl) {
    d.dirDep.None? && d.revDep.None? && d.implied.None? && (forall p <- d.prompts :: p.None?) &&
    forall f <- d.defaults :: f.cond.None?
  }

  lemma {:induction false} FreePrompts(ps: seq<Dep>)
    requires forall p <- ps :: p.None?
    ensures PromptSyms(ps) == {}
  {
    if ps != [] {
      FreePrompts(ps[1..]);
    }
  }

  lemma {:induction false} FreeDefaults(ds: seq<Default>)
    requires forall f <- ds :: f.cond.None?
    ensures FollowedDefaults(ds, true) == {}
  {
    if ds != [] {
      FreeDefaults(ds[1..]);
    }
  }

  /** That members depend on their choice, and that its defaults name members, makes no cycle. */
  lemma {:induction false} ChoiceAloneHasNoCycle(c: Config)
    requires forall s <- c.decls :: var d := c.decls[s];
      match d.role
      case Choice(_, _) => IsFree(d)
      case Member(cs) => Follows(d) <= {cs}
      case Plain => Follows(d) == {}
    ensures !HasCycle(c)
  {
    forall s | s in c.decls ensures Succ(c, s) == {} {
      if c.decls[s].role.Choice? {
        FreePrompts(c.decls[s].prompts);
        FreeDefaults(c.decls[s].defaults);
      }
    }
    CycleHasEdge(c);
  }

  lemma CycleHasEdge(c: Config)
    ensures HasCycle(c) ==> exists g, h :: Edge(c, g, h)
  {
    if p :| |p| >= 2 && IsPath(c, p) && p[0] == p[|p| - 1] {
      assert Edge(c, p[0], p[1]);
    }
  }

  // A path that comes back to one of its groups closes a cycle.
  lemma BackEdge(c: Config, p: seq<Sym>, k: nat)
    requires IsPath(c, p) && k < |p| && Edge(c, p[|p| - 1], p[k])
    ensures HasCycle(c)
  {
    var q := p[k..] + [p[k]];
    forall i | 0 < i < |q| ensures Edge(c, q[i - 1], q[i]) {
      assert i < |q| - 1 ==> q[i] == p[k + i] && q[i - 1] == p[k + i - 1];
    }
  }

  lemma PathPrefix(c: Config, p: seq<Sym>, g: Sym)
    requires IsPath(c, p + [g])
    ensures IsPath(c, p)
  {
    var q := p + [g];
    forall i | 0 < i < |p| ensures Edge(c, p[i - 1], p[i]) {
      assert Edge(c, q[i - 1], q[i]);
    }
  }

  class Checker {
    const c: Config
    const recursiveIsError: bool

    // SYMBOL_CHECK and SYMBOL_CHECKED, and the stack of symbols being checked.
    var check: set<Sym>
    var checked: set<Sym>
    var stack: seq<Sym>

    // How many times a recursive dependency was reported.
    var reports: nat

    // All symbols that can be met, and the order in which the checks of groups were completed.
    ghost const universe: set<Sym>
    ghost var order: seq<Sym>

    constructor (c: Config, recursiveIsError: bool, ghost universe: set<Sym>)
      requires GroupsOk(c) && IsClosed(c, universe)
      ensures this.c == c && this.recursiveIsError == recursiveIsError && this.universe == universe
      ensures Inv([]) && checked == {} && reports == 0
    {
      this.c := c;
      this.recursiveIsError := recursiveIsError;
      check, checked, stack, reports := {}, {}, [], 0;
      this.universe := universe;
      order := [];
    }

    // What marks a group as being checked.
    function Marks(g: Sym): set<Sym> {
      if IsChoice(c, g) then set m | m in c.decls[g].role.members else {g}
    }

    /** The groups of active are being checked, each depending on the next. Until something was reported,
        everything checked and not active is in order, unless choices are mentioned from outside. */
    ghost predicate Inv(active: seq<Sym>)
      reads this
    {
      GroupsOk(c) && IsClosed(c, universe) && check <= checked <= universe && IsPath(c, active) &&
      (forall s <- check :: Rep(c, s) in active) && (forall g <- active :: Rep(c, g) == g && g in checked && Marks(g) <= check) &&
      (forall s <- checked, u <- universe :: Rep(c, u) == Rep(c, s) ==> u in checked) &&
      (Anonymous(c) && reports == 0 ==>
        Ordered(c, order) && forall g :: g in order <==> g in checked && Rep(c, g) == g && g !in active) &&
      (reports > 0 ==> HasCycle(c))
    }

    /** The dependencies of cur, a symbol of the last active group, are being followed. */
    ghost predicate Going(cur: Sym, active: seq<Sym>)
      reads this
    {
      active != [] && cur in c.decls && cur in universe && Rep(c, cur) == active[|active| - 1] &&
      if IsMember(c, cur) then Rep(c, cur) in checked - check else cur in check
    }

    // t is mentioned by cur.
    ghost predicate Reached(t: Sym, cur: Sym)
      reads this
    {
      (IsMember(c, cur) && t == Rep(c, cur)) || (Edge(c, Rep(c, cur), Rep(c, t)) && (t in Succ(c, cur) || t !in checked))
    }

    // What a check below the active groups leaves behind.
    twostate predicate Kept(active: seq<Sym>)
      reads this
    {
      Inv(active) && stack == old(stack) && check == old(check) && old(checked) <= checked && old(reports) <= reports &&
      forall g <- old(order) :: g in order
    }

    // What the result of a check says.
    ghost predicate Told(r: Option<Sym>, before: nat)
      reads this
    {
      (r.Some? ==> reports > 0) &&
      (r.None? && recursiveIsError ==> reports == before) &&
      (r.Some? && !recursiveIsError ==> r.value in check)
    }

    // Without a report, the groups of all symbols among ss that cur depends on have been checked.
    ghost predicate Settled(r: Option<Sym>, cur: Sym, ss: set<Sym>)
      reads this
    {
      Anonymous(c) && r.None? && reports == 0 ==> forall t <- ss :: t in Succ(c, cur) ==> Rep(c, t) in order
    }

    method CheckExprDeps(e: Expr, ghost cur: Sym, ghost active: seq<Sym>) returns (r: Option<Sym>)
      requires Inv(active) && Going(cur, active) && Syms(e) <= Follows(c.decls[cur])
      modifies this`check, this`checked, this`stack, this`reports, this`order
      ensures Kept(active) && Told(r, old(reports)) && Settled(r, cur, Syms(e))
      decreases universe - checked, 4, e
    {
      hide Inv;
      match e
      case And(a, b) =>
        r := CheckExprDeps(a, cur, active);
        if r.None? {
          r := CheckExprDeps(b, cur, active);
        }
      case Or(a, b) =>
        r := CheckExprDeps(a, cur, active);
        if r.None? {
          r := CheckExprDeps(b, cur, active);
        }
      case Not(a) =>
        r := CheckExprDeps(a, cur, active);
      case Cmp(_, a, b) =>
        IsReached(a, cur, active);
        r := CheckDeps(a, cur, active);
        if r.None? {
          IsReached(b, cur, active);
          r := CheckDeps(b, cur, active);
        }
      case Symbol(s) =>
        IsReached(s, cur, active);
        r := CheckDeps(s, cur, active);
    }

    lemma IsReached(t: Sym, cur: Sym, active: seq<Sym>)
      requires Inv(active) && Going(cur, active) && t in Follows(c.decls[cur])
      ensures t in universe && Reached(t, cur)
    {
      assert IsClosed(c, universe);
      hide Inv, Follows;
      assert Follows(c.decls[cur]) <= universe;
      if !(IsMember(c, cur) && t == Rep(c, cur)) {
        assert t in Succ(c, cur);
      }
    }

    method CheckDep(d: Dep, ghost cur: Sym, ghost active: seq<Sym>) returns (r: Option<Sym>)
      requires Inv(active) && Going(cur, active) && DepSyms(d) <= Follows(c.decls[cur])
      modifies this`check, this`checked, this`stack, this`reports, this`order
      ensures Kept(active) && Told(r, old(reports)) && Settled(r, cur, DepSyms(d))
      decreases universe - checked, 5
    {
      hide Inv;
      r := None;
      if d.Some? {
        r := CheckExprDeps(d.value, cur, active);
      }
    }

    method CheckPrompts(ps: seq<Dep>, ghost cur: Sym, ghost active: seq<Sym>) returns (r: Option<Sym>)
      requires Inv(active) && Going(cur, active) && PromptSyms(ps) <= Follows(c.decls[cur])
      modifies this`check, this`checked, this`stack, this`reports, this`order
      ensures Kept(active) && Told(r, old(reports)) && Settled(r, cur, PromptSyms(ps))
      decreases universe - checked, 6
    {
      hide Inv, Follows, Succ, Anonymous;
      var i := 0;
      r := None;
      while i < |ps|
        invariant 0 <= i <= |ps| && Kept(active) && Told(r, old(reports)) && r.None? && Going(cur, active)
        invariant PromptSyms(ps[i..]) <= PromptSyms(ps)
        invariant Settled(r, cur, PromptSyms(ps) - PromptSyms(ps[i..]))
      {
        r := CheckDep(ps[i], cur, active);
        if r.Some? {
          return;
        }
        assert ps[i..][1..] == ps[i + 1..];
        i := i + 1;
      }
    }

    method CheckDefaults(ds: seq<Default>, choice: bool, ghost cur: Sym, ghost active: seq<Sym>) returns (r: Option<Sym>)
      requires Inv(active) && Going(cur, active) && FollowedDefaults(ds, choice) <= Follows(c.decls[cur])
      modifies this`check, this`checked, this`stack, this`reports, this`order
      ensures Kept(active) && Told(r, old(reports)) && Settled(r, cur, FollowedDefaults(ds, choice))
      decreases universe - checked, 6
    {
      hide Inv, Follows, Succ, Anonymous;
      var i := 0;
      r := None;
      while i < |ds|
        invariant 0 <= i <= |ds| && Kept(active) && Told(r, old(reports)) && r.None? && Going(cur, active)
        invariant FollowedDefaults(ds[i..], choice) <= FollowedDefaults(ds, choice)
        invariant Settled(r, cur, FollowedDefaults(ds, choice) - FollowedDefaults(ds[i..], choice))
      {
        r := CheckDep(ds[i].cond, cur, active);
        if r.Some? {
          return;
        }
        if !choice {
          r := CheckExprDeps(ds[i].value, cur, active);
          if r.Some? {
            return;
          }
        }
        assert ds[i..][1..] == ds[i + 1..];
        i := i + 1;
      }
    }

    /** sym_check_sym_deps: the dependencies of s in turn, until one is recursive. */
    method CheckSymDeps(s: Sym, ghost active: seq<Sym>) returns (r: Option<Sym>)
      requires Inv(active) && Going(s, active)
      modifies this`check, this`checked, this`stack, this`reports, this`order
      ensures Kept(active) && Told(r, old(reports)) && Settled(r, s, Succ(c, s))
      decreases universe - checked, 8
    {
      hide Inv, Anonymous, DepSyms, PromptSyms, FollowedDefaults;
      var d := c.decls[s];
      ghost var before := stack;
      stack := stack + [s];
      StackIsFree(active);
      r := CheckRelations(d, s, active);
      if r.None? {
        r := CheckPrompts(d.prompts, s, active);
      }
      if r.None? {
        r := CheckDefaults(d.defaults, d.role.Choice?, s, active);
      }
      label L:
      stack := stack[..|stack| - 1];
      assert stack == before;
      StackIsFree@L(active);
    }

    // Direct dependencies, selects and implies, in this order.
    method CheckRelations(d: Decl, ghost cur: Sym, ghost active: seq<Sym>) returns (r: Option<Sym>)
      requires Inv(active) && Going(cur, active) && d == c.decls[cur]
      modifies this`check, this`checked, this`stack, this`reports, this`order
      ensures Kept(active) && Told(r, old(reports))
      ensures Settled(r, cur, DepSyms(d.dirDep) + DepSyms(d.revDep) + DepSyms(d.implied))
      decreases universe - checked, 7
    {
      hide Inv, Anonymous, DepSyms, PromptSyms, FollowedDefaults, Succ;
      r := CheckDep(d.dirDep, cur, active);
      if r.None? {
        r := CheckDep(d.revDep, cur, active);
      }
      if r.None? {
        r := CheckDep(d.implied, cur, active);
      }
    }

    // The stack is of no concern to the invariant.
    twostate lemma StackIsFree(active: seq<Sym>)
      requires old(Inv(active)) && check == old(check) && checked == old(checked) && reports == old(reports) && order == old(order)
      ensures Inv(active)
    {
    }

    /** sym_check_choice_deps: first the choice, then its members, all of which are marked meanwhile. */
    method CheckChoiceDeps(cs: Sym, ghost active: seq<Sym>) returns (r: Option<Sym>)
      requires Inv(active) && IsChoice(c, cs) && cs in universe && cs !in checked && IsPath(c, active + [cs])
      modifies this`check, this`checked, this`stack, this`reports, this`order
      ensures Kept(active) && (Anonymous(c) && reports == 0 ==> cs in order)
      ensures (r.Some? ==> reports > 0) && (r.None? && recursiveIsError ==> reports == old(reports))
      ensures r.Some? && !recursiveIsError ==> r.value in check || r.value == cs
      decreases universe - checked, 1, 1
    {
      hide Inv, Succ, Anonymous;
      ghost var before := stack;
      stack := stack + [cs];
      StackIsFree(active);
      r := CheckMarked(cs, active);
      if r.Some? && IsMember(c, r.value) && Rep(c, r.value) == cs {
        r := Some(cs);
      }
      label N:
      stack := stack[..|stack| - 1];
      assert stack == before;
      StackIsFree@N(active);
    }

    // The part of it between marking and unmarking.
    method CheckMarked(cs: Sym, ghost active: seq<Sym>) returns (r: Option<Sym>)
      requires Inv(active) && IsChoice(c, cs) && cs in universe && cs !in checked && IsPath(c, active + [cs])
      modifies this`check, this`checked, this`stack, this`reports, this`order
      ensures Kept(active) && (Anonymous(c) && reports == 0 ==> cs in order)
      ensures (r.Some? ==> reports > 0) && (r.None? && recursiveIsError ==> reports == old(reports))
      ensures r.Some? && !recursiveIsError ==> r.value in check || Rep(c, r.value) == cs
      decreases universe - checked, 1, 0
    {
      hide Inv, Succ, Anonymous, GroupSettled, IsPath;
      var members := Marks(cs);
      GroupIsNew(cs, active);
      check, checked := check + members + {cs}, checked + members + {cs};
      ghost var path := active + [cs];
      assert path[..|path| - 1] == active;
      EnterGroup(path);
      r := CheckGroup(cs, path);
      label M:
      check := check - members;
      if reports == 0 {
        order := order + [cs];
      }
      LeaveGroup@M(path);
    }

    // The choice, whose mark then goes, and its members.
    method CheckGroup(cs: Sym, ghost path: seq<Sym>) returns (r: Option<Sym>)
      requires Inv(path) && IsChoice(c, cs) && Going(cs, path)
      modifies this`check, this`checked, this`stack, this`reports, this`order
      ensures Inv(path) && stack == old(stack) && check == old(check) - {cs} && old(checked) <= checked && old(reports) <= reports
      ensures (forall g <- old(order) :: g in order) && GroupSettled(cs)
      ensures (r.Some? ==> reports > 0) && (r.None? && recursiveIsError ==> reports == old(reports))
      ensures r.Some? && !recursiveIsError ==> r.value in old(check)
      decreases universe - checked, 10
    {
      hide Inv, Succ, Anonymous;
      r := CheckSymDeps(cs, path);
      label C:
      check := check - {cs};
      LeaveChoice@C(path);
      if r.None? {
        SettledStays@C(cs);
        r := CheckRest(cs, path);
      } else {
        ReportedSettles(cs);
      }
    }

    lemma ReportedSettles(g: Sym)
      requires reports > 0
      ensures GroupSettled(g)
    {
    }

    // The members, after the choice.
    method CheckRest(cs: Sym, ghost path: seq<Sym>) returns (r: Option<Sym>)
      requires Inv(path) && IsChoice(c, cs) && (forall m <- c.decls[cs].role.members :: Going(m, path))
      requires Settled(None, cs, Succ(c, cs))
      modifies this`check, this`checked, this`stack, this`reports, this`order
      ensures Kept(path) && Told(r, old(reports)) && GroupSettled(cs)
      decreases universe - checked, 9, 1
    {
      hide Succ, Anonymous;
      r := CheckMembers(cs, path);
      SettledStays(cs);
      SettledIf(r, cs);
      ChoiceDone(cs, r);
    }

    lemma SettledIf(r: Option<Sym>, s: Sym)
      requires Settled(None, s, Succ(c, s))
      ensures Settled(r, s, Succ(c, s))
    {
    }

    lemma GroupIsNew(cs: Sym, active: seq<Sym>)
      requires Inv(active) && IsChoice(c, cs) && cs in universe && cs !in checked
      ensures cs !in active && cs !in check && Marks(cs) !! checked && Marks(cs) + {cs} <= universe && cs !in Marks(cs)
      ensures Marks(cs) !! check && forall m <- Marks(cs) :: IsMember(c, m) && Rep(c, m) == cs
    {
    }

    twostate lemma EnterGroup(path: seq<Sym>)
      requires path != [] && old(Inv(path[..|path| - 1])) && IsPath(c, path)
      requires var cs := path[|path| - 1];
        IsChoice(c, cs) && cs in universe && cs !in old(checked) &&
        check == old(check) + Marks(cs) + {cs} && checked == old(checked) + Marks(cs) + {cs}
      requires reports == old(reports) && order == old(order)
      ensures Inv(path) && Going(path[|path| - 1], path)
    {
      var active, cs := path[..|path| - 1], path[|path| - 1];
      assert forall g :: g in path <==> g in active || g == cs;
    }

    twostate lemma LeaveChoice(path: seq<Sym>)
      requires old(Inv(path)) && path != [] && IsChoice(c, path[|path| - 1])
      requires check == old(check) - {path[|path| - 1]} && checked == old(checked) && reports == old(reports) && order == old(order)
      ensures Inv(path)
      ensures forall m <- c.decls[path[|path| - 1]].role.members :: Going(m, path)
    {
    }

    // What is settled stays so as long as nothing is reported.
    twostate lemma SettledStays(s: Sym)
      requires old(Settled(None, s, Succ(c, s))) && old(reports) <= reports && forall g <- old(order) :: g in order
      ensures Settled(None, s, Succ(c, s))
    {
    }

    /** The members of a choice in turn. */
    method CheckMembers(cs: Sym, ghost path: seq<Sym>) returns (r: Option<Sym>)
      requires Inv(path) && IsChoice(c, cs) && forall m <- c.decls[cs].role.members :: Going(m, path)
      modifies this`check, this`checked, this`stack, this`reports, this`order
      ensures Kept(path) && Told(r, old(reports))
      ensures forall m <- c.decls[cs].role.members :: Settled(r, m, Succ(c, m))
      decreases universe - checked, 9, 0
    {
      hide Inv, Succ, Anonymous;
      var ms := c.decls[cs].role.members;
      var i := 0;
      r := None;
      while i < |ms|
        invariant 0 <= i <= |ms| && Kept(path) && Told(r, old(reports)) && r.None?
        invariant forall m <- ms :: Going(m, path)
        invariant forall m <- ms[..i] :: Settled(r, m, Succ(c, m))
      {
        r := CheckSymDeps(ms[i], path);
        if r.Some? {
          return;
        }
        i := i + 1;
      }
      assert ms[..i] == ms;
    }

    // What the check of a group leaves to show: all its dependencies are in order.
    ghost predicate GroupSettled(g: Sym)
      reads this
    {
      Anonymous(c) && reports == 0 ==> forall h :: Edge(c, g, h) ==> h in order
    }

    lemma ChoiceDone(cs: Sym, r: Option<Sym>)
      requires GroupsOk(c) && IsChoice(c, cs) && (r.Some? ==> reports > 0)
      requires r.None? ==> Settled(r, cs, Succ(c, cs)) && forall m <- c.decls[cs].role.members :: Settled(r, m, Succ(c, m))
      ensures GroupSettled(cs)
    {
      if Anonymous(c) && reports == 0 {
        forall h | Edge(c, cs, h) ensures h in order {
          var s, t :| Rep(c, s) == cs && t in Succ(c, s) && Rep(c, t) == h;
        }
      }
    }

    lemma PlainDone(t: Sym, r: Option<Sym>)
      requires GroupsOk(c) && !IsChoice(c, t) && !IsMember(c, t) && (r.Some? ==> reports > 0)
      requires t in c.decls ==> Settled(r, t, Succ(c, t))
      ensures GroupSettled(t)
    {
      if Anonymous(c) && reports == 0 {
        forall h | Edge(c, t, h) ensures h in order {
          var s, u :| Rep(c, s) == t && u in Succ(c, s) && Rep(c, u) == h;
        }
      }
    }

    // Groups have no marks in common.
    lemma MarksApart(a: Sym, g: Sym)
      requires GroupsOk(c) && Rep(c, a) == a && Rep(c, g) == g && a != g
      ensures Marks(a) !! Marks(g)
    {
    }

    // A symbol of the group g is one of its marks, or the choice.
    lemma MarksAreAll(s: Sym, g: Sym)
      requires GroupsOk(c)
      ensures Rep(c, s) == g && s != g ==> s in Marks(g)
    {
    }

    twostate lemma LeaveGroup(path: seq<Sym>)
      requires path != [] && old(Inv(path))
      requires var g := path[|path| - 1];
        g !in path[..|path| - 1] && g !in old(check) - Marks(g) && check == old(check) - Marks(g) && old(GroupSettled(g)) &&
        order == if reports == 0 then old(order) + [g] else old(order)
      requires checked == old(checked) && reports == old(reports)
      ensures Inv(path[..|path| - 1])
    {
      var active, g := path[..|path| - 1], path[|path| - 1];
      assert path == active + [g];
      assert forall h :: h in path <==> h in active || h == g;
      PathPrefix(c, active, g);
      forall a | a in active ensures Marks(a) <= check {
        MarksApart(a, g);
      }
      forall s | s in check ensures Rep(c, s) in active {
        MarksAreAll(s, g);
      }
      hide Marks, IsClosed, GroupsOk, Edge;
      if Anonymous(c) && reports == 0 {
        OrderGrows(c, old(order), g);
      }
    }

    lemma PlainIsNew(t: Sym, active: seq<Sym>)
      requires Inv(active) && t !in checked
      ensures GroupsOk(c) && t !in active && t !in check
    {
    }

    twostate lemma EnterPlain(path: seq<Sym>)
      requires path != [] && old(Inv(path[..|path| - 1])) && IsPath(c, path)
      requires var t := path[|path| - 1];
        !IsChoice(c, t) && !IsMember(c, t) && t in universe && t !in old(checked) &&
        check == old(check) + {t} && checked == old(checked) + {t}
      requires reports == old(reports) && order == old(order)
      ensures Inv(path) && (path[|path| - 1] in c.decls ==> Going(path[|path| - 1], path))
    {
      var active, t := path[..|path| - 1], path[|path| - 1];
      assert forall g :: g in path <==> g in active || g == t;
    }

    // A symbol outside choices.
    method CheckPlain(t: Sym, ghost active: seq<Sym>) returns (r: Option<Sym>)
      requires Inv(active) && !IsChoice(c, t) && !IsMember(c, t) && t in universe && t !in checked && IsPath(c, active + [t])
      modifies this`check, this`checked, this`stack, this`reports, this`order
      ensures Kept(active) && (Anonymous(c) && reports == 0 ==> t in order)
      ensures (r.Some? ==> reports > 0) && (r.None? && recursiveIsError ==> reports == old(reports))
      ensures r.Some? && !recursiveIsError ==> r.value in check || r.value == t
      decreases universe - checked, 1
    {
      hide Inv, Succ, Anonymous;
      ghost var path := active + [t];
      PlainIsNew(t, active);
      check, checked := check + {t}, checked + {t};
      assert path[..|path| - 1] == active;
      EnterPlain(path);
      r := None;
      if t in c.decls {
        r := CheckSymDeps(t, path);
      }
      PlainDone(t, r);
      label M:
      check := check - {t};
      if reports == 0 {
        order := order + [t];
      }
      LeaveGroup@M(path);
    }

    /** sym_check_deps. A member is checked with its choice. Without recursive_is_error a recursive
        dependency is reported but the result is dropped where the cycle started. */
    method CheckDeps(t: Sym, ghost cur: Sym, ghost active: seq<Sym>) returns (r: Option<Sym>)
      requires Inv(active) && t in universe && (active != [] ==> Going(cur, active) && Reached(t, cur))
      modifies this`check, this`checked, this`stack, this`reports, this`order
      ensures Kept(active) && Told(r, old(reports))
      ensures Anonymous(c) && r.None? && reports == 0 && (active == [] || t in Succ(c, cur) || t !in old(checked)) ==>
        Rep(c, t) in order
      decreases universe - checked, if IsMember(c, t) then 3 else 2
    {
      hide Inv, Succ, Anonymous;
      if t in check {
        Recursive(t, cur, active);
        label R:
        reports := reports + 1;
        Reported@R(active);
        return Some(t);
      }
      if t in checked {
        AlreadyChecked(t, cur, active);
        return None;
      }
      if IsMember(c, t) {
        MemberIsNew(t, cur, active);
        ghost var before := stack;
        label M:
        stack := stack + [t];
        StackIsFree@M(active);
        r := CheckDeps(Rep(c, t), cur, active);
        label N:
        stack := stack[..|stack| - 1];
        assert stack == before;
        StackIsFree@N(active);
      } else {
        PathTo(t, cur, active);
        if IsChoice(c, t) {
          r := CheckChoiceDeps(t, active);
        } else {
          r := CheckPlain(t, active);
        }
      }
      if !recursiveIsError && r == Some(t) {
        r := None;
      }
    }

    // A symbol that is marked belongs to an active group, and reaching it closes a cycle.
    lemma Recursive(t: Sym, cur: Sym, active: seq<Sym>)
      requires Inv(active) && t in check && (active != [] ==> Going(cur, active) && Reached(t, cur))
      ensures HasCycle(c)
    {
      var k :| 0 <= k < |active| && active[k] == Rep(c, t);
      BackEdge(c, active, k);
    }

    twostate lemma Reported(active: seq<Sym>)
      requires old(Inv(active)) && HasCycle(c) && reports == old(reports) + 1
      requires check == old(check) && checked == old(checked) && order == old(order)
      ensures Inv(active)
    {
    }

    // A symbol that was checked, and is not marked, is in order, or the choice of its member cur.
    lemma AlreadyChecked(t: Sym, cur: Sym, active: seq<Sym>)
      requires Inv(active) && t in universe && t in checked - check
      requires active != [] ==> Going(cur, active) && Reached(t, cur)
      ensures Anonymous(c) && reports == 0 && (active == [] || t in Succ(c, cur)) ==> Rep(c, t) in order
    {
    }

    lemma MemberIsNew(t: Sym, cur: Sym, active: seq<Sym>)
      requires Inv(active) && t in universe && t !in checked && IsMember(c, t)
      requires active != [] ==> Going(cur, active) && Reached(t, cur)
      ensures var cs := Rep(c, t);
        cs in universe && cs !in checked && IsChoice(c, cs) && Rep(c, cs) == cs && (active != [] ==> Reached(cs, cur))
    {
      var cs := Rep(c, t);
      assert cs in universe && IsChoice(c, cs) && Rep(c, cs) == cs;
      hide IsClosed, GroupsOk, Anonymous, Marks, Succ, IsPath;
    }

    lemma PathTo(t: Sym, cur: Sym, active: seq<Sym>)
      requires Inv(active) && t !in checked && !IsMember(c, t)
      requires active != [] ==> Going(cur, active) && Reached(t, cur)
      ensures IsPath(c, active + [t]) && Rep(c, t) == t
    {
      var path := active + [t];
      forall i | 0 < i < |path| ensures Edge(c, path[i - 1], path[i]) {
        if i < |active| {
          assert path[i] == active[i] && path[i - 1] == active[i - 1];
        }
      }
    }

    /** The loop of conf_parse over all symbols. What is reported is a cycle, and counts as an error exactly
        when recursive dependencies are errors; and if no choice is mentioned from outside, a cycle is
        reported if there is one. A run without reports has then put all groups into an order. */
    method CheckAll(all: seq<Sym>) returns (errors: nat)
      requires Inv([]) && reports == 0
      requires (forall s <- all :: s in universe) && (forall s <- c.decls :: s in all)
      modifies this`check, this`checked, this`stack, this`reports, this`order
      ensures reports > 0 ==> HasCycle(c)
      ensures Anonymous(c) ==> (reports > 0 <==> HasCycle(c))
      ensures errors > 0 <==> recursiveIsError && reports > 0
      ensures Anonymous(c) && reports == 0 ==> Ordered(c, order) && forall s <- c.decls :: Rep(c, s) in order
    {
      hide Succ, Anonymous;
      errors := 0;
      var i := 0;
      while i < |all|
        invariant 0 <= i <= |all| && Inv([])
        invariant Anonymous(c) && reports == 0 ==> forall k :: 0 <= k < i ==> Rep(c, all[k]) in order
        invariant errors > 0 <==> recursiveIsError && reports > 0
      {
        var r := CheckDeps(all[i], all[i], []);
        if r.Some? {
          errors := errors + 1;
        }
        i := i + 1;
      }
      if Anonymous(c) && reports == 0 {
        OrderedHasNoCycle(c, order);
      }
    }
  }

  /** The rank of every symbol in an order. */
  function RankOf(order: seq<Sym>): map<Sym, nat> {
    map s | s in order :: Index(order, s)
  }

  lemma {:induction false} FollowedIsAll(ds: seq<Default>)
    ensures FollowedDefaults(ds, false) == DefaultSyms(ds)
    decreases |ds|
  {
    if ds != [] {
      FollowedIsAll(ds[1..]);
    }
  }

  /** For a configuration without choices, the order that a run without reports leaves behind makes the
      whole configuration an acyclic graph for the evaluation. */
  lemma {:induction false} SilentCheckRanks(c: Config, order: seq<Sym>, cone: set<Sym>)
    requires Ordered(c, order) && forall s <- c.decls :: Rep(c, s) in order
    requires forall s <- c.decls :: s.Var? && c.decls[s].role.Plain?
    requires cone <= c.decls.Keys && forall s <- cone :: !TypeOf(s).Tri3? && Deps(c, s) <= cone
    requires c.modules.Var? && c.modules in c.decls ==> c.modules in cone && TypeOf(c.modules).Boolean?
    ensures WellRanked(c, Graph(c.decls.Keys, RankOf(order), cone))
  {
    forall s, t | s in c.decls && t in Deps(c, s)
      ensures t in c.decls && RankOf(order)[t] < RankOf(order)[s]
    {
      FollowedIsAll(c.decls[s].defaults);
      assert t in Succ(c, s) && Rep(c, s) == s && Rep(c, t) == t;
      assert Edge(c, s, t);
      OrderDescends(c, order, s, t);
    }
  }
}
