// The value every symbol should have: a recursive definition without caching, for the symbols of
// an acyclic part of the dependency graph.
module Meaning {
  import opened Tristate
  import opened Expr
  import opened Config

  /** All that is calculated about a symbol. */
  datatype Outcome = Outcome(
    visible: Tri, dirDep: Tri, revDep: Tri, implied: Tri, tri: Tri, str: string, write: bool)

  type Users = map<Sym, User>

  function UserOf(users: Users, s: Sym): User {
    if s in users then users[s] else FRESH.user
  }

  // A tristate behaves like a bool when modules are off.
  predicate BoolLike(s: Sym, mods: Tri) {
    TypeOf(s).Boolean? || (TypeOf(s).Tri3? && mods == NO)
  }

  function Promote(s: Sym, mods: Tri, v: Tri): Tri {
    if v == MOD && BoolLike(s, mods) then YES else v
  }

  function MaxPrompts(ps: seq<Dep>, env: Env, acc: Tri): Tri {
    if ps == [] then acc else MaxPrompts(ps[1..], env, Max(acc, EvalDep(ps[0], env)))
  }

  function FirstDefault(ds: seq<Default>, env: Env): Option<(Expr, Tri)> {
    if ds == [] then None
    else if EvalDep(ds[0].cond, env) != NO then Some((ds[0].value, EvalDep(ds[0].cond, env)))
    else FirstDefault(ds[1..], env)
  }

  function VisibleIn(d: Decl, s: Sym, mods: Tri, env: Env): Tri {
    var v := MaxPrompts(d.prompts, env, NO);
    if v == MOD && (!TypeOf(s).Tri3? || mods == NO) then YES else v
  }

  function DirDepIn(d: Decl, s: Sym, mods: Tri, env: Env): Tri {
    Promote(s, mods, EvalDep(d.dirDep, env))
  }

  function RevDepIn(d: Decl, s: Sym, mods: Tri, env: Env): Tri {
    if d.revDep.None? then NO else Promote(s, mods, Eval(d.revDep.value, env))
  }

  function ImpliedIn(d: Decl, s: Sym, mods: Tri, env: Env): Tri {
    if d.implied.None? || DirDepIn(d, s, mods, env) == NO then NO
    else Promote(s, mods, Eval(d.implied.value, env))
  }

  // What the defaults and the implying symbols give.
  function DefaultIn(d: Decl, implied: Tri, env: Env): Tri {
    var f := FirstDefault(d.defaults, env);
    Max(if f.None? then NO else Min(Eval(f.value.0, env), f.value.1), implied)
  }

  // The effect of the selecting symbols on the value v, and of the type on the result.
  function Settle(s: Sym, mods: Tri, dirDep: Tri, revDep: Tri, implied: Tri, v: Tri): Tri {
    var w := if dirDep == NO && revDep != NO then NO else Max(v, revDep);
    if w == MOD && (BoolLike(s, mods) || implied == YES) then YES else w
  }

  // The text of a default symbol; the text kept for a bool or tristate is always n.
  function DefaultText(ds: seq<Default>, env: Env): string {
    var f := FirstDefault(ds, env);
    if f.None? || !f.value.0.Symbol? then ""
    else if IsLogical(f.value.0.sym) then "n"
    else Lookup(env, f.value.0.sym).str
  }

  /** The outcome for one symbol, given the outcomes of the symbols it depends on. */
  function Step(d: Decl, s: Sym, mods: Tri, u: User, env: Env): Outcome {
    if TypeOf(s).Unknown? then Outcome(NO, NO, NO, NO, NO, Unset(s).str, false)
    else
      var visible, dirDep, revDep, implied :=
        VisibleIn(d, s, mods, env), DirDepIn(d, s, mods, env), RevDepIn(d, s, mods, env), ImpliedIn(d, s, mods, env);
      var mine := visible != NO && u.has;
      var f := FirstDefault(d.defaults, env);
      if IsLogical(s) then
        var v := if mine then Min(u.tri, visible) else DefaultIn(d, implied, env);
        Outcome(visible, dirDep, revDep, implied, Settle(s, mods, dirDep, revDep, implied, v), "n",
          !d.noWrite && (visible != NO || revDep != NO || f.Some? || implied != NO))
      else
        Outcome(visible, dirDep, revDep, implied, NO, if mine then u.str else DefaultText(d.defaults, env),
          !d.noWrite && (visible != NO || (f.Some? && f.value.0.Symbol?)))
  }

  // How a symbol with a given outcome enters an expression.
  function ValOf(s: Sym, o: Outcome): Val {
    Val(o.tri, if IsLogical(s) then Letter(o.tri) else o.str)
  }

  // ----- the part of the graph that is acyclic -----

  function PromptSyms(ps: seq<Dep>): set<Sym> {
    if ps == [] then {} else DepSyms(ps[0]) + PromptSyms(ps[1..])
  }

  function DefaultSyms(ds: seq<Default>): set<Sym> {
    if ds == [] then {} else DepSyms(ds[0].cond) + Syms(ds[0].value) + DefaultSyms(ds[1..])
  }

  /** The symbols whose values the evaluation of a symbol may ask for. */
  function Mentioned(d: Decl): set<Sym> {
    PromptSyms(d.prompts) + DefaultSyms(d.defaults) + DepSyms(d.dirDep) + DepSyms(d.revDep) + DepSyms(d.implied)
  }

  function Declared(c: Config, ss: set<Sym>): set<Sym> {
    set t | t in ss && t.Var? && t in c.decls
  }

  function Deps(c: Config, s: Sym): set<Sym>
    requires s in c.decls
  {
    Declared(c, Mentioned(c.decls[s]))
  }

  /** A set of symbols without choices, closed under dependencies, with a rank that makes every
      dependency go down. The symbol that switches modules on is in a part without tristates. */
  datatype Graph = Graph(nodes: set<Sym>, rank: map<Sym, nat>, cone: set<Sym>)

  ghost predicate WellRanked(c: Config, g: Graph) {
    g.nodes <= c.decls.Keys && g.nodes <= g.rank.Keys && g.cone <= g.nodes &&
    (forall s <- g.nodes :: s.Var? && c.decls[s].role.Plain?) &&
    (forall s <- g.nodes, t <- Deps(c, s) :: t in g.nodes && g.rank[t] < g.rank[s]) &&
    (forall s <- g.cone :: !TypeOf(s).Tri3? && Deps(c, s) <= g.cone) &&
    (c.modules.Var? && c.modules in c.decls ==> c.modules in g.cone && TypeOf(c.modules).Boolean?)
  }

  /** The outcome of a symbol, by recursion along its dependencies. */
  ghost function ValueOf(c: Config, g: Graph, mods: Tri, users: Users, s: Sym): Outcome
    requires WellRanked(c, g) && s in g.nodes
    decreases g.rank[s], 1
  {
    Step(c.decls[s], s, mods, UserOf(users, s), EnvOf(c, g, mods, users, s))
  }

  /** The values of the symbols that s depends on. */
  ghost function EnvOf(c: Config, g: Graph, mods: Tri, users: Users, s: Sym): Env
    requires WellRanked(c, g) && s in g.nodes
    decreases g.rank[s], 0
  {
    map t | t in Deps(c, s) :: ValOf(t, ValueOf(c, g, mods, users, t))
  }

  /** The value of the symbol that switches modules on. */
  ghost function Modules(c: Config, g: Graph, users: Users): Tri
    requires WellRanked(c, g)
  {
    if c.modules in g.nodes then ValueOf(c, g, NO, users, c.modules).tri
    else Lookup(map[], c.modules).tri
  }

  lemma StepIgnoresModules(d: Decl, s: Sym, m1: Tri, m2: Tri, u: User, env: Env)
    requires !TypeOf(s).Tri3?
    ensures Step(d, s, m1, u, env) == Step(d, s, m2, u, env)
  {
    hide MaxPrompts, FirstDefault, Eval, DefaultText;
  }

  lemma {:induction false} ConeIgnoresModules(c: Config, g: Graph, m1: Tri, m2: Tri, users: Users, s: Sym)
    requires WellRanked(c, g) && s in g.cone
    ensures ValueOf(c, g, m1, users, s) == ValueOf(c, g, m2, users, s)
    decreases g.rank[s], 0
  {
    forall t | t in Deps(c, s) ensures ValueOf(c, g, m1, users, t) == ValueOf(c, g, m2, users, t) {
      ConeIgnoresModules(c, g, m1, m2, users, t);
    }
    assert EnvOf(c, g, m1, users, s) == EnvOf(c, g, m2, users, s);
    StepIgnoresModules(c.decls[s], s, m1, m2, UserOf(users, s), EnvOf(c, g, m1, users, s));
  }

  /** Where modules are off no tristate is m, and a bool never is. */
  lemma {:induction false} NoModWithoutModules(c: Config, g: Graph, mods: Tri, users: Users, s: Sym)
    requires WellRanked(c, g) && s in g.nodes && IsLogical(s)
    ensures ValueOf(c, g, mods, users, s).tri == MOD ==> TypeOf(s).Tri3? && mods != NO
    decreases g.rank[s], 0
  {
  }

  /** The environment in which a symbol is evaluated respects the types. */
  lemma {:induction false} EnvIsTyped(c: Config, g: Graph, mods: Tri, users: Users, s: Sym)
    requires WellRanked(c, g) && s in g.nodes
    ensures WellTyped(EnvOf(c, g, mods, users, s))
  {
    forall t | t in Deps(c, s)
      ensures TypeOf(t).Boolean? ==> ValueOf(c, g, mods, users, t).tri != MOD
      ensures !IsLogical(t) ==> ValueOf(c, g, mods, users, t).tri == NO
    {
      if IsLogical(t) {
        NoModWithoutModules(c, g, mods, users, t);
      }
    }
  }
}
