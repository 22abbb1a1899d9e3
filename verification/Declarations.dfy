// How the definitions of a symbol in the menu become its declaration (menu_finalize of menu.c), that
// the simplifications on the way change no value, and what follows for setting values.
module Declarations {
  import opened Tristate
  import opened Expr
  import opened Transform
  import Dups
  import opened Depends
  import opened Config
  import opened Meaning
  import opened Evaluation
  import opened Setting
  import opened Minimal

  /** One definition of a symbol: the menu entries above it, its own dependencies, and its prompts and
      defaults with their conditions, all as they were written. */
  datatype Definition = Definition(path: seq<Entry>, dep: Dep, prompts: seq<Dep>, defaults: seq<Default>)

  /** A select or imply by the symbol sym: the menu entries above the entry with it, the dependencies of
      that entry, and the condition, all as they were written. */
  datatype Selector = Selector(sym: Sym, path: seq<Entry>, dep: Dep, cond: Dep)

  /** A symbol with all its definitions, and the selects and implies that name it. */
  datatype Source = Source(defs: seq<Definition>, selects: seq<Selector>, implies: seq<Selector>, role: Role, noWrite: bool)

  /** The two ways to put conditions together: as menu_finalize does, and without simplifying. */
  datatype Style = Simplified | AsWritten

  // ----- declarations -----

  // The conjunction of all dependencies on a path, without simplifications.
  function WrittenPath(path: seq<Entry>, modules: Sym): Dep {
    if path == [] then None
    else
      var last := path[|path| - 1];
      if last.choice.Some? then Some(Symbol(last.choice.value))
      else AllocAnd(WrittenPath(path[..|path| - 1], modules), RewriteMDep(last.dep, modules))
  }

  /** The dependency of a menu entry that defines a symbol. */
  function Base(d: Definition, modules: Sym, style: Style): Dep {
    if style.Simplified? then Propagate(PathDep(d.path, modules), d.dep, modules)
    else AllocAnd(WrittenPath(d.path, modules), RewriteMDep(d.dep, modules))
  }

  function Condition(base: Dep, cond: Dep, modules: Sym, tristate: bool, style: Style): Dep {
    if style.Simplified? then PropagateCondition(base, cond, modules, tristate)
    else AllocAnd(base, RewriteMDep(cond, modules))
  }

  function Prompts(base: Dep, conds: seq<Dep>, modules: Sym, tristate: bool, style: Style): (r: seq<Dep>)
    ensures |r| == |conds|
  {
    if conds == [] then []
    else [Condition(base, conds[0], modules, tristate, style)] + Prompts(base, conds[1..], modules, tristate, style)
  }

  function Defaults(base: Dep, ds: seq<Default>, modules: Sym, tristate: bool, style: Style): (r: seq<Default>)
    ensures |r| == |ds|
  {
    if ds == [] then []
    else
      [ds[0].(cond := Condition(base, ds[0].cond, modules, tristate, style))] +
      Defaults(base, ds[1..], modules, tristate, style)
  }

  function Bases(defs: seq<Definition>, modules: Sym, style: Style): (r: seq<Dep>)
    ensures |r| == |defs|
    ensures forall i | 0 <= i < |defs| :: r[i] == Base(defs[i], modules, style)
  {
    seq(|defs|, i requires 0 <= i < |defs| => Base(defs[i], modules, style))
  }

  function AllPrompts(defs: seq<Definition>, modules: Sym, tristate: bool, style: Style): seq<Dep> {
    if defs == [] then []
    else
      Prompts(Base(defs[0], modules, style), defs[0].prompts, modules, tristate, style) +
      AllPrompts(defs[1..], modules, tristate, style)
  }

  function AllDefaults(defs: seq<Definition>, modules: Sym, tristate: bool, style: Style): seq<Default> {
    if defs == [] then []
    else
      Defaults(Base(defs[0], modules, style), defs[0].defaults, modules, tristate, style) +
      AllDefaults(defs[1..], modules, tristate, style)
  }

  /** The prompts and defaults of all definitions are collected in order, each one with its own condition and
      the dependency of its definition. */
  lemma {:induction false} CollectsInOrder(a: seq<Definition>, d: Definition, b: seq<Definition>, modules: Sym, tristate: bool, style: Style)
    ensures var base := Base(d, modules, style);
      AllPrompts(a + [d] + b, modules, tristate, style) ==
        AllPrompts(a, modules, tristate, style) + Prompts(base, d.prompts, modules, tristate, style) +
        AllPrompts(b, modules, tristate, style) &&
      AllDefaults(a + [d] + b, modules, tristate, style) ==
        AllDefaults(a, modules, tristate, style) + Defaults(base, d.defaults, modules, tristate, style) +
        AllDefaults(b, modules, tristate, style)
    decreases |a|
  {
    hide Base, Condition, Prompts, Defaults;
    var all := a + [d] + b;
    if a == [] {
      assert all[0] == d && all[1..] == b;
    } else {
      assert all[0] == a[0] && all[1..] == a[1..] + [d] + b;
      CollectsInOrder(a[1..], d, b, modules, tristate, style);
      CollectsNext(all, modules, tristate, style);
      CollectsNext(a, modules, tristate, style);
      hide AllPrompts, AllDefaults;
    }
  }

  lemma CollectsNext(defs: seq<Definition>, modules: Sym, tristate: bool, style: Style)
    requires defs != []
    ensures var base := Base(defs[0], modules, style);
      AllPrompts(defs, modules, tristate, style) ==
        Prompts(base, defs[0].prompts, modules, tristate, style) + AllPrompts(defs[1..], modules, tristate, style) &&
      AllDefaults(defs, modules, tristate, style) ==
        Defaults(base, defs[0].defaults, modules, tristate, style) + AllDefaults(defs[1..], modules, tristate, style)
  {
  }

  lemma {:induction false} ConditionsInOrder(base: Dep, conds: seq<Dep>, ds: seq<Default>, modules: Sym, tristate: bool, style: Style)
    ensures forall i | 0 <= i < |conds| ::
      Prompts(base, conds, modules, tristate, style)[i] == Condition(base, conds[i], modules, tristate, style)
    ensures forall i | 0 <= i < |ds| ::
      Defaults(base, ds, modules, tristate, style)[i] ==
      Default(Condition(base, ds[i].cond, modules, tristate, style), ds[i].value)
    decreases |conds| + |ds|
  {
    hide Condition;
    if conds != [] {
      ConditionsInOrder(base, conds[1..], [], modules, tristate, style);
    }
    if ds != [] {
      ConditionsInOrder(base, [], ds[1..], modules, tristate, style);
    }
  }

  /** As menu_finalize puts conditions together they are simplified: for a tristate nothing more can be
      joined, and for other types no test that expr_trans_bool converts is left. */
  lemma {:induction false} ConditionSettles(base: Dep, cond: Dep, modules: Sym, tristate: bool)
    ensures var r := Condition(base, cond, modules, tristate, Simplified);
      (r.None? <==> base.None? && cond.None?) &&
      (r.Some? ==> if tristate then Dups.Settled(r.value) else TransBool(r.value) == r.value)
  {
    PropagateSettles(base, cond, modules);
    var x := Propagate(base, cond, modules);
    if x.Some? {
      TransBoolTwice(x.value);
    }
    hide Propagate, TransBool;
  }

  lemma {:induction false} TransBoolTwice(e: Expr)
    ensures TransBool(TransBool(e)) == TransBool(e)
  {
    match e
    case And(l, r) => TransBoolTwice(l); TransBoolTwice(r);
    case Or(l, r) => TransBoolTwice(l); TransBoolTwice(r);
    case Not(a) => TransBoolTwice(a);
    case _ =>
  }

  function Entering(sel: Selector): Definition {
    Definition(sel.path, sel.dep, [], [])
  }

  function SelectOf(sel: Selector, modules: Sym, style: Style): (Sym, Dep) {
    (sel.sym, Condition(Base(Entering(sel), modules, style), sel.cond, modules, TypeOf(sel.sym).Tri3?, style))
  }

  function Selects(sels: seq<Selector>, modules: Sym, style: Style): (r: seq<(Sym, Dep)>)
    ensures |r| == |sels|
    ensures forall i | 0 <= i < |sels| :: r[i] == SelectOf(sels[i], modules, style)
  {
    seq(|sels|, i requires 0 <= i < |sels| => SelectOf(sels[i], modules, style))
  }

  /** The declaration of s. */
  function Declare(src: Source, s: Sym, modules: Sym, style: Style): Decl {
    var tristate := TypeOf(s).Tri3?;
    Decl(AllPrompts(src.defs, modules, tristate, style), AllDefaults(src.defs, modules, tristate, style),
      DirDepOf(Bases(src.defs, modules, style)), RevOf(Selects(src.selects, modules, style)),
      RevOf(Selects(src.implies, modules, style)), src.role, src.noWrite)
  }

  function ConfigOf(sources: map<Sym, Source>, modules: Sym, style: Style): Config {
    Config(map s | s in sources :: Declare(sources[s], s, modules, style), modules)
  }

  // ----- what may be written -----

  predicate EntryOk(e: Entry) {
    Writable(e.dep) && (e.choice.Some? ==> IsLogical(e.choice.value))
  }

  predicate DefinitionOk(d: Definition) {
    (forall e <- d.path :: EntryOk(e)) && Writable(d.dep) &&
    (forall p <- d.prompts :: Writable(p)) && (forall f <- d.defaults :: Writable(f.cond))
  }

  predicate SelectorOk(sel: Selector) {
    IsLogical(sel.sym) && DefinitionOk(Entering(sel)) && Writable(sel.cond)
  }

  predicate SourceOk(src: Source) {
    (forall d <- src.defs :: DefinitionOk(d)) && (forall sel <- src.selects :: SelectorOk(sel)) &&
    (forall sel <- src.implies :: SelectorOk(sel))
  }

  predicate ModulesOk(modules: Sym) {
    IsLogical(modules) || IsLetter(modules)
  }

  // ----- the same symbols -----

  lemma {:induction false} PathKeeps(path: seq<Entry>, modules: Sym, ss: set<Sym>)
    requires ModulesOk(modules) && (forall e <- path :: EntryOk(e)) && WithinDep(WrittenPath(path, modules), ss)
    ensures Shaped(PathDep(path, modules), ss)
    decreases |path|
  {
    if path != [] {
      var last, above := path[|path| - 1], path[..|path| - 1];
      assert last in path && EntryOk(last);
      if last.choice.None? {
        AllocAndWithin(WrittenPath(above, modules), RewriteMDep(last.dep, modules), ss);
        PathKeeps(above, modules, ss);
        PropagateKeeps(PathDep(above, modules), last.dep, modules, ss);
      }
    }
  }

  lemma AllocAndWithin(a: Dep, b: Dep, ss: set<Sym>)
    ensures WithinDep(AllocAnd(a, b), ss) <==> WithinDep(a, ss) && WithinDep(b, ss)
  {
    if a.Some? && b.Some? {
      assert Syms(And(a.value, b.value)) == Syms(a.value) + Syms(b.value);
    }
  }

  lemma BaseKeeps(d: Definition, modules: Sym, ss: set<Sym>)
    requires ModulesOk(modules) && DefinitionOk(d) && WithinDep(Base(d, modules, AsWritten), ss)
    ensures Shaped(Base(d, modules, Simplified), ss)
  {
    AllocAndWithin(WrittenPath(d.path, modules), RewriteMDep(d.dep, modules), ss);
    PathKeeps(d.path, modules, ss);
    PropagateKeeps(PathDep(d.path, modules), d.dep, modules, ss);
  }

  lemma {:induction false} PromptsKeep(base: Dep, plain: Dep, conds: seq<Dep>, modules: Sym, tristate: bool, ss: set<Sym>)
    requires ModulesOk(modules) && Shaped(base, ss) && forall p <- conds :: Writable(p)
    requires PromptSyms(Prompts(plain, conds, modules, tristate, AsWritten)) <= ss
    ensures PromptSyms(Prompts(base, conds, modules, tristate, Simplified)) <= ss + {SYM_YES, SYM_MOD, SYM_NO}
    decreases |conds|
  {
    if conds != [] {
      AllocAndWithin(plain, RewriteMDep(conds[0], modules), ss);
      PropagateConditionKeeps(base, conds[0], modules, tristate, ss);
      PromptsKeep(base, plain, conds[1..], modules, tristate, ss);
    }
  }

  lemma {:induction false} DefaultsKeep(base: Dep, plain: Dep, ds: seq<Default>, modules: Sym, tristate: bool, ss: set<Sym>)
    requires ModulesOk(modules) && Shaped(base, ss) && forall f <- ds :: Writable(f.cond)
    requires DefaultSyms(Defaults(plain, ds, modules, tristate, AsWritten)) <= ss
    ensures DefaultSyms(Defaults(base, ds, modules, tristate, Simplified)) <= ss + {SYM_YES, SYM_MOD, SYM_NO}
    decreases |ds|
  {
    if ds != [] {
      AllocAndWithin(plain, RewriteMDep(ds[0].cond, modules), ss);
      PropagateConditionKeeps(base, ds[0].cond, modules, tristate, ss);
      DefaultsKeep(base, plain, ds[1..], modules, tristate, ss);
    }
  }

  lemma {:induction false} PromptSymsAppend(a: seq<Dep>, b: seq<Dep>)
    ensures PromptSyms(a + b) == PromptSyms(a) + PromptSyms(b)
    decreases |a|
  {
    if a == [] {
      assert a + b == b;
    } else {
      assert (a + b)[0] == a[0] && (a + b)[1..] == a[1..] + b;
      PromptSymsAppend(a[1..], b);
    }
  }

  lemma {:induction false} DefaultSymsAppend(a: seq<Default>, b: seq<Default>)
    ensures DefaultSyms(a + b) == DefaultSyms(a) + DefaultSyms(b)
    decreases |a|
  {
    if a == [] {
      assert a + b == b;
    } else {
      assert (a + b)[0] == a[0] && (a + b)[1..] == a[1..] + b;
      DefaultSymsAppend(a[1..], b);
    }
  }

  lemma {:induction false} DirDepWithin(ds: seq<Dep>, ss: set<Sym>)
    ensures WithinDep(DirDepOf(ds), ss) <==> forall d <- ds :: WithinDep(d, ss)
    decreases |ds|
  {
    if ds != [] {
      var above, last := ds[..|ds| - 1], ds[|ds| - 1];
      DirDepWithin(above, ss);
      AllocOrWithin(DirDepOf(above), last, ss);
      assert forall d :: d in ds <==> d in above || d == last by {
        assert ds == above + [last];
      }
    }
  }

  lemma AllocOrWithin(a: Dep, b: Dep, ss: set<Sym>)
    ensures WithinDep(AllocOr(a, b), ss) <==> WithinDep(a, ss) && WithinDep(b, ss)
  {
    if a.Some? && b.Some? {
      assert Syms(Or(a.value, b.value)) == Syms(a.value) + Syms(b.value);
    }
  }

  lemma {:induction false} DirDepKeeps(src: Source, modules: Sym, ss: set<Sym>)
    requires ModulesOk(modules) && SourceOk(src) && WithinDep(DirDepOf(Bases(src.defs, modules, AsWritten)), ss)
    ensures forall d <- src.defs :: WithinDep(Base(d, modules, AsWritten), ss)
    ensures WithinDep(DirDepOf(Bases(src.defs, modules, Simplified)), ss)
  {
    hide Base, DirDepOf, WithinDep, Shaped, DefinitionOk;
    var plain, simple := Bases(src.defs, modules, AsWritten), Bases(src.defs, modules, Simplified);
    DirDepWithin(plain, ss);
    forall d | d in src.defs ensures WithinDep(Base(d, modules, AsWritten), ss) {
      var i :| 0 <= i < |src.defs| && src.defs[i] == d;
      assert plain[i] in plain;
    }
    forall d | d in simple ensures WithinDep(d, ss) {
      var i :| 0 <= i < |simple| && simple[i] == d;
      assert src.defs[i] in src.defs;
      BaseKeeps(src.defs[i], modules, ss);
      ShapedIsWithin(d, ss);
    }
    DirDepWithin(simple, ss);
  }

  // The selects bring in the selecting symbols and what their conditions mention.
  lemma {:induction false} RevWithin(selects: seq<(Sym, Dep)>, ss: set<Sym>)
    ensures WithinDep(RevOf(selects), ss) <==>
      forall i | 0 <= i < |selects| :: Within(Symbol(selects[i].0), ss) && WithinDep(selects[i].1, ss)
    decreases |selects|
  {
    if selects != [] {
      var n := |selects| - 1;
      var (s, cond) := selects[n];
      RevWithin(selects[..n], ss);
      AllocAndWithin(Some(Symbol(s)), cond, ss);
      AllocOrWithin(RevOf(selects[..n]), AllocAnd(Some(Symbol(s)), cond), ss);
    }
  }

  lemma {:induction false} SelectsKeep(sels: seq<Selector>, modules: Sym, ss: set<Sym>)
    requires ModulesOk(modules) && (forall sel <- sels :: SelectorOk(sel))
    requires WithinDep(RevOf(Selects(sels, modules, AsWritten)), ss)
    ensures WithinDep(RevOf(Selects(sels, modules, Simplified)), ss)
  {
    hide RevOf, WithinDep, Within, Shaped, DefinitionOk, Writable, Base, Condition;
    var a, b := Selects(sels, modules, AsWritten), Selects(sels, modules, Simplified);
    RevWithin(a, ss);
    forall i | 0 <= i < |sels| ensures Within(Symbol(b[i].0), ss) && WithinDep(b[i].1, ss) {
      assert SelectorOk(sels[i]);
      SelectKeeps(sels[i], modules, ss);
    }
    RevWithin(b, ss);
  }

  lemma SelectKeeps(sel: Selector, modules: Sym, ss: set<Sym>)
    requires ModulesOk(modules) && SelectorOk(sel) && WithinDep(SelectOf(sel, modules, AsWritten).1, ss)
    ensures WithinDep(SelectOf(sel, modules, Simplified).1, ss)
  {
    var d := Entering(sel);
    AllocAndWithin(Base(d, modules, AsWritten), RewriteMDep(sel.cond, modules), ss);
    BaseKeeps(d, modules, ss);
    PropagateConditionKeeps(Base(d, modules, Simplified), sel.cond, modules, TypeOf(sel.sym).Tri3?, ss);
  }

  lemma ShapedIsWithin(d: Dep, ss: set<Sym>)
    requires Shaped(d, ss)
    ensures WithinDep(d, ss)
  {
  }

  lemma {:induction false} AllPromptsKeep(defs: seq<Definition>, modules: Sym, tristate: bool, ss: set<Sym>)
    requires ModulesOk(modules) && forall d <- defs :: DefinitionOk(d) && WithinDep(Base(d, modules, AsWritten), ss)
    requires PromptSyms(AllPrompts(defs, modules, tristate, AsWritten)) <= ss
    requires DefaultSyms(AllDefaults(defs, modules, tristate, AsWritten)) <= ss
    ensures PromptSyms(AllPrompts(defs, modules, tristate, Simplified)) <= ss + {SYM_YES, SYM_MOD, SYM_NO}
    ensures DefaultSyms(AllDefaults(defs, modules, tristate, Simplified)) <= ss + {SYM_YES, SYM_MOD, SYM_NO}
    decreases |defs|
  {
    if defs != [] {
      var d := defs[0];
      var base, plain := Base(d, modules, Simplified), Base(d, modules, AsWritten);
      assert d in defs;
      BaseKeeps(d, modules, ss);
      PromptSymsAppend(Prompts(plain, d.prompts, modules, tristate, AsWritten), AllPrompts(defs[1..], modules, tristate, AsWritten));
      DefaultSymsAppend(Defaults(plain, d.defaults, modules, tristate, AsWritten),
        AllDefaults(defs[1..], modules, tristate, AsWritten));
      PromptsKeep(base, plain, d.prompts, modules, tristate, ss);
      DefaultsKeep(base, plain, d.defaults, modules, tristate, ss);
      AllPromptsKeep(defs[1..], modules, tristate, ss);
      PromptSymsAppend(Prompts(base, d.prompts, modules, tristate, Simplified),
        AllPrompts(defs[1..], modules, tristate, Simplified));
      DefaultSymsAppend(Defaults(base, d.defaults, modules, tristate, Simplified),
        AllDefaults(defs[1..], modules, tristate, Simplified));
    }
  }

  /** Simplifying lets no symbol depend on further symbols. */
  lemma {:induction false} MentionsNoMore(src: Source, s: Sym, modules: Sym)
    requires ModulesOk(modules) && SourceOk(src)
    ensures Mentioned(Declare(src, s, modules, Simplified)) <=
      Mentioned(Declare(src, s, modules, AsWritten)) + {SYM_YES, SYM_MOD, SYM_NO}
  {
    var a, b := Declare(src, s, modules, AsWritten), Declare(src, s, modules, Simplified);
    var ss := Mentioned(a);
    hide Base, DirDepOf, RevOf, Selects, AllPrompts, AllDefaults, DefinitionOk, SelectorOk, PromptSyms, DefaultSyms, Shaped;
    assert WithinDep(a.dirDep, ss) && WithinDep(a.revDep, ss) && WithinDep(a.implied, ss);
    DirDepKeeps(src, modules, ss);
    AllPromptsKeep(src.defs, modules, TypeOf(s).Tri3?, ss);
    SelectsKeep(src.selects, modules, ss);
    SelectsKeep(src.implies, modules, ss);
    var more := ss + {SYM_YES, SYM_MOD, SYM_NO};
    assert DepSyms(b.dirDep) <= more && DepSyms(b.revDep) <= more && DepSyms(b.implied) <= more;
  }

  // ----- the same values -----

  lemma {:induction false} PathSame(path: seq<Entry>, modules: Sym, env: Env)
    requires WellTyped(env) && ModulesOk(modules) && forall e <- path :: EntryOk(e)
    ensures EvalDep(PathDep(path, modules), env) == EvalDep(WrittenPath(path, modules), env) == PathValue(path, modules, env)
    ensures Propagated(PathDep(path, modules))
    decreases |path|
  {
    PathMeans(path, modules, env);
    WrittenPathMeans(path, modules, env);
    var ss := DepSyms(WrittenPath(path, modules));
    PathKeeps(path, modules, ss);
  }

  lemma {:induction false} WrittenPathMeans(path: seq<Entry>, modules: Sym, env: Env)
    ensures EvalDep(WrittenPath(path, modules), env) == PathValue(path, modules, env)
    decreases |path|
  {
    if path != [] {
      var last, above := path[|path| - 1], path[..|path| - 1];
      WrittenPathMeans(above, modules, env);
      RewriteMDepMeans(last.dep, modules, env);
      AllocAndMeans(WrittenPath(above, modules), RewriteMDep(last.dep, modules), env);
    }
  }

  /** The simplified dependency of an entry has the value of the conjunction as it was written. */
  lemma {:induction false} BaseSame(d: Definition, modules: Sym, env: Env)
    requires WellTyped(env) && ModulesOk(modules) && DefinitionOk(d)
    ensures EvalDep(Base(d, modules, Simplified), env) == EvalDep(Base(d, modules, AsWritten), env)
    ensures Propagated(Base(d, modules, Simplified))
  {
    PathSame(d.path, modules, env);
    PropagateSound(PathDep(d.path, modules), d.dep, modules, env);
    RewriteMDepMeans(d.dep, modules, env);
    AllocAndMeans(WrittenPath(d.path, modules), RewriteMDep(d.dep, modules), env);
    BaseKeeps(d, modules, DepSyms(Base(d, modules, AsWritten)));
  }

  /** For tristates the simplified condition of a prompt or default has the same value as the one that
      was written; for other types it is n in the same cases. */
  lemma {:induction false} ConditionSame(base: Dep, plain: Dep, cond: Dep, modules: Sym, tristate: bool, env: Env)
    requires WellTyped(env) && ModulesOk(modules) && Propagated(base) && EvalDep(base, env) == EvalDep(plain, env)
    requires Writable(cond)
    ensures SameCondition(Condition(base, cond, modules, tristate, Simplified),
      Condition(plain, cond, modules, tristate, AsWritten), env, tristate)
  {
    ConditionSound(base, cond, modules, tristate, env);
    RewriteMDepMeans(cond, modules, env);
    AllocAndMeans(plain, RewriteMDep(cond, modules), env);
  }

  // The same for the conditions of selects, where it matters to more than being n.
  lemma {:induction false} SelectSame(sel: Selector, modules: Sym, env: Env)
    requires WellTyped(env) && ModulesOk(modules) && SelectorOk(sel)
    ensures SameCondition(SelectOf(sel, modules, Simplified).1, SelectOf(sel, modules, AsWritten).1, env,
      SelectExact(sel, modules, env))
  {
    var d := Entering(sel);
    BaseSame(d, modules, env);
    ConditionSame(Base(d, modules, Simplified), Base(d, modules, AsWritten), sel.cond, modules, TypeOf(sel.sym).Tri3?, env);
    if SelectExact(sel, modules, env) && !TypeOf(sel.sym).Tri3? {
      SelectNoMod(sel, modules, env);
      ConditionSound(Base(d, modules, Simplified), sel.cond, modules, false, env);
      RewriteMDepMeans(sel.cond, modules, env);
      AllocAndMeans(Base(d, modules, AsWritten), RewriteMDep(sel.cond, modules), env);
    }
  }

  // Nothing is lost: the select is by a tristate, or its condition, as it was written together with the
  // dependencies above it, tests no tristate that is m.
  predicate SelectExact(sel: Selector, modules: Sym, env: Env) {
    TypeOf(sel.sym).Tri3? || NoModDep(SelectOf(sel, modules, AsWritten).1, env)
  }

  lemma {:induction false} PathNoMod(path: seq<Entry>, modules: Sym, env: Env)
    requires NoModDep(WrittenPath(path, modules), env)
    ensures NoModDep(PathDep(path, modules), env)
    decreases |path|
  {
    if path != [] {
      var last, above := path[|path| - 1], path[..|path| - 1];
      if last.choice.None? {
        WrittenNoMod(WrittenPath(above, modules), last.dep, modules, env);
        PathNoMod(above, modules, env);
        PropagateNoMod(PathDep(above, modules), last.dep, modules, env);
      }
    }
  }

  lemma WrittenNoMod(a: Dep, d: Dep, modules: Sym, env: Env)
    requires NoModDep(AllocAnd(a, RewriteMDep(d, modules)), env)
    ensures NoModDep(a, env) && NoModDep(d, env)
  {
    if d.Some? {
      RewriteMNoMod(d.value, modules, env);
    }
  }

  lemma SelectNoMod(sel: Selector, modules: Sym, env: Env)
    requires NoModDep(SelectOf(sel, modules, AsWritten).1, env)
    ensures NoModTestDep(Propagate(Base(Entering(sel), modules, Simplified), sel.cond, modules), env)
  {
    WrittenNoMod(Base(Entering(sel), modules, AsWritten), sel.cond, modules, env);
    WrittenNoMod(WrittenPath(sel.path, modules), sel.dep, modules, env);
    PathNoMod(sel.path, modules, env);
    PropagateNoMod(PathDep(sel.path, modules), sel.dep, modules, env);
    PropagateNoMod(Base(Entering(sel), modules, Simplified), sel.cond, modules, env);
  }

  // rev_dep or implied are missing in the same cases and n in the same cases, and where exact holds have
  // the same value.
  predicate SameRev(a: Dep, b: Dep, env: Env, exact: bool) {
    (a.None? <==> b.None?) && (EvalRev(a, env) == NO <==> EvalRev(b, env) == NO) &&
    (exact ==> EvalRev(a, env) == EvalRev(b, env))
  }

  lemma {:induction false} SelectsSame(sels: seq<Selector>, modules: Sym, exact: bool, env: Env)
    requires WellTyped(env) && ModulesOk(modules) && (forall sel <- sels :: SelectorOk(sel))
    requires exact ==> forall sel <- sels :: SelectExact(sel, modules, env)
    ensures SameRev(RevOf(Selects(sels, modules, Simplified)), RevOf(Selects(sels, modules, AsWritten)), env, exact)
  {
    hide SelectorOk, SelectExact, Condition, Base;
    var a, b := Selects(sels, modules, Simplified), Selects(sels, modules, AsWritten);
    forall i | 0 <= i < |sels| ensures SameCondition(a[i].1, b[i].1, env, exact) && a[i].0 == b[i].0 {
      assert sels[i] in sels;
      SelectSame(sels[i], modules, env);
    }
    SelectsCompare(a, b, exact, env);
  }

  predicate SamePrompts(a: seq<Dep>, b: seq<Dep>, env: Env, exact: bool) {
    |a| == |b| && forall i | 0 <= i < |a| :: SameCondition(a[i], b[i], env, exact)
  }

  predicate SameDefaults(a: seq<Default>, b: seq<Default>, env: Env, exact: bool) {
    |a| == |b| && forall i | 0 <= i < |a| :: a[i].value == b[i].value && SameCondition(a[i].cond, b[i].cond, env, exact)
  }

  lemma {:induction false} PromptsSame(base: Dep, plain: Dep, conds: seq<Dep>, modules: Sym, tristate: bool, env: Env)
    requires WellTyped(env) && ModulesOk(modules) && Propagated(base) && EvalDep(base, env) == EvalDep(plain, env)
    requires forall p <- conds :: Writable(p)
    ensures SamePrompts(Prompts(base, conds, modules, tristate, Simplified),
      Prompts(plain, conds, modules, tristate, AsWritten), env, tristate)
    decreases |conds|
  {
    hide Condition, SameCondition, Propagated, Writable;
    if conds != [] {
      ConditionSame(base, plain, conds[0], modules, tristate, env);
      PromptsSame(base, plain, conds[1..], modules, tristate, env);
    }
  }

  lemma {:induction false} DefaultsSame(base: Dep, plain: Dep, ds: seq<Default>, modules: Sym, tristate: bool, env: Env)
    requires WellTyped(env) && ModulesOk(modules) && Propagated(base) && EvalDep(base, env) == EvalDep(plain, env)
    requires forall f <- ds :: Writable(f.cond)
    ensures SameDefaults(Defaults(base, ds, modules, tristate, Simplified),
      Defaults(plain, ds, modules, tristate, AsWritten), env, tristate)
    decreases |ds|
  {
    hide Condition, SameCondition, Propagated, Writable;
    if ds != [] {
      ConditionSame(base, plain, ds[0].cond, modules, tristate, env);
      DefaultsSame(base, plain, ds[1..], modules, tristate, env);
    }
  }

  lemma {:induction false} AllPromptsSame(defs: seq<Definition>, modules: Sym, tristate: bool, env: Env)
    requires WellTyped(env) && ModulesOk(modules) && forall d <- defs :: DefinitionOk(d)
    ensures SamePrompts(AllPrompts(defs, modules, tristate, Simplified),
      AllPrompts(defs, modules, tristate, AsWritten), env, tristate)
    decreases |defs|
  {
    if defs != [] {
      var d := defs[0];
      assert d in defs;
      BaseSame(d, modules, env);
      hide Base, Prompts, SameCondition, Propagated, Writable, EntryOk, WellTyped, ModulesOk, EvalDep;
      PromptsSame(Base(d, modules, Simplified), Base(d, modules, AsWritten), d.prompts, modules, tristate, env);
      AllPromptsSame(defs[1..], modules, tristate, env);
    }
  }

  lemma SameDefaultsAppend(a: seq<Default>, b: seq<Default>, a': seq<Default>, b': seq<Default>, env: Env, exact: bool)
    requires SameDefaults(a, b, env, exact) && SameDefaults(a', b', env, exact)
    ensures SameDefaults(a + a', b + b', env, exact)
  {
    hide SameCondition;
  }

  lemma {:induction false} AllDefaultsSame(defs: seq<Definition>, modules: Sym, tristate: bool, env: Env)
    requires WellTyped(env) && ModulesOk(modules) && forall d <- defs :: DefinitionOk(d)
    ensures SameDefaults(AllDefaults(defs, modules, tristate, Simplified),
      AllDefaults(defs, modules, tristate, AsWritten), env, tristate)
    decreases |defs|
  {
    if defs != [] {
      var d := defs[0];
      assert d in defs;
      BaseSame(d, modules, env);
      hide Base, Defaults, SameCondition, Propagated, Writable, EntryOk, WellTyped, ModulesOk, EvalDep;
      var base, plain := Base(d, modules, Simplified), Base(d, modules, AsWritten);
      DefaultsSame(base, plain, d.defaults, modules, tristate, env);
      AllDefaultsSame(defs[1..], modules, tristate, env);
      hide SameDefaults;
      SameDefaultsAppend(Defaults(base, d.defaults, modules, tristate, Simplified),
        Defaults(plain, d.defaults, modules, tristate, AsWritten),
        AllDefaults(defs[1..], modules, tristate, Simplified), AllDefaults(defs[1..], modules, tristate, AsWritten), env, tristate);
    }
  }

  lemma {:induction false} DirDepSame(defs: seq<Definition>, modules: Sym, env: Env)
    requires WellTyped(env) && ModulesOk(modules) && forall d <- defs :: DefinitionOk(d)
    ensures EvalDep(DirDepOf(Bases(defs, modules, Simplified)), env) == EvalDep(DirDepOf(Bases(defs, modules, AsWritten)), env)
    decreases |defs|
  {
    var a, b := Bases(defs, modules, Simplified), Bases(defs, modules, AsWritten);
    forall i | 0 <= i < |defs| ensures EvalDep(a[i], env) == EvalDep(b[i], env) && (a[i].None? <==> b[i].None?) {
      assert defs[i] in defs;
      BaseSame(defs[i], modules, env);
      BaseMissing(defs[i], modules);
    }
    SameDirDep(a, b, env);
  }

  lemma BaseMissing(d: Definition, modules: Sym)
    ensures Base(d, modules, Simplified).None? <==> Base(d, modules, AsWritten).None?
  {
    PathMissing(d.path, modules);
  }

  lemma {:induction false} PathMissing(path: seq<Entry>, modules: Sym)
    ensures PathDep(path, modules).None? <==> WrittenPath(path, modules).None?
    decreases |path|
  {
    if path != [] {
      PathMissing(path[..|path| - 1], modules);
    }
  }

  lemma {:induction false} SameDirDep(a: seq<Dep>, b: seq<Dep>, env: Env)
    requires |a| == |b|
    requires forall i | 0 <= i < |a| :: EvalDep(a[i], env) == EvalDep(b[i], env) && (a[i].None? <==> b[i].None?)
    ensures EvalDep(DirDepOf(a), env) == EvalDep(DirDepOf(b), env) && (DirDepOf(a).None? <==> DirDepOf(b).None?)
    decreases |a|
  {
    if a != [] {
      var n := |a| - 1;
      SameDirDep(a[..n], b[..n], env);
      AllocOrMeans(DirDepOf(a[..n]), a[n], env);
      AllocOrMeans(DirDepOf(b[..n]), b[n], env);
    }
  }

  // ----- what the values of a symbol depend on -----

  lemma {:induction false} SameMaxPrompts(a: seq<Dep>, b: seq<Dep>, env: Env, exact: bool, acc: Tri, acc': Tri)
    requires SamePrompts(a, b, env, exact) && (acc == NO <==> acc' == NO) && (exact ==> acc == acc')
    ensures MaxPrompts(a, env, acc) == NO <==> MaxPrompts(b, env, acc') == NO
    ensures exact ==> MaxPrompts(a, env, acc) == MaxPrompts(b, env, acc')
    decreases |a|
  {
    if a != [] {
      assert SameCondition(a[0], b[0], env, exact);
      SameMaxPrompts(a[1..], b[1..], env, exact, Max(acc, EvalDep(a[0], env)), Max(acc', EvalDep(b[0], env)));
    }
  }

  lemma {:induction false} SameFirstDefault(a: seq<Default>, b: seq<Default>, env: Env, exact: bool)
    requires SameDefaults(a, b, env, exact)
    ensures var f, f' := FirstDefault(a, env), FirstDefault(b, env);
      (f.Some? <==> f'.Some?) &&
      (f.Some? ==> f.value.0 == f'.value.0 && f.value.1 != NO && f'.value.1 != NO && (exact ==> f.value.1 == f'.value.1))
    decreases |a|
  {
    if a != [] {
      assert SameCondition(a[0].cond, b[0].cond, env, exact);
      SameFirstDefault(a[1..], b[1..], env, exact);
    }
  }

  /** Such differences between two declarations do not show in the outcome. */
  lemma {:induction false} SameStep(d: Decl, d': Decl, s: Sym, mods: Tri, u: User, env: Env)
    requires SamePrompts(d.prompts, d'.prompts, env, TypeOf(s).Tri3?)
    requires SameDefaults(d.defaults, d'.defaults, env, TypeOf(s).Tri3?)
    requires EvalDep(d.dirDep, env) == EvalDep(d'.dirDep, env)
    requires SameRev(d.revDep, d'.revDep, env, !TypeOf(s).Boolean?) && SameRev(d.implied, d'.implied, env, !TypeOf(s).Boolean?)
    requires d.noWrite == d'.noWrite
    ensures Step(d, s, mods, u, env) == Step(d', s, mods, u, env)
  {
    hide SamePrompts, SameDefaults;
    SameReverse(d, d', s, mods, env);
    hide SameRev;
    SameVisible(d, d', s, mods, env);
    SameDefaultText(d, d', s, env);
    if IsLogical(s) {
      var implied := ImpliedIn(d, s, mods, env);
      SameDefault(d, d', s, implied, env);
      SameSettle(s, mods, DirDepIn(d, s, mods, env), RevDepIn(d, s, mods, env), implied,
        DefaultIn(d, implied, env), DefaultIn(d', implied, env));
    }
    hide VisibleIn, DirDepIn, RevDepIn, ImpliedIn, DefaultIn, DefaultText, FirstDefault, Eval, EvalDep, Settle;
  }

  // For a bool, m and y come to the same.
  lemma SameReverse(d: Decl, d': Decl, s: Sym, mods: Tri, env: Env)
    requires SameRev(d.revDep, d'.revDep, env, !TypeOf(s).Boolean?) && SameRev(d.implied, d'.implied, env, !TypeOf(s).Boolean?)
    requires EvalDep(d.dirDep, env) == EvalDep(d'.dirDep, env)
    ensures RevDepIn(d, s, mods, env) == RevDepIn(d', s, mods, env)
    ensures DirDepIn(d, s, mods, env) == DirDepIn(d', s, mods, env)
    ensures ImpliedIn(d, s, mods, env) == ImpliedIn(d', s, mods, env)
  {
    hide Eval, WellTyped;
  }

  lemma SameVisible(d: Decl, d': Decl, s: Sym, mods: Tri, env: Env)
    requires SamePrompts(d.prompts, d'.prompts, env, TypeOf(s).Tri3?)
    ensures VisibleIn(d, s, mods, env) == VisibleIn(d', s, mods, env)
  {
    SameMaxPrompts(d.prompts, d'.prompts, env, TypeOf(s).Tri3?, NO, NO);
    hide MaxPrompts, SamePrompts;
  }

  lemma SameDefault(d: Decl, d': Decl, s: Sym, implied: Tri, env: Env)
    requires SameDefaults(d.defaults, d'.defaults, env, TypeOf(s).Tri3?)
    ensures DefaultIn(d, implied, env) == NO <==> DefaultIn(d', implied, env) == NO
    ensures TypeOf(s).Tri3? ==> DefaultIn(d, implied, env) == DefaultIn(d', implied, env)
  {
    SameFirstDefault(d.defaults, d'.defaults, env, TypeOf(s).Tri3?);
    hide FirstDefault, Eval, SameDefaults;
  }

  lemma SameDefaultText(d: Decl, d': Decl, s: Sym, env: Env)
    requires SameDefaults(d.defaults, d'.defaults, env, TypeOf(s).Tri3?)
    ensures DefaultText(d.defaults, env) == DefaultText(d'.defaults, env)
    ensures var f, f' := FirstDefault(d.defaults, env), FirstDefault(d'.defaults, env);
      (f.Some? <==> f'.Some?) && (f.Some? ==> f.value.0 == f'.value.0)
  {
    SameFirstDefault(d.defaults, d'.defaults, env, TypeOf(s).Tri3?);
    hide FirstDefault, Lookup, SameDefaults;
  }

  // For a bool, y and m come to the same.
  lemma SameSettle(s: Sym, mods: Tri, dirDep: Tri, revDep: Tri, implied: Tri, v: Tri, v': Tri)
    requires IsLogical(s) && (v == NO <==> v' == NO) && (TypeOf(s).Tri3? ==> v == v')
    ensures Settle(s, mods, dirDep, revDep, implied, v) == Settle(s, mods, dirDep, revDep, implied, v')
  {
  }

  // The outcome depends only on the values of the symbols that are mentioned.
  lemma {:induction false} StepAgrees(d: Decl, s: Sym, mods: Tri, u: User, env: Env, env': Env)
    requires forall t <- Mentioned(d) :: Lookup(env, t) == Lookup(env', t)
    ensures Step(d, s, mods, u, env) == Step(d, s, mods, u, env')
  {
    PromptsAgree(d.prompts, env, env', NO);
    DefaultsAgree(d.defaults, env, env');
    DepAgrees(d.dirDep, env, env');
    DepAgrees(d.revDep, env, env');
    DepAgrees(d.implied, env, env');
    hide MaxPrompts, FirstDefault, Eval, EvalDep, DefaultText, Settle, Mentioned, Lookup;
    assert VisibleIn(d, s, mods, env) == VisibleIn(d, s, mods, env');
    assert DirDepIn(d, s, mods, env) == DirDepIn(d, s, mods, env');
    assert RevDepIn(d, s, mods, env) == RevDepIn(d, s, mods, env');
    var implied := ImpliedIn(d, s, mods, env);
    assert implied == ImpliedIn(d, s, mods, env');
    assert DefaultIn(d, implied, env) == DefaultIn(d, implied, env');
    hide VisibleIn, DirDepIn, RevDepIn, ImpliedIn, DefaultIn;
  }

  lemma DepAgrees(d: Dep, env: Env, env': Env)
    requires forall t <- DepSyms(d) :: Lookup(env, t) == Lookup(env', t)
    ensures EvalDep(d, env) == EvalDep(d, env')
    ensures d.Some? ==> Eval(d.value, env) == Eval(d.value, env')
  {
    if d.Some? {
      EvalAgrees(d.value, env, env');
    }
  }

  lemma {:induction false} PromptsAgree(ps: seq<Dep>, env: Env, env': Env, acc: Tri)
    requires forall t <- PromptSyms(ps) :: Lookup(env, t) == Lookup(env', t)
    ensures MaxPrompts(ps, env, acc) == MaxPrompts(ps, env', acc)
    decreases |ps|
  {
    if ps != [] {
      DepAgrees(ps[0], env, env');
      PromptsAgree(ps[1..], env, env', Max(acc, EvalDep(ps[0], env)));
    }
  }

  lemma {:induction false} DefaultsAgree(ds: seq<Default>, env: Env, env': Env)
    requires forall t <- DefaultSyms(ds) :: Lookup(env, t) == Lookup(env', t)
    ensures FirstDefault(ds, env) == FirstDefault(ds, env')
    ensures var f := FirstDefault(ds, env);
      f.Some? ==> Eval(f.value.0, env) == Eval(f.value.0, env') && DefaultText(ds, env) == DefaultText(ds, env')
    decreases |ds|
  {
    if ds != [] {
      DepAgrees(ds[0].cond, env, env');
      EvalAgrees(ds[0].value, env, env');
      if ds[0].value.Symbol? {
        assert ds[0].value.sym in Syms(ds[0].value);
      }
      DefaultsAgree(ds[1..], env, env');
    }
  }

  // ----- the whole configuration -----

  predicate SourcesOk(sources: map<Sym, Source>, modules: Sym) {
    ModulesOk(modules) && forall s <- sources :: SourceOk(sources[s])
  }

  // With no more dependencies the graph stays acyclic.
  lemma RankedBelow(a: Config, b: Config, g: Graph)
    requires WellRanked(a, g) && b.modules == a.modules && b.decls.Keys == a.decls.Keys
    requires forall s <- a.decls :: Deps(b, s) <= Deps(a, s) && b.decls[s].role == a.decls[s].role
    ensures WellRanked(b, g)
  {
    hide Deps;
  }

  lemma DeclaredAlike(sources: map<Sym, Source>, modules: Sym, style: Style)
    ensures ConfigOf(sources, modules, style).modules == modules
    ensures ConfigOf(sources, modules, style).decls.Keys == sources.Keys
    ensures forall s <- sources :: ConfigOf(sources, modules, style).decls[s] == Declare(sources[s], s, modules, style)
  {
    hide Declare;
  }

  lemma FewerDeps(a: Config, b: Config, s: Sym)
    requires s in a.decls && a.decls.Keys == b.decls.Keys
    requires Mentioned(b.decls[s]) <= Mentioned(a.decls[s]) + {SYM_YES, SYM_MOD, SYM_NO}
    ensures Deps(b, s) <= Deps(a, s)
  {
    hide Mentioned;
  }

  lemma DependsOnNoMore(sources: map<Sym, Source>, modules: Sym, s: Sym)
    requires SourcesOk(sources, modules) && s in sources
    ensures var a, b := ConfigOf(sources, modules, AsWritten), ConfigOf(sources, modules, Simplified);
      s in a.decls && s in b.decls && b.decls.Keys == a.decls.Keys && Deps(b, s) <= Deps(a, s) &&
      b.decls[s].role == a.decls[s].role
  {
    DeclaredAlike(sources, modules, AsWritten);
    DeclaredAlike(sources, modules, Simplified);
    hide ConfigOf, Mentioned, AllPrompts, AllDefaults, DirDepOf, RevOf, Selects, Bases, SourceOk, Deps;
    MentionsNoMore(sources[s], s, modules);
    FewerDeps(ConfigOf(sources, modules, AsWritten), ConfigOf(sources, modules, Simplified), s);
  }

  lemma {:induction false} SameGraph(sources: map<Sym, Source>, modules: Sym, g: Graph)
    requires SourcesOk(sources, modules) && WellRanked(ConfigOf(sources, modules, AsWritten), g)
    ensures WellRanked(ConfigOf(sources, modules, Simplified), g)
  {
    hide SourcesOk, WellRanked, Deps, ConfigOf;
    DeclaredAlike(sources, modules, AsWritten);
    DeclaredAlike(sources, modules, Simplified);
    var a, b := ConfigOf(sources, modules, AsWritten), ConfigOf(sources, modules, Simplified);
    forall s | s in sources ensures Deps(b, s) <= Deps(a, s) && b.decls[s].role == a.decls[s].role {
      DependsOnNoMore(sources, modules, s);
    }
    RankedBelow(a, b, g);
  }

  // The selects of all symbols are exact, given the values with all dependencies as they were written.
  ghost predicate AllExact(sources: map<Sym, Source>, modules: Sym, g: Graph, mods: Tri, users: Users)
    requires WellRanked(ConfigOf(sources, modules, AsWritten), g)
  {
    forall s <- g.nodes :: s in sources && SelectsExact(sources[s], s, modules, EnvOf(ConfigOf(sources, modules, AsWritten), g, mods, users, s))
  }

  /** Where modules are off no tristate is m, so that all selects are exact. */
  lemma {:induction false} ExactWithoutModules(sources: map<Sym, Source>, modules: Sym, g: Graph, users: Users)
    requires WellRanked(ConfigOf(sources, modules, AsWritten), g)
    ensures AllExact(sources, modules, g, NO, users)
  {
    var a := ConfigOf(sources, modules, AsWritten);
    forall s | s in g.nodes ensures s in sources && SelectsExact(sources[s], s, modules, EnvOf(a, g, NO, users, s)) {
      NodeIsSource(sources, modules, g, s);
      NoModBelow(a, g, users, s);
      AllSelectsExact(sources[s], s, modules, EnvOf(a, g, NO, users, s));
    }
  }

  ghost predicate NoMod(env: Env) {
    forall t <- env :: env[t].tri != MOD
  }

  lemma NoModBelow(c: Config, g: Graph, users: Users, s: Sym)
    requires WellRanked(c, g) && s in g.nodes
    ensures NoMod(EnvOf(c, g, NO, users, s))
  {
    forall t | t in Deps(c, s) ensures ValueOf(c, g, NO, users, t).tri != MOD {
      if IsLogical(t) {
        NoModWithoutModules(c, g, NO, users, t);
      }
    }
  }

  lemma AllSelectsExact(src: Source, s: Sym, modules: Sym, env: Env)
    requires NoMod(env)
    ensures SelectsExact(src, s, modules, env)
  {
    forall sel: Selector ensures SelectExact(sel, modules, env) {
      var d := SelectOf(sel, modules, AsWritten).1;
      if d.Some? {
        NoModAnywhere(d.value, env);
      }
    }
  }

  lemma {:induction false} NoModAnywhere(e: Expr, env: Env)
    requires NoMod(env)
    ensures NoModCompared(e, env)
  {
    match e
    case Not(a) => NoModAnywhere(a, env);
    case And(l, r) => NoModAnywhere(l, env); NoModAnywhere(r, env);
    case Or(l, r) => NoModAnywhere(l, env); NoModAnywhere(r, env);
    case _ =>
  }

  /** The simplifications of menu_finalize change no value: every symbol has the outcome it would have
      with all dependencies as they were written, as long as no tristate that is m is tested in the
      condition of a select by a bool for another type. */
  lemma {:induction false} SimplifiedValues(sources: map<Sym, Source>, modules: Sym, g: Graph, mods: Tri, users: Users, s: Sym)
    requires SourcesOk(sources, modules) && WellRanked(ConfigOf(sources, modules, AsWritten), g) && s in g.nodes
    requires AllExact(sources, modules, g, mods, users)
    ensures WellRanked(ConfigOf(sources, modules, Simplified), g)
    ensures ValueOf(ConfigOf(sources, modules, Simplified), g, mods, users, s) ==
            ValueOf(ConfigOf(sources, modules, AsWritten), g, mods, users, s)
    decreases g.rank[s]
  {
    SameGraph(sources, modules, g);
    var a, b := ConfigOf(sources, modules, AsWritten), ConfigOf(sources, modules, Simplified);
    NodeIsSource(sources, modules, g, s);
    DependsOnNoMore(sources, modules, s);
    DepsAreBelow(b, g, s);
    assert SelectsExact(sources[s], s, modules, EnvOf(a, g, mods, users, s));
    hide SourcesOk, WellRanked, ConfigOf, Declare, Step, Mentioned, Deps, AllExact, SelectsExact;
    forall t | t in Deps(b, s) ensures ValueOf(b, g, mods, users, t) == ValueOf(a, g, mods, users, t) {
      SimplifiedValues(sources, modules, g, mods, users, t);
    }
    SimplifiedStep(sources, modules, g, mods, users, s);
  }

  lemma NodeIsSource(sources: map<Sym, Source>, modules: Sym, g: Graph, s: Sym)
    requires WellRanked(ConfigOf(sources, modules, AsWritten), g) && s in g.nodes
    ensures s in sources && s in g.rank
  {
    hide Deps, Declare;
  }

  lemma DepsAreBelow(c: Config, g: Graph, s: Sym)
    requires WellRanked(c, g) && s in g.nodes
    ensures s in c.decls && s in g.rank && forall t <- Deps(c, s) :: t in g.nodes && t in g.rank && g.rank[t] < g.rank[s]
  {
    hide Deps;
  }

  // With the same values below it, a symbol has the same outcome.
  lemma {:induction false} SimplifiedStep(sources: map<Sym, Source>, modules: Sym, g: Graph, mods: Tri, users: Users, s: Sym)
    requires SourcesOk(sources, modules) && s in sources && s in g.nodes
    requires WellRanked(ConfigOf(sources, modules, AsWritten), g) &&
      SelectsExact(sources[s], s, modules, EnvOf(ConfigOf(sources, modules, AsWritten), g, mods, users, s))
    requires WellRanked(ConfigOf(sources, modules, AsWritten), g) && WellRanked(ConfigOf(sources, modules, Simplified), g)
    requires forall t <- Deps(ConfigOf(sources, modules, Simplified), s) ::
      t in g.nodes && ValueOf(ConfigOf(sources, modules, Simplified), g, mods, users, t) ==
                      ValueOf(ConfigOf(sources, modules, AsWritten), g, mods, users, t)
    ensures ValueOf(ConfigOf(sources, modules, Simplified), g, mods, users, s) ==
            ValueOf(ConfigOf(sources, modules, AsWritten), g, mods, users, s)
  {
    var a, b := ConfigOf(sources, modules, AsWritten), ConfigOf(sources, modules, Simplified);
    var env, env' := EnvOf(a, g, mods, users, s), EnvOf(b, g, mods, users, s);
    assert SourceOk(sources[s]) && ModulesOk(modules);
    hide SourceOk, SourcesOk, WellRanked, ConfigOf, Declare, Step, Mentioned, WellTyped, ModulesOk, EnvOf, ValueOf, Deps,
      SelectsExact;
    DependsOnNoMore(sources, modules, s);
    DeclaredAlike(sources, modules, AsWritten);
    DeclaredAlike(sources, modules, Simplified);
    EnvIsTyped(a, g, mods, users, s);
    DeclareSame(sources[s], s, modules, mods, UserOf(users, s), env);
    ValueIsStep(a, g, mods, users, s);
    ValueIsStep(b, g, mods, users, s);
    SameLookups(a, b, s, env, env');
    StepAgrees(b.decls[s], s, mods, UserOf(users, s), env', env);
  }

  // One step of the recursive definition.
  lemma ValueIsStep(c: Config, g: Graph, mods: Tri, users: Users, s: Sym)
    requires WellRanked(c, g) && s in g.nodes
    ensures s in c.decls
    ensures var env := EnvOf(c, g, mods, users, s);
      ValueOf(c, g, mods, users, s) == Step(c.decls[s], s, mods, UserOf(users, s), env) && env.Keys == Deps(c, s) &&
      forall t <- env :: t in g.nodes && env[t] == ValOf(t, ValueOf(c, g, mods, users, t))
  {
    hide Step;
  }

  lemma SameLookups(a: Config, b: Config, s: Sym, env: Env, env': Env)
    requires s in a.decls && s in b.decls && a.decls.Keys == b.decls.Keys && Deps(b, s) <= Deps(a, s)
    requires env.Keys == Deps(a, s) && env'.Keys == Deps(b, s) && forall t <- env' :: env'[t] == env[t]
    ensures forall t <- Mentioned(b.decls[s]) :: Lookup(env', t) == Lookup(env, t)
  {
    hide Mentioned;
    forall t | t in Mentioned(b.decls[s]) ensures Lookup(env', t) == Lookup(env, t) {
      if t.Var? && t in b.decls {
        assert t in Deps(b, s);
      }
    }
  }

  /** No select or imply of s loses anything: s is a bool, or all of them are exact. */
  predicate SelectsExact(src: Source, s: Sym, modules: Sym, env: Env) {
    TypeOf(s).Boolean? ||
    ((forall sel <- src.selects :: SelectExact(sel, modules, env)) && (forall sel <- src.implies :: SelectExact(sel, modules, env)))
  }

  lemma {:induction false} DeclareSame(src: Source, s: Sym, modules: Sym, mods: Tri, u: User, env: Env)
    requires WellTyped(env) && ModulesOk(modules) && SourceOk(src) && SelectsExact(src, s, modules, env)
    ensures Step(Declare(src, s, modules, Simplified), s, mods, u, env) ==
            Step(Declare(src, s, modules, AsWritten), s, mods, u, env)
  {
    AllPromptsSame(src.defs, modules, TypeOf(s).Tri3?, env);
    AllDefaultsSame(src.defs, modules, TypeOf(s).Tri3?, env);
    DirDepSame(src.defs, modules, env);
    SelectsSame(src.selects, modules, !TypeOf(s).Boolean?, env);
    SelectsSame(src.implies, modules, !TypeOf(s).Boolean?, env);
    hide SamePrompts, SameDefaults, SameRev, AllPrompts, AllDefaults, RevOf, DirDepOf;
    SameStep(Declare(src, s, modules, Simplified), Declare(src, s, modules, AsWritten), s, mods, u, env);
  }

  /** So everything that was proved about the values of a simplified configuration speaks about the
      configuration as it was written. */
  lemma {:induction false} SimplifiedTruth(sources: map<Sym, Source>, modules: Sym, g: Graph, users: Users, cleared: set<Sym>, s: Sym)
    requires SourcesOk(sources, modules) && WellRanked(ConfigOf(sources, modules, AsWritten), g) && s in g.nodes
    requires AllExact(sources, modules, g, Modules(ConfigOf(sources, modules, AsWritten), g, users), users)
    ensures WellRanked(ConfigOf(sources, modules, Simplified), g)
    ensures True(Context(ConfigOf(sources, modules, Simplified), g, users, cleared), s) ==
            True(Context(ConfigOf(sources, modules, AsWritten), g, users, cleared), s)
  {
    SameGraph(sources, modules, g);
    var a, b := ConfigOf(sources, modules, AsWritten), ConfigOf(sources, modules, Simplified);
    if modules in g.nodes {
      ExactWithoutModules(sources, modules, g, users);
      SimplifiedValues(sources, modules, g, NO, users, modules);
    }
    assert Modules(a, g, users) == Modules(b, g, users);
    SimplifiedValues(sources, modules, g, Modules(a, g, users), users, s);
  }

  // ----- setting a value -----

  /** Some definitions have dependencies, from the entries above or their own, and others have none. */
  predicate Mixed(src: Source, modules: Sym) {
    (exists d <- src.defs :: Base(d, modules, Simplified).None?) && (exists d <- src.defs :: Base(d, modules, Simplified).Some?)
  }

  lemma {:induction false} NoPrompt(base: Dep, conds: seq<Dep>, modules: Sym, tristate: bool, env: Env, acc: Tri)
    requires WellTyped(env) && ModulesOk(modules) && Propagated(base) && EvalDep(base, env) == NO
    requires forall p <- conds :: Writable(p)
    ensures MaxPrompts(Prompts(base, conds, modules, tristate, Simplified), env, acc) == acc
    decreases |conds|
  {
    if conds != [] {
      assert Writable(conds[0]);
      ConditionSound(base, conds[0], modules, tristate, env);
      NoPrompt(base, conds[1..], modules, tristate, env, acc);
    }
  }

  lemma {:induction false} MaxPromptsAppend(a: seq<Dep>, b: seq<Dep>, env: Env, acc: Tri)
    ensures MaxPrompts(a + b, env, acc) == MaxPrompts(b, env, MaxPrompts(a, env, acc))
    decreases |a|
  {
    if a == [] {
      assert a + b == b;
    } else {
      assert (a + b)[0] == a[0] && (a + b)[1..] == a[1..] + b;
      MaxPromptsAppend(a[1..], b, env, Max(acc, EvalDep(a[0], env)));
    }
  }

  // Where all definitions are n, so are all prompts.
  lemma {:induction false} HiddenWithoutDefinitions(defs: seq<Definition>, modules: Sym, tristate: bool, env: Env)
    requires WellTyped(env) && ModulesOk(modules)
    requires forall d <- defs :: DefinitionOk(d) && EvalDep(Base(d, modules, Simplified), env) == NO
    ensures MaxPrompts(AllPrompts(defs, modules, tristate, Simplified), env, NO) == NO
    decreases |defs|
  {
    if defs != [] {
      var d := defs[0];
      assert d in defs;
      BaseSame(d, modules, env);
      NoPrompt(Base(d, modules, Simplified), d.prompts, modules, tristate, env, NO);
      MaxPromptsAppend(Prompts(Base(d, modules, Simplified), d.prompts, modules, tristate, Simplified),
        AllPrompts(defs[1..], modules, tristate, Simplified), env, NO);
      HiddenWithoutDefinitions(defs[1..], modules, tristate, env);
    }
  }

  lemma {:induction false} HighestIsPresent(ds: seq<Dep>, d: Dep, env: Env)
    requires d in ds
    ensures EvalRev(d, env) <= HighestPresent(ds, env)
    decreases |ds|
  {
    var above, last := ds[..|ds| - 1], ds[|ds| - 1];
    assert ds == above + [last];
    if d in above {
      HighestIsPresent(above, d, env);
    }
  }

  /** A symbol is visible only where its direct dependency is not n, unless its definitions are mixed. */
  lemma {:induction false} VisibleNeedsDependency(src: Source, s: Sym, modules: Sym, mods: Tri, env: Env)
    requires WellTyped(env) && ModulesOk(modules) && SourceOk(src) && !Mixed(src, modules)
    ensures var d := Declare(src, s, modules, Simplified);
      VisibleIn(d, s, mods, env) != NO ==> DirDepIn(d, s, mods, env) != NO
  {
    hide Base, MaxPrompts, AllPrompts, HighestPresent, DirDepOf;
    var bases := Bases(src.defs, modules, Simplified);
    DirDepMeans(bases, env);
    if d :| d in src.defs && EvalDep(Base(d, modules, Simplified), env) != NO {
      var i :| 0 <= i < |src.defs| && src.defs[i] == d;
      assert bases[i] in bases;
      HighestIsPresent(bases, bases[i], env);
      forall b | b in bases ensures b.None? <==> bases[i].None? {
        var j :| 0 <= j < |bases| && bases[j] == b;
        assert src.defs[j] in src.defs;
      }
    } else {
      HiddenWithoutDefinitions(src.defs, modules, TypeOf(s).Tri3?, env);
    }
  }

  /** So a value in range that is set sticks, for every symbol whose definitions are not mixed. */
  lemma {:induction false} SettingSticksAsDefined(x: Context, st: State, s: Sym, v: Tri, src: Source)
    requires WellRanked(x.c, x.g) && Sound(x, st) && s in x.g.nodes && IsLogical(s) && At(st, s).valid
    requires WithinRange(x.c, st, s, v)
    requires x.c.decls[s] == Declare(src, s, x.c.modules, Simplified) && ModulesOk(x.c.modules) && SourceOk(src)
    requires !Mixed(src, x.c.modules)
    ensures var r := SetTristate(x.c, st, s, v);
      r.v && At(CalcValue(x.c, ClearAllValid(x.c, r.st), s), s).curr.tri == v
  {
    SettingSticks(x, st, s, v);
    VisibleSurvey(x, s, src);
    assert At(st, s).visible == True(x, s).visible && At(st, s).dirDep == True(x, s).dirDep by {
      assert Records(st, s, True(x, s), x.cleared);
    }
    hide *;
  }

  lemma VisibleSurvey(x: Context, s: Sym, src: Source)
    requires WellRanked(x.c, x.g) && s in x.g.nodes && IsLogical(s)
    requires x.c.decls[s] == Declare(src, s, x.c.modules, Simplified) && ModulesOk(x.c.modules) && SourceOk(src)
    requires !Mixed(src, x.c.modules)
    ensures True(x, s).visible != NO ==> True(x, s).dirDep != NO
  {
    EnvIsTyped(x.c, x.g, Mods(x), x.users, s);
    VisibleNeedsDependency(src, s, x.c.modules, Mods(x), TrueEnv(x, s));
    hide VisibleIn, DirDepIn, DefaultIn, Settle, Declare, Mixed, SourceOk, WellTyped, FirstDefault;
  }

  /** And for such a symbol, while it shows, sym_get_string_default is what sym_calc_value computes
      without a user value. */
  lemma {:induction false} StringDefaultAsDefined(x: Context, s: Sym, src: Source)
    requires WellRanked(x.c, x.g) && s in x.g.nodes && IsLogical(s)
    requires x.c.decls[s] == Declare(src, s, x.c.modules, Simplified) && ModulesOk(x.c.modules) && SourceOk(src)
    requires !Mixed(src, x.c.modules) && True(x, s).visible != NO
    ensures DefaultString(x, s) == TextOf(s, WithoutUser(x, s))
  {
    StringDefaultIsDefault(x, s);
    VisibleSurvey(x, s, src);
    hide *;
  }
}
