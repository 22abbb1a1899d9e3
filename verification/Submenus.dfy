// Which items menu_finalize puts into the submenu of a symbol (menu.c): its restructuring of the menu
// together with its decisions about dependencies, and the writing of a minimal configuration along
// the finished menu (confdata.c).
module Submenus {
  import opened Tristate
  import opened Expr
  import opened Eliminate
  import opened Transform
  import opened Depends
  import opened Menus
  import O = Origins
  import H = MenuHeap
  import C = Config
  import Kc = Kconfig
  import F = Confdata
  import Mn = Meaning
  import Mi = Minimal
  import S = Setting
  import V = Evaluation
  import Commands

  /** What a menu entry says once dependencies were propagated: its symbol, the condition of its prompt
      and its dependency. */
  datatype Item = Item(sym: Option<Sym>, prompt: Option<Dep>, dep: Dep)

  type Items = map<Id, Item>

  // The condition under which the submenu of a symbol shows, and the one by which items are judged.
  function Base(item: Item): Dep {
    if item.prompt.Some? then item.prompt.value else None
  }

  function Judged(item: Item): Dep {
    if item.prompt.Some? then item.prompt.value else item.dep
  }

  predicate HasSymbol(items: Items, i: Id) {
    i in items && items[i].sym.Some?
  }

  predicate HasPrompt(items: Items, i: Id) {
    i in items && items[i].prompt.Some?
  }

  /** Whether the symbol of p takes the item m into its submenu. */
  predicate Takes(items: Items, p: Id, m: Id) {
    HasSymbol(items, p) && m in items && Belongs(items[p].sym.value, Base(items[p]), Judged(items[m]))
  }

  /** The decisions of menu_finalize. */
  function KindOf(items: Items): Kind {
    Kind((i: Id) => HasSymbol(items, i), (i: Id) => HasPrompt(items, i), (p: Id, m: Id) => Takes(items, p, m))
  }

  predicate ItemOk(item: Item) {
    (item.sym.Some? ==> IsLogical(item.sym.value)) && (item.prompt.Some? ==> Propagated(item.prompt.value)) &&
    Propagated(item.dep)
  }

  // ----- what a submenu holds -----

  /** The siblings that a symbol collects are the next ones, up to the first that it does not take; those
      that another item took in the meantime are skipped. */
  lemma {:induction false} AbsorbTakes(k: Kind, s: Id, rest: seq<Tree>)
    ensures var a := Absorb(k, s, rest);
      (forall t <- a.f :: k.takes(s, t.id)) && (a.rest != [] ==> !k.takes(s, a.rest[0].id))
    decreases Menus.Size(rest)
  {
    if rest != [] && k.takes(s, rest[0].id) {
      AbsorbTakes(k, s, Menus.Finalize(k, rest[0], rest[1..]).rest);
    }
  }

  /** An item at y that the symbol of node s took shows only where the symbol is not n, or else where its
      prompt is visible; an item at m does so too, unless the code takes it to be n. */
  lemma {:induction false} TakenItemShows(items: Items, s: Id, m: Id, env: Env)
    requires WellTyped(env) && Takes(items, s, m) && ItemOk(items[s]) && ItemOk(items[m])
    requires var d := Judged(items[m]); EvalDep(d, env) == YES || (EvalDep(d, env) == MOD && ReadsDep(d, env))
    ensures Lookup(env, items[s].sym.value).tri != NO || EvalDep(Base(items[s]), env) != NO
  {
    SubmenuShows(items[s].sym.value, Base(items[s]), Judged(items[m]), env);
  }

  /** The children that a symbol gets from its siblings are the items it took, exactly if each of these
      that has children in the end has a prompt, so that it keeps them. */
  lemma {:induction false} SubmenuIsTaken(items: Items, t: Tree, rest: seq<Tree>)
    requires t.children == [] && HasSymbol(items, t.id)
    ensures var k := KindOf(items);
      var taken := Absorb(k, t.id, rest).f;
      (forall u <- taken :: Takes(items, t.id, u.id)) &&
      (Menus.Finalize(k, t, rest).t.children == taken <==> forall u <- taken :: u.children == [] || HasPrompt(items, u.id))
  {
    var k := KindOf(items);
    AbsorbTakes(k, t.id, rest);
    O.NothingToFlatten(k, Absorb(k, t.id, rest).f);
  }

  /** This can be seen from the siblings beforehand: it is so if those without a prompt have no children,
      and their symbols do not take the sibling after them. */
  lemma {:induction false} SubmenuOfSiblings(items: Items, t: Tree, rest: seq<Tree>)
    requires t.children == [] && HasSymbol(items, t.id) && O.Tame(KindOf(items), rest)
    ensures var x := Menus.Finalize(KindOf(items), t, rest);
      x.t.children == Absorb(KindOf(items), t.id, rest).f && forall u <- x.t.children :: Takes(items, t.id, u.id)
  {
    O.AbsorbTame(KindOf(items), t.id, rest);
    SubmenuIsTaken(items, t, rest);
  }

  /** A symbol without a prompt takes every item whose dependency mentions it. */
  lemma {:induction false} PromptlessTakesAll(s: Sym, dep: Dep)
    ensures Belongs(s, None, dep) <==> dep.Some? && ContainsSymbol(dep.value, s)
  {
    ReducedYes();
    if dep.Some? {
      YesRemains(Reduced(dep));
    }
    hide Reduced, EliminateEq, ContainsSymbol, DependsSymbol;
  }

  lemma ReducedYes()
    ensures Reduced(None) == Symbol(SYM_YES)
  {
    assert TransCompareDep(None, true, SYM_NO) == Not(Symbol(SYM_NO));
    assert Transform.Transform(Symbol(SYM_NO)) == Symbol(SYM_NO);
    assert Transform.Transform(Not(Symbol(SYM_NO))) == Symbol(SYM_YES);
  }

  lemma {:induction false} YesRemains(e: Expr)
    ensures EliminateEq(e, Symbol(SYM_YES)).e2 == Symbol(SYM_YES)
  {
    if IsJunction(e) {
      YesIsNotRemoved(OpOf(e), e);
    }
    assert FirstPass(e, Symbol(SYM_YES)).e2 == Symbol(SYM_YES);
    assert SecondPass(FirstPass(e, Symbol(SYM_YES)).e1, Symbol(SYM_YES)).e2 == Symbol(SYM_YES);
  }

  lemma {:induction false} YesIsNotRemoved(op: Op, e: Expr)
    ensures EliminateEqual(op, e, Symbol(SYM_YES)).e2 == Symbol(SYM_YES)
    decreases e
  {
    if IsOp(op, e) {
      YesIsNotRemoved(op, e.left);
      YesIsNotRemoved(op, e.right);
    }
  }

  // ----- a submenu with a stranger -----

  /** S with a prompt, P without one depending on S, and an item depending on P || Q. */
  function StrangerItems(s: Sym, p: Sym, q: Sym): Items {
    map[0 := Item(Some(s), Some(None), None), 1 := Item(Some(p), None, Some(Symbol(s))),
        2 := Item(None, Some(Some(Or(Symbol(p), Symbol(q)))), Some(Or(Symbol(p), Symbol(q))))]
  }

  /** S takes P, P takes the item, and as P has no prompt the item moves up into the submenu of S, with
      which it has nothing to do: where S and P are n and Q is y it is y. */
  lemma Stranger(s: Sym, p: Sym, q: Sym)
    requires s.Var? && p.Var? && q.Var? && s.typ.Boolean? && p.typ.Boolean? && q.typ.Boolean?
    requires s != p && s != q && p != q
    ensures var items := StrangerItems(s, p, q);
      var x := Menus.Finalize(KindOf(items), Tree(0, []), [Tree(1, []), Tree(2, [])]);
      x == Step(Tree(0, [Tree(1, []), Tree(2, [])]), []) && !Takes(items, 0, 2)
    ensures var env := map[s := Val(NO, "n"), p := Val(NO, "n"), q := Val(YES, "y")];
      WellTyped(env) && EvalDep(Judged(StrangerItems(s, p, q)[2]), env) == YES && Lookup(env, s).tri == NO
  {
    var items := StrangerItems(s, p, q);
    var k := KindOf(items);
    var both := Or(Symbol(p), Symbol(q));
    PromptlessTakesAll(p, Some(both));
    assert ContainsSymbol(Symbol(p), p) && !ContainsSymbol(Symbol(p), s) && !ContainsSymbol(Symbol(q), s);
    assert Takes(items, 1, 2) && Takes(items, 0, 1) && !Takes(items, 0, 2) by {
      hide EliminateEq, Reduced;
    }
    hide Takes, Belongs;
    var env := map[s := Val(NO, "n"), p := Val(NO, "n"), q := Val(YES, "y")];
    assert Eval(both, env) == YES;
    StrangerTree(k);
  }

  // The restructuring, given these decisions.
  lemma StrangerTree(k: Kind)
    requires k.takes(0, 1) && k.takes(1, 2) && !k.takes(0, 2) && k.sym(0) && k.sym(1) && !k.sym(2) && !k.prompt(1)
    ensures Menus.Finalize(k, Tree(0, []), [Tree(1, []), Tree(2, [])]) == Step(Tree(0, [Tree(1, []), Tree(2, [])]), [])
  {
    var t1, t2 := Tree(1, []), Tree(2, []);
    assert [t2][1..] == [] && [t1, t2][1..] == [t2];
    assert Menus.Finalize(k, t2, []) == Step(t2, []);
    assert Absorb(k, 1, []) == Taken([], []);
    assert Absorb(k, 1, [t2]) == Taken([t2] + [], []);
    assert [t2] + [] == [t2];
    assert Flatten(k, []) == [];
    assert Flatten(k, [t2]) == [t2] + Flatten(k, [t2][1..]);
    assert Menus.Finalize(k, t1, [t2]) == Step(Tree(1, [t2]), []);
    assert Absorb(k, 0, []) == Taken([], []);
    assert Absorb(k, 0, [t1, t2]) == Taken([Tree(1, [t2])] + [], []);
    var u := Tree(1, [t2]);
    assert [u] + [] == [u] && [u][1..] == [] && [t2] + [] == [t2];
    assert Flatten(k, [u]) == [t1] + Flatten(k, [t2]);
  }

  // ----- the whole menu -----

  /** A menu entry as it was written: its symbol, whether this is a choice, the condition of its prompt
      and its dependency. */
  datatype RawItem = RawItem(sym: Option<Sym>, isChoice: bool, prompt: Option<Dep>, dep: Dep)

  type RawItems = map<Id, RawItem>

  predicate RawOk(raw: RawItem) {
    (raw.sym.Some? ==> IsLogical(raw.sym.value)) && (raw.isChoice ==> raw.sym.Some? && raw.prompt.Some?) &&
    (raw.prompt.Some? ==> Writable(raw.prompt.value)) && Writable(raw.dep)
  }

  // What propagation makes of an entry below entries that hand down the dependency above.
  function ItemFor(raw: RawItem, above: Dep, modules: Sym): Item {
    var base := Propagate(above, raw.dep, modules);
    var tristate := raw.sym.None? || TypeOf(raw.sym.value).Tri3?;
    Item(raw.sym,
      if raw.prompt.None? then None else Some(PropagateCondition(base, raw.prompt.value, modules, tristate)), base)
  }

  // What an entry hands down: its dependency, or, if it is a choice, the choice itself.
  function Handed(raw: RawItem, item: Item): Dep {
    if raw.isChoice && raw.sym.Some? then Some(Symbol(raw.sym.value)) else item.dep
  }

  /** What an entry hands down is what the path to it propagates, and its own dependency is the propagated one. */
  lemma HandedIsPath(raw: RawItem, above: seq<Entry>, modules: Sym)
    requires raw.isChoice ==> raw.sym.Some?
    ensures var item := ItemFor(raw, PathDep(above, modules), modules);
      Handed(raw, item) == PathDep(above + [Entry(raw.dep, if raw.isChoice then raw.sym else None)], modules) &&
      item.dep == Propagate(PathDep(above, modules), raw.dep, modules)
  {
    var path := above + [Entry(raw.dep, if raw.isChoice then raw.sym else None)];
    assert path[..|path| - 1] == above;
    hide Propagate, PropagateCondition;
  }

  /** The items are what propagation makes of the entries of f. */
  predicate IsPropagated(raws: RawItems, items: Items, above: Dep, f: seq<Tree>, modules: Sym)
    decreases Menus.Size(f)
  {
    f != [] ==>
      var i := f[0].id;
      i in raws && i in items && RawOk(raws[i]) && items[i] == ItemFor(raws[i], above, modules) &&
      IsPropagated(raws, items, Handed(raws[i], items[i]), f[0].children, modules) &&
      IsPropagated(raws, items, above, f[1..], modules)
  }

  // b is a child of a in f.
  predicate IsChildIn(f: seq<Tree>, a: Id, b: Id)
    decreases Menus.Size(f)
  {
    f != [] &&
    ((f[0].id == a && exists u <- f[0].children :: u.id == b) || IsChildIn(f[0].children, a, b) || IsChildIn(f[1..], a, b))
  }

  function ChildIn(f: seq<Tree>): (Id, Id) -> bool {
    (a: Id, b: Id) => IsChildIn(f, a, b)
  }

  lemma {:induction false} ChildrenAreParsed(all: seq<Tree>, f: seq<Tree>)
    requires forall a, b :: IsChildIn(f, a, b) ==> IsChildIn(all, a, b)
    ensures O.AsParsed(ChildIn(all), f)
    decreases Menus.Size(f)
  {
    if f != [] {
      forall u | u in f[0].children ensures IsChildIn(f, f[0].id, u.id) {
      }
      ChildrenAreParsed(all, f[0].children);
      ChildrenAreParsed(all, f[1..]);
    }
  }

  lemma PropagatedStays(above: Dep, d: Dep, modules: Sym)
    requires Propagated(above) && Writable(d) && (IsLogical(modules) || IsLetter(modules))
    ensures Propagated(Propagate(above, d, modules))
  {
    PropagateKeeps(above, d, modules, DepSyms(above) + DepSyms(RewriteMDep(d, modules)));
  }

  lemma ItemForOk(raw: RawItem, above: Dep, modules: Sym)
    requires RawOk(raw) && Propagated(above) && (IsLogical(modules) || IsLetter(modules))
    ensures ItemOk(ItemFor(raw, above, modules)) && Propagated(Handed(raw, ItemFor(raw, above, modules)))
  {
    var item := ItemFor(raw, above, modules);
    PropagatedStays(above, raw.dep, modules);
    if raw.prompt.Some? {
      var cond, tristate := raw.prompt.value, raw.sym.None? || TypeOf(raw.sym.value).Tri3?;
      PropagateConditionKeeps(item.dep, cond, modules, tristate, DepSyms(item.dep) + DepSyms(RewriteMDep(cond, modules)));
    }
  }

  // No item is more than what is handed down to it.
  lemma {:induction false} ItemForBelow(raw: RawItem, above: Dep, modules: Sym, env: Env)
    requires WellTyped(env) && RawOk(raw) && Propagated(above) && (IsLogical(modules) || IsLetter(modules))
    ensures var item := ItemFor(raw, above, modules);
      EvalDep(item.dep, env) <= EvalDep(above, env) && EvalDep(Judged(item), env) <= EvalDep(above, env)
  {
    var item := ItemFor(raw, above, modules);
    PropagatedStays(above, raw.dep, modules);
    PropagateSound(above, raw.dep, modules, env);
    if raw.prompt.Some? {
      ConditionSound(item.dep, raw.prompt.value, modules, raw.sym.None? || TypeOf(raw.sym.value).Tri3?, env);
    }
  }

  /** Every entry of f is in shape, and no more than what the entry above it hands down. */
  lemma {:induction false} Inherits(raws: RawItems, items: Items, above: Dep, f: seq<Tree>, modules: Sym, a: Id, b: Id, env: Env)
    requires IsPropagated(raws, items, above, f, modules) && IsChildIn(f, a, b)
    requires WellTyped(env) && Propagated(above) && (IsLogical(modules) || IsLetter(modules))
    ensures a in raws && a in items && b in items && ItemOk(items[a]) && ItemOk(items[b]) && RawOk(raws[a])
    ensures items[a].sym == raws[a].sym && items[a].prompt.Some? == raws[a].prompt.Some?
    ensures EvalDep(Judged(items[b]), env) <= EvalDep(Handed(raws[a], items[a]), env)
    decreases Menus.Size(f)
  {
    var i := f[0].id;
    var down := Handed(raws[i], items[i]);
    ItemForOk(raws[i], above, modules);
    if f[0].id == a && exists u <- f[0].children :: u.id == b {
      FirstChild(raws, items, down, f[0].children, modules, b, env);
    } else if IsChildIn(f[0].children, a, b) {
      Inherits(raws, items, down, f[0].children, modules, a, b, env);
    } else {
      Inherits(raws, items, above, f[1..], modules, a, b, env);
    }
  }

  lemma {:induction false} FirstChild(raws: RawItems, items: Items, above: Dep, f: seq<Tree>, modules: Sym, b: Id, env: Env)
    requires IsPropagated(raws, items, above, f, modules) && exists u <- f :: u.id == b
    requires WellTyped(env) && Propagated(above) && (IsLogical(modules) || IsLetter(modules))
    ensures b in items && ItemOk(items[b]) && EvalDep(Judged(items[b]), env) <= EvalDep(above, env)
    decreases |f|
  {
    if f[0].id == b {
      ItemForOk(raws[b], above, modules);
      ItemForBelow(raws[b], above, modules, env);
    } else {
      FirstChild(raws, items, above, f[1..], modules, b, env);
    }
  }

  /** No symbol without a prompt takes an item. */
  ghost predicate Quiet(items: Items) {
    forall p, m :: HasSymbol(items, p) && !HasPrompt(items, p) ==> !Takes(items, p, m)
  }

  /** That is, none is mentioned by what an item is judged by. */
  lemma {:induction false} QuietIs(items: Items)
    ensures Quiet(items) <==>
      forall p, m | HasSymbol(items, p) && !HasPrompt(items, p) && m in items ::
        var d := Judged(items[m]); d.Some? ==> !ContainsSymbol(d.value, items[p].sym.value)
  {
    forall p, m | HasSymbol(items, p) && !HasPrompt(items, p) && m in items
      ensures Takes(items, p, m) <==>
        Judged(items[m]).Some? && ContainsSymbol(Judged(items[m]).value, items[p].sym.value)
    {
      PromptlessTakesAll(items[p].sym.value, Judged(items[m]));
    }
    hide Belongs, ContainsSymbol;
  }

  // Every item that is m is one of which the code notices that it is not n.
  predicate AllNoticed(items: Items, env: Env) {
    forall i <- items :: EvalDep(Judged(items[i]), env) == MOD ==> ReadsDep(Judged(items[i]), env)
  }

  lemma {:induction false} NoticedWithoutMod(items: Items, env: Env)
    requires WellTyped(env) && forall i <- items :: ItemOk(items[i])
    requires forall i <- items :: Judged(items[i]).Some? ==> TwoValuedNots(Judged(items[i]).value, env)
    ensures AllNoticed(items, env)
  {
    forall i | i in items && EvalDep(Judged(items[i]), env) == MOD ensures ReadsDep(Judged(items[i]), env) {
      assert ItemOk(items[i]);
      TwoValuedReads(Judged(items[i]).value, NO, env);
    }
  }

  // The item shows: it is y, or m and nothing goes unnoticed.
  predicate Shows(items: Items, c: Id, env: Env)
    requires c in items
  {
    EvalDep(Judged(items[c]), env) == YES || (EvalDep(Judged(items[c]), env) == MOD && AllNoticed(items, env))
  }

  /** The item c is no more than what the entry a hands down, or else a has a symbol, and c shows only
      where this is not n or its prompt is visible. */
  predicate ShowsBelow(raws: RawItems, items: Items, a: Id, c: Id, env: Env) {
    a in raws && a in items && c in items &&
    (EvalDep(Judged(items[c]), env) <= EvalDep(Handed(raws[a], items[a]), env) ||
      (HasSymbol(items, a) &&
        (Shows(items, c, env) ==> Lookup(env, items[a].sym.value).tri != NO || EvalDep(Base(items[a]), env) != NO)))
  }

  // Along a chain values go down, from its second node on.
  lemma {:induction false} ChainGoesDown(raws: RawItems, items: Items, f: seq<Tree>, modules: Sym, path: seq<Id>, i: nat, env: Env)
    requires IsPropagated(raws, items, None, f, modules) && Quiet(items) && O.IsChain(KindOf(items), ChildIn(f), path)
    requires WellTyped(env) && (IsLogical(modules) || IsLetter(modules)) && 0 < i < |path| && path[1] in items
    ensures path[i] in items && EvalDep(Judged(items[path[i]]), env) <= EvalDep(Judged(items[path[1]]), env)
  {
    if i > 1 {
      ChainGoesDown(raws, items, f, modules, path, i - 1, env);
      var p := path[i - 1];
      assert O.IsStep(KindOf(items), ChildIn(f), p, path[i]) && !HasPrompt(items, p);
      Inherits(raws, items, None, f, modules, p, path[i], env);
    }
  }

  lemma {:induction false} LinkedShows(raws: RawItems, items: Items, f: seq<Tree>, modules: Sym, a: Id, c: Id, env: Env)
    requires IsPropagated(raws, items, None, f, modules) && Quiet(items) && O.Linked(KindOf(items), ChildIn(f), a, c)
    requires WellTyped(env) && (IsLogical(modules) || IsLetter(modules)) && AllInShape(raws, items)
    ensures ShowsBelow(raws, items, a, c, env)
  {
    var path :| O.IsChain(KindOf(items), ChildIn(f), path) && path[0] == a && path[|path| - 1] == c;
    assert O.IsStep(KindOf(items), ChildIn(f), a, path[1]);
    if IsChildIn(f, a, path[1]) {
      Inherits(raws, items, None, f, modules, a, path[1], env);
    }
    ChainGoesDown(raws, items, f, modules, path, |path| - 1, env);
    if !IsChildIn(f, a, path[1]) && Shows(items, c, env) {
      TakenItemShows(items, a, path[1], env);
    }
  }

  predicate AllInShape(raws: RawItems, items: Items) {
    forall i <- items :: i in raws && ItemOk(items[i])
  }

  /** Every entry of f below another one shows only where that one does. */
  ghost predicate AllShow(raws: RawItems, items: Items, f: seq<Tree>, env: Env)
    decreases Menus.Size(f)
  {
    f != [] ==>
      (forall u <- f[0].children :: ShowsBelow(raws, items, f[0].id, u.id, env)) &&
      AllShow(raws, items, f[0].children, env) && AllShow(raws, items, f[1..], env)
  }

  lemma {:induction false} LinkedShow(raws: RawItems, items: Items, all: seq<Tree>, modules: Sym, f: seq<Tree>, env: Env)
    requires IsPropagated(raws, items, None, all, modules) && Quiet(items) && O.AllLinked(KindOf(items), ChildIn(all), f)
    requires WellTyped(env) && (IsLogical(modules) || IsLetter(modules)) && AllInShape(raws, items)
    ensures AllShow(raws, items, f, env)
    decreases Menus.Size(f)
  {
    hide IsPropagated, Quiet, WellTyped, AllInShape, ShowsBelow, O.Linked;
    if f != [] {
      forall u | u in f[0].children ensures ShowsBelow(raws, items, f[0].id, u.id, env) {
        LinkedShows(raws, items, all, modules, f[0].id, u.id, env);
      }
      LinkedShow(raws, items, all, modules, f[0].children, env);
      LinkedShow(raws, items, all, modules, f[1..], env);
    }
  }

  lemma {:induction false} PropagatedInShape(raws: RawItems, items: Items, above: Dep, f: seq<Tree>, modules: Sym, i: Id)
    requires IsPropagated(raws, items, above, f, modules) && i in Preorder(f)
    requires Propagated(above) && (IsLogical(modules) || IsLetter(modules))
    ensures i in raws && i in items && ItemOk(items[i])
    decreases Menus.Size(f)
  {
    var j := f[0].id;
    ItemForOk(raws[j], above, modules);
    if i in Preorder(f[0].children) {
      PropagatedInShape(raws, items, Handed(raws[j], items[j]), f[0].children, modules, i);
    } else if i != j {
      PropagatedInShape(raws, items, above, f[1..], modules, i);
    }
  }

  /** The whole run: where no symbol without a prompt takes an item, every entry in the finished menu,
      wherever it was moved, shows only where the entry above it does, or the symbol that took it. */
  lemma {:induction false} FinishedMenuShows(raws: RawItems, items: Items, t: Tree, modules: Sym, env: Env)
    requires IsPropagated(raws, items, None, [t], modules) && Quiet(items) && forall i <- items :: i in Preorder([t])
    requires WellTyped(env) && (IsLogical(modules) || IsLetter(modules))
    ensures AllShow(raws, items, [Menus.Finalize(KindOf(items), t, []).t], env)
  {
    forall i | i in items ensures i in raws && ItemOk(items[i]) {
      PropagatedInShape(raws, items, None, [t], modules, i);
    }
    ChildrenAreParsed([t], [t]);
    O.FinishedIsLinked(KindOf(items), ChildIn([t]), t);
    LinkedShow(raws, items, [t], modules, [Menus.Finalize(KindOf(items), t, []).t], env);
  }

  // ----- writing along the menu -----

  /** The symbols of menu entries, in order. */
  function SymbolsOf(items: Items, ids: seq<Id>): seq<Sym> {
    if ids == [] then [] else SymbolOf(items, ids[0]) + SymbolsOf(items, ids[1..])
  }

  function SymbolOf(items: Items, i: Id): seq<Sym> {
    if HasSymbol(items, i) then [items[i].sym.value] else []
  }

  /** The menu is finalised with the decisions of menu_finalize, from the root. */
  method FinalizeMenu(items: Items, links: H.Links, root: Id, ghost t: Tree) returns (m: H.Menu, ghost t': Tree)
    requires root == t.id && H.Seg(links, Some(root), [t], None, None) && H.Distinct(Preorder([t]))
    ensures fresh(m) && m.kind == KindOf(items) && t'.id == root && H.Seg(m.L(), Some(root), [t'], None, None)
    ensures Preorder([t']) == Preorder([t]) && m.calls == Preorder([t]) && Solid(KindOf(items), t'.children)
  {
    m := new H.Menu(KindOf(items), links);
    t' := m.FinalizeRoot(root, t);
  }

  /** conf_write_defconfig along the menu: the symbols of the entries are written in the order in which
      the walk meets them. */
  method WriteMenu(k: Kc.Kconfig, m: H.Menu, items: Items, root: Id, ghost f: seq<Tree>) returns (out: string)
    requires H.Seg(m.L(), H.Get(m.list, root), f, Some(root), None)
    requires H.Get(m.next, root) == None && H.Get(m.parent, root) == None
    requires F.AllDeclared(k.config, SymbolsOf(items, Preorder(f)))
    modifies k
    ensures C.Result(k.State(), out) == F.WriteDefconfig(k.config, old(k.State()), SymbolsOf(items, Preorder(f)))
  {
    hide H.Seg, F.WriteDefconfig;
    var visited := m.Walk(root, f);
    var order := SelectSymbols(items, visited);
    out := Commands.WriteDefconfig(k, order);
  }

  lemma Associate(a: seq<Sym>, b: seq<Sym>, c: seq<Sym>)
    ensures a + (b + c) == (a + b) + c
  {
  }

  method SelectSymbols(items: Items, ids: seq<Id>) returns (order: seq<Sym>)
    ensures order == SymbolsOf(items, ids)
  {
    order := [];
    var i := 0;
    assert ids[0..] == ids;
    while i < |ids|
      invariant 0 <= i <= |ids| && order + SymbolsOf(items, ids[i..]) == SymbolsOf(items, ids)
    {
      hide SymbolOf;
      assert ids[i..][0] == ids[i] && ids[i..][1..] == ids[i + 1..];
      Associate(order, SymbolOf(items, ids[i]), SymbolsOf(items, ids[i + 1..]));
      order := order + SymbolOf(items, ids[i]);
      i := i + 1;
    }
    assert order + [] == order;
  }

  // The first occurrences of the symbols that are not in seen.
  function Firsts(order: seq<Sym>, seen: set<Sym>): seq<Sym> {
    if order == [] then []
    else if order[0] in seen then Firsts(order[1..], seen)
    else [order[0]] + Firsts(order[1..], seen + {order[0]})
  }

  lemma {:induction false} FirstsAreAll(order: seq<Sym>, seen: set<Sym>)
    ensures forall s :: s in Firsts(order, seen) <==> s in order && s !in seen
    ensures forall i, j :: 0 <= i < j < |Firsts(order, seen)| ==> Firsts(order, seen)[i] != Firsts(order, seen)[j]
    decreases |order|
  {
    if order != [] {
      FirstsAreAll(order[1..], seen);
      FirstsAreAll(order[1..], seen + {order[0]});
      assert forall s :: s in order <==> s == order[0] || s in order[1..];
    }
  }

  /** The lines of the symbols that are written. */
  ghost function LinesOf(x: V.Context, ss: seq<Sym>): string
    requires Mn.WellRanked(x.c, x.g) && forall s <- ss :: s in x.g.nodes
  {
    if ss == [] then []
    else
      (if Mi.Written(x, ss[0]) then F.SymbolLine(ss[0], Mi.TextOf(ss[0], V.True(x, ss[0]))) else []) +
      LinesOf(x, ss[1..])
  }

  lemma {:induction false} LinesStay(x: V.Context, s: Sym, ss: seq<Sym>)
    requires Mn.WellRanked(x.c, x.g) && s in x.g.nodes && forall t <- ss :: t in x.g.nodes
    ensures LinesOf(F.Visit(x, s), ss) == LinesOf(x, ss)
    decreases |ss|
  {
    hide F.SymbolLine, Mi.Written, V.True;
    if ss != [] {
      F.VisitSameTruth(x, s, ss[0]);
      LinesStay(x, s, ss[1..]);
    }
  }

  /** The text of a minimal configuration has one line for each symbol that is written, at its first
      entry in the menu, however many entries it has. */
  lemma {:induction false} TextIsLines(x: V.Context, order: seq<Sym>)
    requires Mn.WellRanked(x.c, x.g) && forall s <- order :: s in x.g.nodes
    ensures forall s <- Firsts(order, x.cleared) :: s in x.g.nodes
    ensures F.DefconfigText(x, order) == LinesOf(x, Firsts(order, x.cleared))
    decreases |order|
  {
    FirstsAreAll(order, x.cleared);
    hide F.SymbolLine, Mi.Written, V.True;
    if order != [] {
      var s := order[0];
      TextIsLines(F.Visit(x, s), order[1..]);
      var rest := Firsts(order[1..], x.cleared + {s});
      FirstsAreAll(order[1..], x.cleared + {s});
      LinesStay(x, s, rest);
      if s in x.cleared {
        assert x.cleared + {s} == x.cleared;
      } else {
        assert ([s] + rest)[1..] == rest;
      }
    }
  }

  /** What is written along the finished menu: one line for each symbol to be written, in the order of
      the menu as the parser left it. */
  lemma {:induction false} MenuText(x: V.Context, st: C.State, items: Items, t: Tree, t': Tree)
    requires t'.id == t.id && Preorder([t']) == Preorder([t])
    requires Mn.WellRanked(x.c, x.g) && V.UsersAre(x.g, st, x.users) && S.Wired(x.c, st) && x.cleared == {}
    requires var order := SymbolsOf(items, Preorder(t.children));
      F.AllDeclared(x.c, order) && forall s <- order :: s in x.g.nodes
    ensures Preorder(t'.children) == Preorder(t.children)
    ensures var order := SymbolsOf(items, Preorder(t.children));
      (forall s <- Firsts(order, {}) :: s in x.g.nodes) &&
      F.WriteDefconfig(x.c, st, SymbolsOf(items, Preorder(t'.children))).v == LinesOf(x, Firsts(order, {}))
  {
    BelowRoot(t, t');
    var order := SymbolsOf(items, Preorder(t.children));
    F.WriteDefconfigCorrect(x, st, order);
    TextIsLines(x, order);
  }

  lemma BelowRoot(t: Tree, t': Tree)
    requires Preorder([t']) == Preorder([t])
    ensures Preorder(t'.children) == Preorder(t.children)
  {
    assert [t][1..] == [] && [t'][1..] == [];
    assert Preorder([t]) == [t.id] + Preorder(t.children) + [];
    assert Preorder([t']) == [t'.id] + Preorder(t'.children) + [];
    assert Preorder(t.children) == Preorder([t])[1..] && Preorder(t'.children) == Preorder([t'])[1..];
  }
}
