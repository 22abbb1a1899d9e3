// Where the children of a node come from when menu_finalize has restructured the menu (menu.c): from
// the parser, from its own submenu, or by way of nodes without a prompt that were flattened.
module Origins {
  import opened Menus

  /** The steps by which a node gets below another one: the parser put it there, or the symbol of the
      other node took it. */
  predicate IsStep(k: Kind, parsed: (Id, Id) -> bool, a: Id, b: Id) {
    parsed(a, b) || (k.sym(a) && k.takes(a, b))
  }

  /** A chain of such steps, by way of nodes without a prompt only. */
  predicate IsChain(k: Kind, parsed: (Id, Id) -> bool, path: seq<Id>) {
    |path| >= 2 && (forall i | 0 < i < |path| :: IsStep(k, parsed, path[i - 1], path[i])) &&
    (forall i | 0 < i < |path| - 1 :: !k.prompt(path[i]))
  }

  ghost predicate Linked(k: Kind, parsed: (Id, Id) -> bool, a: Id, b: Id) {
    exists path :: IsChain(k, parsed, path) && path[0] == a && path[|path| - 1] == b
  }

  ghost predicate RootsLinked(k: Kind, parsed: (Id, Id) -> bool, s: Id, f: seq<Tree>) {
    forall t <- f :: Linked(k, parsed, s, t.id)
  }

  /** Every node is linked in this way to the node above it. */
  ghost predicate AllLinked(k: Kind, parsed: (Id, Id) -> bool, f: seq<Tree>)
    decreases Size(f)
  {
    f != [] ==>
      RootsLinked(k, parsed, f[0].id, f[0].children) && AllLinked(k, parsed, f[0].children) && AllLinked(k, parsed, f[1..])
  }

  /** The parser put every node where it is. */
  predicate AsParsed(parsed: (Id, Id) -> bool, f: seq<Tree>)
    decreases Size(f)
  {
    f != [] ==>
      (forall u <- f[0].children :: parsed(f[0].id, u.id)) && AsParsed(parsed, f[0].children) && AsParsed(parsed, f[1..])
  }

  lemma OneStep(k: Kind, parsed: (Id, Id) -> bool, a: Id, b: Id)
    requires IsStep(k, parsed, a, b)
    ensures Linked(k, parsed, a, b)
  {
    assert IsChain(k, parsed, [a, b]) && [a, b][1] == b;
  }

  lemma LinkedOn(k: Kind, parsed: (Id, Id) -> bool, a: Id, b: Id, c: Id)
    requires Linked(k, parsed, a, b) && Linked(k, parsed, b, c) && !k.prompt(b)
    ensures Linked(k, parsed, a, c)
  {
    var p :| IsChain(k, parsed, p) && p[0] == a && p[|p| - 1] == b;
    var q :| IsChain(k, parsed, q) && q[0] == b && q[|q| - 1] == c;
    var path := p + q[1..];
    forall i | 0 < i < |path|
      ensures IsStep(k, parsed, path[i - 1], path[i]) && (i < |path| - 1 ==> !k.prompt(path[i]))
    {
      if i >= |p| {
        assert path[i] == q[i - |p| + 1];
      }
    }
    assert path[|path| - 1] == q[|q| - 1];
  }

  lemma {:induction false} ParsedIsLinked(k: Kind, parsed: (Id, Id) -> bool, f: seq<Tree>)
    requires AsParsed(parsed, f)
    ensures AllLinked(k, parsed, f)
    decreases Size(f)
  {
    if f != [] {
      forall u | u in f[0].children ensures Linked(k, parsed, f[0].id, u.id) {
        OneStep(k, parsed, f[0].id, u.id);
      }
      ParsedIsLinked(k, parsed, f[0].children);
      ParsedIsLinked(k, parsed, f[1..]);
    }
  }

  lemma {:induction false} AllLinkedAppend(k: Kind, parsed: (Id, Id) -> bool, a: seq<Tree>, b: seq<Tree>)
    ensures AllLinked(k, parsed, a + b) <==> AllLinked(k, parsed, a) && AllLinked(k, parsed, b)
    decreases |a|
  {
    if a == [] {
      assert a + b == b;
    } else {
      assert (a + b)[0] == a[0] && (a + b)[1..] == a[1..] + b;
      AllLinkedAppend(k, parsed, a[1..], b);
    }
  }

  lemma AllLinkedCons(k: Kind, parsed: (Id, Id) -> bool, t: Tree, f: seq<Tree>)
    ensures AllLinked(k, parsed, [t] + f) <==>
      RootsLinked(k, parsed, t.id, t.children) && AllLinked(k, parsed, t.children) && AllLinked(k, parsed, f)
  {
    assert ([t] + f)[1..] == f;
  }

  // Flattening the children of s.
  lemma {:induction false} FlattenLinks(k: Kind, parsed: (Id, Id) -> bool, s: Id, f: seq<Tree>)
    requires AllLinked(k, parsed, f) && RootsLinked(k, parsed, s, f)
    ensures AllLinked(k, parsed, Flatten(k, f)) && RootsLinked(k, parsed, s, Flatten(k, f))
    decreases Size(f)
  {
    if f != [] {
      var t, rest := f[0], f[1..];
      hide Linked;
      if t.children != [] && !k.prompt(t.id) {
        var more := t.children + rest;
        SizeAppend(t.children, rest);
        AllLinkedAppend(k, parsed, t.children, rest);
        forall u | u in more ensures Linked(k, parsed, s, u.id) {
          if u in t.children {
            LinkedOn(k, parsed, s, t.id, u.id);
          }
        }
        FlattenLinks(k, parsed, s, more);
        AllLinkedCons(k, parsed, Tree(t.id, []), Flatten(k, more));
      } else {
        FlattenLinks(k, parsed, s, rest);
        AllLinkedCons(k, parsed, t, Flatten(k, rest));
      }
    }
  }

  /** Finalising a node keeps every node linked to the one above it; outer is the node above t. */
  lemma {:induction false} FinalizeLinks(k: Kind, parsed: (Id, Id) -> bool, outer: Id, t: Tree, rest: seq<Tree>)
    requires AllLinked(k, parsed, [t] + rest) && RootsLinked(k, parsed, outer, rest)
    ensures var x := Finalize(k, t, rest);
      AllLinked(k, parsed, [x.t] + x.rest) && RootsLinked(k, parsed, outer, x.rest)
    decreases 1 + Size(t.children) + Size(rest), 1
  {
    hide Linked;
    AllLinkedCons(k, parsed, t, rest);
    var x := Finalize(k, t, rest);
    AllLinkedCons(k, parsed, x.t, x.rest);
    if t.children != [] {
      FinalizeAllLinks(k, parsed, t.id, t.children);
      FlattenLinks(k, parsed, t.id, FinalizeAll(k, t.children));
    } else if k.sym(t.id) {
      AbsorbLinks(k, parsed, outer, t.id, rest);
      FlattenLinks(k, parsed, t.id, Absorb(k, t.id, rest).f);
    }
  }

  lemma {:induction false} FinalizeAllLinks(k: Kind, parsed: (Id, Id) -> bool, s: Id, f: seq<Tree>)
    requires AllLinked(k, parsed, f) && RootsLinked(k, parsed, s, f)
    ensures AllLinked(k, parsed, FinalizeAll(k, f)) && RootsLinked(k, parsed, s, FinalizeAll(k, f))
    decreases Size(f), 2
  {
    hide Linked;
    if f != [] {
      var x := Finalize(k, f[0], f[1..]);
      assert [f[0]] + f[1..] == f;
      FinalizeLinks(k, parsed, s, f[0], f[1..]);
      AllLinkedCons(k, parsed, x.t, x.rest);
      FinalizeAllLinks(k, parsed, s, x.rest);
      AllLinkedCons(k, parsed, x.t, FinalizeAll(k, x.rest));
    }
  }

  lemma {:induction false} AbsorbLinks(k: Kind, parsed: (Id, Id) -> bool, outer: Id, s: Id, rest: seq<Tree>)
    requires AllLinked(k, parsed, rest) && RootsLinked(k, parsed, outer, rest) && k.sym(s)
    ensures var a := Absorb(k, s, rest);
      AllLinked(k, parsed, a.f) && RootsLinked(k, parsed, s, a.f) &&
      AllLinked(k, parsed, a.rest) && RootsLinked(k, parsed, outer, a.rest)
    decreases Size(rest), 2
  {
    hide Linked;
    if rest != [] && k.takes(s, rest[0].id) {
      var x := Finalize(k, rest[0], rest[1..]);
      assert [rest[0]] + rest[1..] == rest;
      FinalizeLinks(k, parsed, outer, rest[0], rest[1..]);
      AllLinkedCons(k, parsed, x.t, x.rest);
      AbsorbLinks(k, parsed, outer, s, x.rest);
      AllLinkedCons(k, parsed, x.t, Absorb(k, s, x.rest).f);
      OneStep(k, parsed, s, x.t.id);
    }
  }

  /** In the finished menu every node got below the one above it by a chain of steps by way of nodes
      without a prompt. */
  lemma {:induction false} FinishedIsLinked(k: Kind, parsed: (Id, Id) -> bool, t: Tree)
    requires AsParsed(parsed, [t])
    ensures AllLinked(k, parsed, [Finalize(k, t, []).t])
  {
    hide Linked;
    ParsedIsLinked(k, parsed, [t]);
    assert [t] + [] == [t];
    var x := Finalize(k, t, []);
    FinalizeLinks(k, parsed, t.id, t, []);
    AllLinkedCons(k, parsed, x.t, x.rest);
    AllLinkedCons(k, parsed, x.t, []);
    assert [x.t] + [] == [x.t];
  }

  // ----- what was not flattened -----

  /** Flattening changes nothing exactly where every node with children has a prompt. */
  lemma {:induction false} NothingToFlatten(k: Kind, f: seq<Tree>)
    ensures Flatten(k, f) == f <==> forall t <- f :: t.children == [] || k.prompt(t.id)
    decreases Size(f)
  {
    if f != [] {
      assert f[0] in f;
      if f[0].children == [] || k.prompt(f[0].id) {
        NothingToFlatten(k, f[1..]);
        assert Flatten(k, f) == [f[0]] + Flatten(k, f[1..]) && [f[0]] + f[1..] == f;
        assert Flatten(k, f) == f ==> Flatten(k, f)[1..] == f[1..];
      } else {
        SizeAppend(f[0].children, f[1..]);
        assert Flatten(k, f)[0] == Tree(f[0].id, []);
      }
    }
  }

  // The siblings that are left are the last ones.
  predicate IsSuffix(a: seq<Tree>, b: seq<Tree>) {
    |a| <= |b| && a == b[|b| - |a|..]
  }

  lemma {:induction false} FinalizeSuffix(k: Kind, t: Tree, rest: seq<Tree>)
    ensures IsSuffix(Finalize(k, t, rest).rest, rest)
    decreases 1 + Size(t.children) + Size(rest), 1
  {
    if t.children == [] && k.sym(t.id) {
      AbsorbSuffix(k, t.id, rest);
    }
  }

  lemma {:induction false} AbsorbSuffix(k: Kind, s: Id, rest: seq<Tree>)
    ensures IsSuffix(Absorb(k, s, rest).rest, rest)
    decreases Size(rest), 2
  {
    if rest != [] && k.takes(s, rest[0].id) {
      var x := Finalize(k, rest[0], rest[1..]);
      FinalizeSuffix(k, rest[0], rest[1..]);
      AbsorbSuffix(k, s, x.rest);
    }
  }

  /** Among these siblings the nodes without a prompt have no children, and their symbols do not take the
      sibling after them. */
  predicate Tame(k: Kind, rest: seq<Tree>) {
    forall i | 0 <= i < |rest| && !k.prompt(rest[i].id) ::
      rest[i].children == [] && (k.sym(rest[i].id) && i + 1 < |rest| ==> !k.takes(rest[i].id, rest[i + 1].id))
  }

  /** Then no node that a symbol collects from them needs to be flattened. */
  lemma {:induction false} AbsorbTame(k: Kind, s: Id, rest: seq<Tree>)
    requires Tame(k, rest)
    ensures forall u <- Absorb(k, s, rest).f :: u.children == [] || k.prompt(u.id)
    decreases Size(rest)
  {
    if rest != [] && k.takes(s, rest[0].id) {
      var x := Finalize(k, rest[0], rest[1..]);
      FinalizeSuffix(k, rest[0], rest[1..]);
      TameSuffix(k, x.rest, rest);
      AbsorbTame(k, s, x.rest);
      if !k.prompt(rest[0].id) {
        assert Absorb(k, rest[0].id, rest[1..]).f == [] || !k.sym(rest[0].id);
      }
    }
  }

  lemma TameSuffix(k: Kind, a: seq<Tree>, rest: seq<Tree>)
    requires Tame(k, rest) && rest != [] && IsSuffix(a, rest[1..])
    ensures Tame(k, a)
  {
    var n := |rest| - |a|;
    forall i | 0 <= i < |a| && !k.prompt(a[i].id)
      ensures a[i].children == [] && (k.sym(a[i].id) && i + 1 < |a| ==> !k.takes(a[i].id, a[i + 1].id))
    {
      assert a[i] == rest[i + n];
    }
  }
}
