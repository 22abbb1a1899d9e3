// How menu_finalize restructures the menu tree (menu.c): automatic submenus and the flattening of
// nodes without a prompt, on trees.
module Menus {

  type Id = nat

  datatype Tree = Tree(id: Id, children: seq<Tree>)

  /** What the restructuring depends on: which nodes stand for a symbol, which have a prompt, and
      whether a node following a symbol belongs into its submenu. The theorems hold for any
      decision. */
  datatype Kind = Kind(sym: Id -> bool, prompt: Id -> bool, takes: (Id, Id) -> bool)

  function Size(f: seq<Tree>): nat {
    if f == [] then 0 else 1 + Size(f[0].children) + Size(f[1..])
  }

  /** The nodes in document order. */
  function Preorder(f: seq<Tree>): seq<Id> {
    if f == [] then [] else [f[0].id] + Preorder(f[0].children) + Preorder(f[1..])
  }

  lemma {:induction false} SizeAppend(a: seq<Tree>, b: seq<Tree>)
    ensures Size(a + b) == Size(a) + Size(b)
  {
    if a == [] {
      assert a + b == b;
    } else {
      assert (a + b)[0] == a[0] && (a + b)[1..] == a[1..] + b;
      SizeAppend(a[1..], b);
    }
  }

  lemma {:induction false} PreorderAppend(a: seq<Tree>, b: seq<Tree>)
    ensures Preorder(a + b) == Preorder(a) + Preorder(b)
  {
    if a == [] {
      assert a + b == b;
    } else {
      assert (a + b)[0] == a[0] && (a + b)[1..] == a[1..] + b;
      PreorderAppend(a[1..], b);
    }
  }

  // ----- menu_finalize -----

  /** The second loop: the children of a node without a prompt become its next siblings. */
  function Flatten(k: Kind, f: seq<Tree>): (r: seq<Tree>)
    ensures Size(r) == Size(f)
    decreases Size(f)
  {
    if f == [] then []
    else
      var t := f[0];
      if t.children != [] && !k.prompt(t.id) then
        SizeAppend(t.children, f[1..]);
        [Tree(t.id, [])] + Flatten(k, t.children + f[1..])
      else [t] + Flatten(k, f[1..])
  }

  datatype Step = Step(t: Tree, rest: seq<Tree>)
  datatype Taken = Taken(f: seq<Tree>, rest: seq<Tree>)

  /** menu_finalize for the node t, of which rest are the next siblings: t restructured, and the
      siblings that are left. */
  function Finalize(k: Kind, t: Tree, rest: seq<Tree>): (r: Step)
    ensures r.t.id == t.id && Size(r.t.children) + Size(r.rest) == Size(t.children) + Size(rest)
    decreases 1 + Size(t.children) + Size(rest), 1
  {
    if t.children != [] then
      Step(Tree(t.id, Flatten(k, FinalizeAll(k, t.children))), rest)
    else if k.sym(t.id) then
      var a := Absorb(k, t.id, rest);
      Step(Tree(t.id, Flatten(k, a.f)), a.rest)
    else Step(t, rest)
  }

  /** The loop over the children: one of them may take its next siblings. */
  function FinalizeAll(k: Kind, f: seq<Tree>): (r: seq<Tree>)
    ensures Size(r) == Size(f)
    decreases Size(f), 2
  {
    if f == [] then []
    else
      var x := Finalize(k, f[0], f[1..]);
      [x.t] + FinalizeAll(k, x.rest)
  }

  /** The loop that collects the submenu of the symbol s. */
  function Absorb(k: Kind, s: Id, rest: seq<Tree>): (r: Taken)
    ensures Size(r.f) + Size(r.rest) == Size(rest)
    decreases Size(rest), 2
  {
    if rest == [] || !k.takes(s, rest[0].id) then Taken([], rest)
    else
      var x := Finalize(k, rest[0], rest[1..]);
      var a := Absorb(k, s, x.rest);
      Taken([x.t] + a.f, a.rest)
  }

  // ----- document order is kept -----

  lemma {:induction false} FlattenKeepsOrder(k: Kind, f: seq<Tree>)
    ensures Preorder(Flatten(k, f)) == Preorder(f)
    decreases Size(f)
  {
    if f != [] {
      var t := f[0];
      if t.children != [] && !k.prompt(t.id) {
        SizeAppend(t.children, f[1..]);
        FlattenKeepsOrder(k, t.children + f[1..]);
        PreorderAppend(t.children, f[1..]);
      } else {
        FlattenKeepsOrder(k, f[1..]);
      }
    }
  }

  /** Finalising a node keeps the order of all nodes, those it takes from its siblings included. */
  lemma {:induction false} FinalizeKeepsOrder(k: Kind, t: Tree, rest: seq<Tree>)
    ensures var x := Finalize(k, t, rest); Preorder([x.t]) + Preorder(x.rest) == Preorder([t]) + Preorder(rest)
    decreases 1 + Size(t.children) + Size(rest), 1
  {
    if t.children != [] {
      FinalizeAllKeepsOrder(k, t.children);
      FlattenKeepsOrder(k, FinalizeAll(k, t.children));
    } else if k.sym(t.id) {
      AbsorbKeepsOrder(k, t.id, rest);
      FlattenKeepsOrder(k, Absorb(k, t.id, rest).f);
    }
  }

  lemma {:induction false} FinalizeAllKeepsOrder(k: Kind, f: seq<Tree>)
    ensures Preorder(FinalizeAll(k, f)) == Preorder(f)
    decreases Size(f), 2
  {
    if f != [] {
      var x := Finalize(k, f[0], f[1..]);
      FinalizeKeepsOrder(k, f[0], f[1..]);
      FinalizeAllKeepsOrder(k, x.rest);
      PreorderCons(f);
      PreorderCons([x.t] + FinalizeAll(k, x.rest));
    }
  }

  lemma {:induction false} AbsorbKeepsOrder(k: Kind, s: Id, rest: seq<Tree>)
    ensures var a := Absorb(k, s, rest); Preorder(a.f) + Preorder(a.rest) == Preorder(rest)
    decreases Size(rest), 2
  {
    if rest != [] && k.takes(s, rest[0].id) {
      var x := Finalize(k, rest[0], rest[1..]);
      FinalizeKeepsOrder(k, rest[0], rest[1..]);
      AbsorbKeepsOrder(k, s, x.rest);
      PreorderCons(rest);
      PreorderCons([x.t] + Absorb(k, s, x.rest).f);
    }
  }

  lemma PreorderCons(f: seq<Tree>)
    requires f != []
    ensures Preorder(f) == Preorder([f[0]]) + Preorder(f[1..])
  {
    assert [f[0]][1..] == [];
  }

  // ----- no node without a prompt keeps children -----

  // Every node with children has a prompt.
  predicate Solid(k: Kind, f: seq<Tree>) {
    f != [] ==> (f[0].children == [] || k.prompt(f[0].id)) && Solid(k, f[0].children) && Solid(k, f[1..])
  }

  // This holds below the roots.
  predicate SolidBelow(k: Kind, f: seq<Tree>) {
    f != [] ==> Solid(k, f[0].children) && SolidBelow(k, f[1..])
  }

  lemma {:induction false} SolidIsBelow(k: Kind, a: seq<Tree>, b: seq<Tree>)
    requires Solid(k, a) && SolidBelow(k, b)
    ensures SolidBelow(k, a + b)
  {
    if a == [] {
      assert a + b == b;
    } else {
      assert (a + b)[0] == a[0] && (a + b)[1..] == a[1..] + b;
      SolidIsBelow(k, a[1..], b);
    }
  }

  lemma {:induction false} FlattenSolidifies(k: Kind, f: seq<Tree>)
    requires SolidBelow(k, f)
    ensures Solid(k, Flatten(k, f))
    decreases Size(f)
  {
    if f != [] {
      var t := f[0];
      if t.children != [] && !k.prompt(t.id) {
        SizeAppend(t.children, f[1..]);
        SolidIsBelow(k, t.children, f[1..]);
        FlattenSolidifies(k, t.children + f[1..]);
      } else {
        FlattenSolidifies(k, f[1..]);
      }
    }
  }

  /** After a node was finalised, every node below it that has children has a prompt. */
  lemma {:induction false} FinalizeSolidifies(k: Kind, t: Tree, rest: seq<Tree>)
    ensures Solid(k, Finalize(k, t, rest).t.children)
    decreases 1 + Size(t.children) + Size(rest), 1
  {
    if t.children != [] {
      FinalizeAllSolidifies(k, t.children);
      FlattenSolidifies(k, FinalizeAll(k, t.children));
    } else if k.sym(t.id) {
      AbsorbSolidifies(k, t.id, rest);
      FlattenSolidifies(k, Absorb(k, t.id, rest).f);
    }
  }

  lemma {:induction false} FinalizeAllSolidifies(k: Kind, f: seq<Tree>)
    ensures SolidBelow(k, FinalizeAll(k, f))
    decreases Size(f), 2
  {
    if f != [] {
      FinalizeSolidifies(k, f[0], f[1..]);
      FinalizeAllSolidifies(k, Finalize(k, f[0], f[1..]).rest);
    }
  }

  lemma {:induction false} AbsorbSolidifies(k: Kind, s: Id, rest: seq<Tree>)
    ensures SolidBelow(k, Absorb(k, s, rest).f)
    decreases Size(rest), 2
  {
    if rest != [] && k.takes(s, rest[0].id) {
      var x := Finalize(k, rest[0], rest[1..]);
      FinalizeSolidifies(k, rest[0], rest[1..]);
      AbsorbSolidifies(k, s, x.rest);
    }
  }

  // ----- the order of the calls -----

  /** The nodes on which menu_finalize is called, in the order of the calls, when it is called on t. */
  function Calls(k: Kind, t: Tree, rest: seq<Tree>): seq<Id>
    decreases 1 + Size(t.children) + Size(rest), 1
  {
    [t.id] +
    if t.children != [] then CallsAll(k, t.children)
    else if k.sym(t.id) then CallsAbsorb(k, t.id, rest)
    else []
  }

  function CallsAll(k: Kind, f: seq<Tree>): seq<Id>
    decreases Size(f), 2
  {
    if f == [] then [] else Calls(k, f[0], f[1..]) + CallsAll(k, Finalize(k, f[0], f[1..]).rest)
  }

  function CallsAbsorb(k: Kind, s: Id, rest: seq<Tree>): seq<Id>
    decreases Size(rest), 2
  {
    if rest == [] || !k.takes(s, rest[0].id) then []
    else Calls(k, rest[0], rest[1..]) + CallsAbsorb(k, s, Finalize(k, rest[0], rest[1..]).rest)
  }

  /** Every node is finalised exactly once, in document order: the calls are the nodes of the new
      tree. */
  lemma {:induction false} CallsAreTheNodes(k: Kind, t: Tree, rest: seq<Tree>)
    ensures Calls(k, t, rest) == Preorder([Finalize(k, t, rest).t])
    decreases 1 + Size(t.children) + Size(rest), 1
  {
    var x := Finalize(k, t, rest);
    if t.children != [] {
      CallsAllAreTheNodes(k, t.children);
      FlattenKeepsOrder(k, FinalizeAll(k, t.children));
    } else if k.sym(t.id) {
      CallsAbsorbAreTheNodes(k, t.id, rest);
      FlattenKeepsOrder(k, Absorb(k, t.id, rest).f);
    }
    assert Preorder([x.t]) == [t.id] + Preorder(x.t.children);
  }

  lemma {:induction false} CallsAllAreTheNodes(k: Kind, f: seq<Tree>)
    ensures CallsAll(k, f) == Preorder(FinalizeAll(k, f))
    decreases Size(f), 2
  {
    if f != [] {
      var x := Finalize(k, f[0], f[1..]);
      CallsAreTheNodes(k, f[0], f[1..]);
      CallsAllAreTheNodes(k, x.rest);
      PreorderCons([x.t] + FinalizeAll(k, x.rest));
    }
  }

  lemma {:induction false} CallsAbsorbAreTheNodes(k: Kind, s: Id, rest: seq<Tree>)
    ensures CallsAbsorb(k, s, rest) == Preorder(Absorb(k, s, rest).f)
    decreases Size(rest), 2
  {
    if rest != [] && k.takes(s, rest[0].id) {
      var x := Finalize(k, rest[0], rest[1..]);
      CallsAreTheNodes(k, rest[0], rest[1..]);
      CallsAbsorbAreTheNodes(k, s, x.rest);
      PreorderCons([x.t] + Absorb(k, s, x.rest).f);
    }
  }
}
