// menu_finalize and the walk of the config writers on the nodes themselves: next, list and parent
// are fields that the methods relink.
module MenuHeap {
  import opened Tristate
  import opened Menus

  datatype Links = Links(next: map<Id, Option<Id>>, list: map<Id, Option<Id>>, parent: map<Id, Option<Id>>)

  function Get(m: map<Id, Option<Id>>, i: Id): Option<Id> {
    if i in m then m[i] else None
  }

  /** The nodes from first on, linked by next up to end, are the roots of the trees f, and par is their
      parent. */
  ghost predicate Seg(l: Links, first: Option<Id>, f: seq<Tree>, par: Option<Id>, end: Option<Id>)
    decreases Size(f)
  {
    if f == [] then first == end
    else
      var i := f[0].id;
      first == Some(i) && Get(l.parent, i) == par && Seg(l, Get(l.list, i), f[0].children, Some(i), None) &&
      Seg(l, Get(l.next, i), f[1..], par, end)
  }

  predicate Distinct(s: seq<Id>) {
    forall i, j | 0 <= i < j < |s| :: s[i] != s[j]
  }

  predicate Same(l: Links, m: Links, i: Id) {
    Get(l.next, i) == Get(m.next, i) && Get(l.list, i) == Get(m.list, i) && Get(l.parent, i) == Get(m.parent, i)
  }

  /** The nodes of s have the same links in l and m. */
  predicate Agree(l: Links, m: Links, s: seq<Id>) {
    forall i <- s :: Same(l, m, i)
  }

  /** Only the links of nodes of s differ. */
  ghost predicate OnlyIn(l: Links, m: Links, s: seq<Id>) {
    forall i: Id :: i !in s ==> Same(l, m, i)
  }

  function Head(f: seq<Tree>, end: Option<Id>): Option<Id> {
    if f == [] then end else Some(f[0].id)
  }

  lemma {:induction false} SegFrame(l: Links, m: Links, first: Option<Id>, f: seq<Tree>, par: Option<Id>, end: Option<Id>)
    requires Seg(l, first, f, par, end) && Agree(l, m, Preorder(f))
    ensures Seg(m, first, f, par, end)
    decreases Size(f)
  {
    if f != [] {
      assert forall i <- Preorder(f[0].children) + Preorder(f[1..]) :: i in Preorder(f);
      assert f[0].id in Preorder(f);
      SegFrame(l, m, Get(l.list, f[0].id), f[0].children, Some(f[0].id), None);
      SegFrame(l, m, Get(l.next, f[0].id), f[1..], par, end);
    }
  }

  lemma {:induction false} SegAppend(l: Links, first: Option<Id>, a: seq<Tree>, b: seq<Tree>, par: Option<Id>, end: Option<Id>)
    ensures Seg(l, first, a + b, par, end) <==> Seg(l, first, a, par, Head(b, end)) && Seg(l, Head(b, end), b, par, end)
    decreases |a|
  {
    if a == [] {
      assert a + b == b;
    } else {
      assert (a + b)[0] == a[0] && (a + b)[1..] == a[1..] + b;
      SizeAppend(a, b);
      SegAppend(l, Get(l.next, a[0].id), a[1..], b, par, end);
    }
  }

  lemma SegHead(l: Links, first: Option<Id>, f: seq<Tree>, par: Option<Id>, end: Option<Id>)
    requires Seg(l, first, f, par, end)
    ensures first == Head(f, end)
  {
  }

  lemma DistinctParts(a: seq<Id>, b: seq<Id>)
    requires Distinct(a + b)
    ensures Distinct(a) && Distinct(b)
    ensures forall i <- a :: i !in b
  {
    forall i, j | 0 <= i < j < |a| ensures a[i] != a[j] {
      assert (a + b)[i] == a[i] && (a + b)[j] == a[j];
    }
    forall i, j | 0 <= i < j < |b| ensures b[i] != b[j] {
      assert (a + b)[|a| + i] == b[i] && (a + b)[|a| + j] == b[j];
    }
    forall i, j | 0 <= i < |a| && 0 <= j < |b| ensures a[i] != b[j] {
      assert (a + b)[i] == a[i] && (a + b)[|a| + j] == b[j];
    }
  }

  // A segment does not notice changes elsewhere.
  lemma SegElsewhere(l: Links, m: Links, first: Option<Id>, f: seq<Tree>, par: Option<Id>, end: Option<Id>, s: seq<Id>)
    requires Seg(l, first, f, par, end) && OnlyIn(l, m, s) && forall i <- Preorder(f) :: i !in s
    ensures Seg(m, first, f, par, end)
  {
    SegFrame(l, m, first, f, par, end);
  }

  // The last node of a nonempty segment is linked to another end.
  lemma {:induction false} SegRetarget(l: Links, first: Option<Id>, f: seq<Tree>, par: Option<Id>, end: Option<Id>, end': Option<Id>)
    requires f != [] && Seg(l, first, f, par, end) && Distinct(Preorder(f))
    ensures var last := f[|f| - 1].id; Seg(l.(next := l.next[last := end']), first, f, par, end') && Get(l.next, last) == end
    decreases |f|
  {
    var last := f[|f| - 1].id;
    var m := l.(next := l.next[last := end']);
    DistinctParts([f[0].id] + Preorder(f[0].children), Preorder(f[1..]));
    DistinctParts([f[0].id], Preorder(f[0].children));
    if |f| == 1 {
      SegFrame(l, m, Get(l.list, last), f[0].children, Some(last), None);
    } else {
      SegRetarget(l, Get(l.next, f[0].id), f[1..], par, end, end');
      LastInPreorder(f[1..]);
      SegFrame(l, m, Get(l.list, f[0].id), f[0].children, Some(f[0].id), None);
    }
  }

  lemma {:induction false} LastInPreorder(f: seq<Tree>)
    requires f != []
    ensures f[|f| - 1].id in Preorder(f)
  {
    if |f| > 1 {
      LastInPreorder(f[1..]);
    }
  }

  lemma OnlyInTrans(l0: Links, l: Links, m: Links, s: seq<Id>, s': seq<Id>)
    requires OnlyIn(l0, l, s) && OnlyIn(l, m, s') && forall i <- s' :: i in s
    ensures OnlyIn(l0, m, s)
  {
  }

  // What the loops over children and siblings still have to do.
  lemma StepOfAll(k: Kind, done: seq<Tree>, todo: seq<Tree>)
    ensures todo == [] ==> done + FinalizeAll(k, todo) == done
    ensures todo != [] ==>
      var x := Menus.Finalize(k, todo[0], todo[1..]);
      done + FinalizeAll(k, todo) == (done + [x.t]) + FinalizeAll(k, x.rest) &&
      Size(x.rest) < Size(todo) == 1 + Size(todo[0].children) + Size(todo[1..])
  {
  }

  lemma StepOfCallsAll(k: Kind, todo: seq<Tree>, calls: seq<Id>)
    ensures todo == [] ==> calls + CallsAll(k, todo) == calls
    ensures todo != [] ==>
      var x := Menus.Finalize(k, todo[0], todo[1..]);
      calls + CallsAll(k, todo) == (calls + Calls(k, todo[0], todo[1..])) + CallsAll(k, x.rest)
  {
  }

  lemma SizeCons(f: seq<Tree>)
    requires f != []
    ensures Size(f) == 1 + Size(f[0].children) + Size(f[1..])
  {
  }

  lemma StepOfAbsorb(k: Kind, s: Id, done: seq<Tree>, todo: seq<Tree>)
    ensures todo == [] || !k.takes(s, todo[0].id) ==>
      Menus.Absorb(k, s, todo) == Taken([], todo) && done + [] == done
    ensures todo != [] && k.takes(s, todo[0].id) ==>
      var x := Menus.Finalize(k, todo[0], todo[1..]);
      var a, b := Menus.Absorb(k, s, todo), Menus.Absorb(k, s, x.rest);
      done + a.f == (done + [x.t]) + b.f && a.rest == b.rest &&
      Size(x.rest) < Size(todo) == 1 + Size(todo[0].children) + Size(todo[1..])
  {
    if todo != [] && k.takes(s, todo[0].id) {
      var x := Menus.Finalize(k, todo[0], todo[1..]);
      SizeCons(todo);
      assert done + ([x.t] + Menus.Absorb(k, s, x.rest).f) == (done + [x.t]) + Menus.Absorb(k, s, x.rest).f;
    }
  }

  lemma StepOfCallsAbsorb(k: Kind, s: Id, todo: seq<Tree>, calls: seq<Id>)
    ensures todo == [] || !k.takes(s, todo[0].id) ==> calls + CallsAbsorb(k, s, todo) == calls
    ensures todo != [] && k.takes(s, todo[0].id) ==>
      var x := Menus.Finalize(k, todo[0], todo[1..]);
      calls + CallsAbsorb(k, s, todo) == (calls + Calls(k, todo[0], todo[1..])) + CallsAbsorb(k, s, x.rest)
  {
  }

  lemma OnlyInSelf(l: Links, s: seq<Id>)
    ensures OnlyIn(l, l, s)
  {
  }

  lemma OnlyInOutside(l: Links, m: Links, s: seq<Id>, i: Id)
    requires OnlyIn(l, m, s) && i !in s
    ensures Same(l, m, i)
  {
  }

  // A node is finalised together with the siblings that follow it.
  lemma BeforeStep(l: Links, first: Option<Id>, done: seq<Tree>, todo: seq<Tree>, par: Option<Id>)
    requires Seg(l, first, done + todo, par, None) && Distinct(Preorder(done + todo))
    ensures Seg(l, first, done, par, Head(todo, None)) && Seg(l, Head(todo, None), todo, par, None)
    ensures Distinct(Preorder(todo)) && forall i <- Preorder(done) :: i !in Preorder(todo)
    ensures forall i <- Preorder(todo) :: i in Preorder(done + todo)
  {
    PreorderAppend(done, todo);
    DistinctParts(Preorder(done), Preorder(todo));
    SegAppend(l, first, done, todo, par, None);
  }

  lemma AfterStep(k: Kind, l: Links, m: Links, first: Option<Id>, done: seq<Tree>, todo: seq<Tree>, par: Option<Id>)
    requires Seg(l, first, done + todo, par, None) && Distinct(Preorder(done + todo)) && todo != []
    requires var x := Menus.Finalize(k, todo[0], todo[1..]);
      Seg(m, Head(todo, None), [x.t] + x.rest, par, None) && OnlyIn(l, m, Preorder(todo))
    ensures var x := Menus.Finalize(k, todo[0], todo[1..]);
      Seg(m, first, (done + [x.t]) + x.rest, par, None) && Preorder((done + [x.t]) + x.rest) == Preorder(done + todo) &&
      Get(m.next, todo[0].id) == Head(x.rest, None)
  {
    BeforeStep(l, first, done, todo, par);
    var x := Menus.Finalize(k, todo[0], todo[1..]);
    SegElsewhere(l, m, first, done, par, Head(todo, None), Preorder(todo));
    SegAppend(m, first, done, [x.t] + x.rest, par, None);
    OrderOfStep(k, todo);
    PreorderAppend(done, [x.t] + x.rest);
    PreorderAppend(done, todo);
    assert done + ([x.t] + x.rest) == (done + [x.t]) + x.rest;
    assert ([x.t] + x.rest)[1..] == x.rest;
    SegHead(m, Get(m.next, todo[0].id), x.rest, par, None);
  }

  lemma OrderOfStep(k: Kind, todo: seq<Tree>)
    requires todo != []
    ensures var x := Menus.Finalize(k, todo[0], todo[1..]); Preorder([x.t] + x.rest) == Preorder(todo)
  {
    var x := Menus.Finalize(k, todo[0], todo[1..]);
    FinalizeKeepsOrder(k, todo[0], todo[1..]);
    PreorderAppend([x.t], x.rest);
    PreorderCons(todo);
  }

  lemma EmptySeg(l: Links, first: Option<Id>, par: Option<Id>)
    ensures Seg(l, first, [], par, first)
  {
  }

  // What lies in two parts of a list of distinct nodes.
  lemma Parts(done: seq<Tree>, todo: seq<Tree>)
    requires Distinct(Preorder(done + todo))
    ensures Distinct(Preorder(done)) && Distinct(Preorder(todo)) && Preorder(done + todo) == Preorder(done) + Preorder(todo)
    ensures forall i <- Preorder(done) :: i !in Preorder(todo)
    ensures todo != [] ==> todo[0].id in Preorder(todo)
  {
    PreorderAppend(done, todo);
    DistinctParts(Preorder(done), Preorder(todo));
  }

  // A finalised sibling gets the symbol s as its parent.
  lemma AbsorbStep(k: Kind, l: Links, m: Links, first: Option<Id>, done: seq<Tree>, todo: seq<Tree>, s: Option<Id>, par: Option<Id>)
    requires todo != [] && Distinct(Preorder(done + todo)) && Seg(l, first, done, s, Head(todo, None))
    requires var x := Menus.Finalize(k, todo[0], todo[1..]);
      Seg(m, Head(todo, None), [x.t] + x.rest, par, None) && OnlyIn(l, m, Preorder(todo))
    ensures var x := Menus.Finalize(k, todo[0], todo[1..]);
      var n := m.(parent := m.parent[todo[0].id := s]);
      var next := Get(m.next, todo[0].id);
      Seg(n, first, done + [x.t], s, next) && Seg(n, next, x.rest, par, None) && next == Head(x.rest, None) &&
      Preorder((done + [x.t]) + x.rest) == Preorder(done + todo) && OnlyIn(m, n, [todo[0].id])
  {
    hide Menus.Finalize, Distinct, OnlyIn, Seg;
    var x := Menus.Finalize(k, todo[0], todo[1..]);
    Parts(done, todo);
    OrderOfStep(k, todo);
    PreorderAppend(done, [x.t] + x.rest);
    assert done + ([x.t] + x.rest) == (done + [x.t]) + x.rest;
    SegElsewhere(l, m, first, done, s, Some(todo[0].id), Preorder(todo));
    Adopt(m, first, done, x.t, x.rest, s, par);
  }

  lemma Adopt(m: Links, first: Option<Id>, done: seq<Tree>, t: Tree, rest: seq<Tree>, s: Option<Id>, par: Option<Id>)
    requires Distinct(Preorder([t] + rest)) && forall i <- Preorder(done) :: i !in Preorder([t] + rest)
    requires Seg(m, first, done, s, Some(t.id)) && Seg(m, Some(t.id), [t] + rest, par, None)
    ensures var n := m.(parent := m.parent[t.id := s]);
      var next := Get(m.next, t.id);
      Seg(n, first, done + [t], s, next) && Seg(n, next, rest, par, None) && next == Head(rest, None) &&
      OnlyIn(m, n, [t.id])
  {
    var n := m.(parent := m.parent[t.id := s]);
    var next := Get(m.next, t.id);
    NodeParts(t, rest);
    assert ([t] + rest)[1..] == rest;
    SegHead(m, next, rest, par, None);
    SegElsewhere(m, n, next, rest, par, None, [t.id]);
    SegElsewhere(m, n, Get(m.list, t.id), t.children, Some(t.id), None, [t.id]);
    SegElsewhere(m, n, first, done, s, Some(t.id), [t.id]);
    OneSeg(n, t, s, next);
    SegAppend(n, first, done, [t], s, next);
  }

  lemma OneSeg(l: Links, t: Tree, par: Option<Id>, end: Option<Id>)
    requires Get(l.parent, t.id) == par && Get(l.next, t.id) == end
    requires Seg(l, Get(l.list, t.id), t.children, Some(t.id), None)
    ensures Seg(l, Some(t.id), [t], par, end)
  {
  }

  lemma NodeParts(t: Tree, rest: seq<Tree>)
    requires Distinct(Preorder([t] + rest))
    ensures Preorder([t] + rest) == [t.id] + Preorder(t.children) + Preorder(rest)
    ensures Distinct(Preorder(t.children)) && Distinct(Preorder(rest))
    ensures t.id !in Preorder(t.children) && t.id !in Preorder(rest) && forall i <- Preorder(t.children) :: i !in Preorder(rest)
  {
    assert ([t] + rest)[1..] == rest;
    DistinctParts([t.id] + Preorder(t.children), Preorder(rest));
    DistinctParts([t.id], Preorder(t.children));
    assert t.id in [t.id] + Preorder(t.children);
    assert t.id in [t.id];
    assert forall i <- Preorder(t.children) :: i in [t.id] + Preorder(t.children);
  }

  // The siblings collected after p become its list.
  lemma MakeSubmenu(l: Links, m: Links, p: Id, done: seq<Tree>, todo: seq<Tree>, par: Option<Id>)
    requires done != [] && Distinct(Preorder(done + todo)) && p !in Preorder(done + todo)
    requires Seg(l, Get(l.next, p), done, Some(p), Head(todo, None)) && Seg(l, Head(todo, None), todo, par, None)
    requires var last := done[|done| - 1].id;
      m == Links(l.next[p := Get(l.next, last)][last := None], l.list[p := Get(l.next, p)], l.parent)
    ensures Seg(m, Get(m.list, p), done, Some(p), None) && Seg(m, Get(m.next, p), todo, par, None)
    ensures OnlyIn(l, m, [p, done[|done| - 1].id])
  {
    var last := done[|done| - 1].id;
    Parts(done, todo);
    LastInPreorder(done);
    SegRetarget(l, Get(l.next, p), done, Some(p), Head(todo, None), None);
    var l1 := l.(next := l.next[last := None]);
    SegElsewhere(l1, m, Get(l.next, p), done, Some(p), None, [p]);
    SegElsewhere(l, m, Head(todo, None), todo, par, None, [p, last]);
  }

  lemma StepOfFlatten(k: Kind, done: seq<Tree>, todo: seq<Tree>)
    ensures todo == [] ==> done + Menus.Flatten(k, todo) == done
    ensures todo != [] ==>
      var t, rest := todo[0], todo[1..];
      if t.children != [] && !k.prompt(t.id) then
        Size(t.children + rest) < Size(todo) &&
        done + Menus.Flatten(k, todo) == (done + [Tree(t.id, [])]) + Menus.Flatten(k, t.children + rest)
      else Size(rest) < Size(todo) && done + Menus.Flatten(k, todo) == (done + [t]) + Menus.Flatten(k, rest)
  {
    if todo != [] {
      SizeAppend(todo[0].children, todo[1..]);
    }
  }

  lemma SegNode(l: Links, t: Tree, f: seq<Tree>, par: Option<Id>)
    requires f != [] && t == f[0] && Seg(l, Head(f, None), f, par, None)
    ensures Get(l.list, t.id) == Head(t.children, None) && Get(l.next, t.id) == Head(f[1..], None)
  {
    SegHead(l, Get(l.list, t.id), t.children, Some(t.id), None);
    SegHead(l, Get(l.next, t.id), f[1..], par, None);
  }

  // The children of a node, which have p as their parent already, are linked in after it.
  lemma Splice(l0: Links, l: Links, m: Links, i: Id, t: Tree, rest: seq<Tree>, p: Id)
    requires i == t.id && t.children != [] && Seg(l0, Some(i), [t] + rest, Some(p), None) && Distinct(Preorder([t] + rest))
    requires Seg(l, Get(l.list, i), t.children, Some(p), None) && OnlyIn(l0, l, Preorder(t.children)) && Same(l0, l, i)
    requires var last := t.children[|t.children| - 1].id;
      m == Links(l.next[last := Get(l.next, i)][i := Get(l.list, i)], l.list[i := None], l.parent)
    ensures Seg(m, Some(i), [Tree(i, [])] + (t.children + rest), Some(p), None) && OnlyIn(l0, m, Preorder([t] + rest))
  {
    var c, last := t.children, t.children[|t.children| - 1].id;
    NodeParts(t, rest);
    assert ([t] + rest)[1..] == rest;
    LastInPreorder(c);
    SegHead(l0, Get(l0.next, i), rest, Some(p), None);
    SegHead(l, Get(l.list, i), c, Some(p), None);
    SegRetarget(l, Get(l.list, i), c, Some(p), None, Head(rest, None));
    var l1 := l.(next := l.next[last := Head(rest, None)]);
    SegElsewhere(l1, m, Get(l.list, i), c, Some(p), Head(rest, None), [i]);
    SegElsewhere(l0, l, Head(rest, None), rest, Some(p), None, Preorder(c));
    SegElsewhere(l, m, Head(rest, None), rest, Some(p), None, [i, last]);
    SegAppend(m, Get(l.list, i), c, rest, Some(p), None);
    OneSeg(m, Tree(i, []), Some(p), Get(l.list, i));
    assert Head(c + rest, None) == Get(l.list, i);
    SegAppend(m, Some(i), [Tree(i, [])], c + rest, Some(p), None);
  }

  lemma AfterHoist(l: Links, m: Links, first: Option<Id>, done: seq<Tree>, t: Tree, rest: seq<Tree>, par: Option<Id>)
    requires Seg(l, first, done + ([t] + rest), par, None) && Distinct(Preorder(done + ([t] + rest)))
    requires Seg(m, Some(t.id), [Tree(t.id, [])] + (t.children + rest), par, None) && OnlyIn(l, m, Preorder([t] + rest))
    ensures var f := (done + [Tree(t.id, [])]) + (t.children + rest);
      Seg(m, first, f, par, None) && Preorder(f) == Preorder(done + ([t] + rest)) &&
      Get(m.next, t.id) == Head(t.children + rest, None)
  {
    hide Seg, Distinct, OnlyIn;
    var leaf, todo := Tree(t.id, []), t.children + rest;
    BeforeStep(l, first, done, [t] + rest, par);
    SegElsewhere(l, m, first, done, par, Some(t.id), Preorder([t] + rest));
    SegAppend(m, first, done, [leaf] + todo, par, None);
    assert done + ([leaf] + todo) == (done + [leaf]) + todo;
    PreorderAppend(done, [t] + rest);
    PreorderAppend(done, [leaf] + todo);
    SameOrder(t, rest);
    assert ([leaf] + todo)[1..] == todo;
    SegNode(m, leaf, [leaf] + todo, par);
  }

  lemma SameOrder(t: Tree, rest: seq<Tree>)
    ensures Preorder([Tree(t.id, [])] + (t.children + rest)) == Preorder([t] + rest)
  {
    PreorderAppend(t.children, rest);
    assert ([Tree(t.id, [])] + (t.children + rest))[1..] == t.children + rest && ([t] + rest)[1..] == rest;
  }

  // A node is put together from its list and its next siblings.
  lemma Compose(l: Links, m: Links, p: Id, f: seq<Tree>, g: seq<Tree>, rest: seq<Tree>, par: Option<Id>)
    requires Get(l.parent, p) == par && Seg(l, Get(l.next, p), rest, par, None)
    requires Seg(m, Get(m.list, p), g, Some(p), None) && OnlyIn(l, m, Preorder(f))
    requires p !in Preorder(f) && forall i <- Preorder(rest) :: i !in Preorder(f)
    ensures Seg(m, Some(p), [Tree(p, g)] + rest, par, None)
  {
    OnlyInOutside(l, m, Preorder(f), p);
    SegElsewhere(l, m, Get(l.next, p), rest, par, None, Preorder(f));
    assert ([Tree(p, g)] + rest)[1..] == rest;
  }

  // The node t is about to be flattened: f is its list now, and rest' are its next siblings.
  ghost predicate Open(l0: Links, l: Links, t: Tree, rest: seq<Tree>, par: Option<Id>, f: seq<Tree>, rest': seq<Tree>) {
    Get(l.parent, t.id) == par && Seg(l, Get(l.list, t.id), f, Some(t.id), None) && Seg(l, Get(l.next, t.id), rest', par, None) &&
    OnlyIn(l0, l, Preorder([t] + rest)) && Distinct(Preorder([t] + rest)) &&
    Preorder([t] + rest) == [t.id] + Preorder(f) + Preorder(rest')
  }

  lemma OpenNode(l: Links, t: Tree, rest: seq<Tree>, par: Option<Id>)
    requires Seg(l, Some(t.id), [t] + rest, par, None) && Distinct(Preorder([t] + rest))
    ensures Distinct(Preorder(t.children)) && Distinct(Preorder(rest)) && t.id !in Preorder(t.children) && t.id !in Preorder(rest)
    ensures Seg(l, Get(l.list, t.id), t.children, Some(t.id), None) && Seg(l, Get(l.next, t.id), rest, par, None)
    ensures Get(l.list, t.id) == Head(t.children, None)
    ensures Open(l, l, t, rest, par, t.children, rest)
  {
    NodeParts(t, rest);
    assert ([t] + rest)[1..] == rest;
    SegHead(l, Get(l.list, t.id), t.children, Some(t.id), None);
  }

  lemma OpenChildren(k: Kind, l0: Links, l: Links, t: Tree, rest: seq<Tree>, par: Option<Id>)
    requires Open(l0, l0, t, rest, par, t.children, rest)
    requires Seg(l, Get(l.list, t.id), FinalizeAll(k, t.children), Some(t.id), None) && OnlyIn(l0, l, Preorder(t.children))
    ensures Open(l0, l, t, rest, par, FinalizeAll(k, t.children), rest)
  {
    NodeParts(t, rest);
    FinalizeAllKeepsOrder(k, t.children);
    OnlyInOutside(l0, l, Preorder(t.children), t.id);
    SegElsewhere(l0, l, Get(l.next, t.id), rest, par, None, Preorder(t.children));
  }

  lemma OpenAbsorbed(l0: Links, l: Links, t: Tree, rest: seq<Tree>, par: Option<Id>, f: seq<Tree>, rest': seq<Tree>)
    requires Open(l0, l0, t, rest, par, [], rest) && Get(l.parent, t.id) == par
    requires Seg(l, Get(l.list, t.id), f, Some(t.id), None) && Seg(l, Get(l.next, t.id), rest', par, None)
    requires Preorder(f + rest') == Preorder(rest) && OnlyIn(l0, l, [t.id] + Preorder(rest))
    ensures Open(l0, l, t, rest, par, f, rest')
  {
    hide Seg, Distinct, OnlyIn;
    PreorderAppend(f, rest');
    PreorderEmpty([]);
    assert [t.id] + [] == [t.id];
    assert [t.id] + (Preorder(f) + Preorder(rest')) == [t.id] + Preorder(f) + Preorder(rest');
    OnlyInSelf(l0, Preorder([t] + rest));
    OnlyInTrans(l0, l0, l, Preorder([t] + rest), [t.id] + Preorder(rest));
  }

  lemma OpenFacts(l0: Links, l: Links, t: Tree, rest: seq<Tree>, par: Option<Id>, f: seq<Tree>, rest': seq<Tree>)
    requires Open(l0, l, t, rest, par, f, rest')
    ensures Get(l.parent, t.id) == par && Seg(l, Get(l.list, t.id), f, Some(t.id), None) && Seg(l, Get(l.next, t.id), rest', par, None)
    ensures Distinct(Preorder(f)) && t.id !in Preorder(f) && forall i <- Preorder(rest') :: i !in Preorder(f)
    ensures OnlyIn(l0, l, Preorder([t] + rest)) && forall i <- Preorder(f) :: i in Preorder([t] + rest)
  {
    var g := [t.id] + Preorder(f);
    DistinctParts(g, Preorder(rest'));
    DistinctParts([t.id], Preorder(f));
    assert t.id in [t.id];
    assert forall i <- Preorder(f) :: i in g;
  }

  // What menu_finalize does with a node.
  lemma FinalizeCases(k: Kind, t: Tree, rest: seq<Tree>)
    ensures
      var x := Menus.Finalize(k, t, rest);
      if t.children != [] then x == Step(Tree(t.id, Menus.Flatten(k, FinalizeAll(k, t.children))), rest)
      else if k.sym(t.id) then
        var a := Menus.Absorb(k, t.id, rest);
        x == Step(Tree(t.id, Menus.Flatten(k, a.f)), a.rest)
      else x == Step(Tree(t.id, Menus.Flatten(k, [])), rest)
  {
    hide FinalizeAll, Menus.Absorb;
  }

  // The calls it makes.
  lemma CallsCases(k: Kind, t: Tree, rest: seq<Tree>, calls: seq<Id>)
    ensures t.children != [] ==> calls + Calls(k, t, rest) == (calls + [t.id]) + CallsAll(k, t.children)
    ensures t.children == [] ==>
      calls + Calls(k, t, rest) == (calls + [t.id]) + (if k.sym(t.id) then CallsAbsorb(k, t.id, rest) else [])
  {
    hide CallsAll, CallsAbsorb;
    Associate(calls, [t.id], CallsAll(k, t.children));
    Associate(calls, [t.id], CallsAbsorb(k, t.id, rest));
    assert [t.id] + [] == [t.id];
  }

  lemma Associate(a: seq<Id>, b: seq<Id>, c: seq<Id>)
    ensures a + (b + c) == (a + b) + c && b + [] == b
  {
  }

  // Without next siblings, the node keeps all nodes.
  lemma NothingLeft(k: Kind, t: Tree)
    ensures var x := Menus.Finalize(k, t, []);
      x.rest == [] && Preorder([x.t]) == Preorder([t]) && Calls(k, t, []) == Preorder([t]) && Solid(k, x.t.children)
  {
    var x := Menus.Finalize(k, t, []);
    FinalizeKeepsOrder(k, t, []);
    FinalizeSolidifies(k, t, []);
    CallsAreTheNodes(k, t, []);
    assert Preorder([x.t]) + Preorder([]) == Preorder([x.t]) && Preorder([t]) + Preorder([]) == Preorder([t]);
    assert x.rest == [] by {
      if t.children == [] && k.sym(t.id) {
        assert Menus.Absorb(k, t.id, []) == Taken([], []);
      }
    }
  }

  // ----- the walk -----

  // An ancestor of the place of the walk, and its next siblings.
  datatype Frame = Frame(id: Id, rest: seq<Tree>)

  /** par and the nodes of the stack are the ancestors of the place, up to the root. */
  ghost predicate Context(l: Links, root: Id, par: Option<Id>, stack: seq<Frame>)
    decreases |stack|
  {
    if stack == [] then par == Some(root) && Get(l.next, root) == None && Get(l.parent, root) == None
    else
      var i := stack[0].id;
      par == Some(i) && Seg(l, Get(l.next, i), stack[0].rest, Get(l.parent, i), None) &&
      Context(l, root, Get(l.parent, i), stack[1..])
  }

  // The nodes that follow the ancestors.
  function Todo(stack: seq<Frame>): seq<Id> {
    if stack == [] then [] else Preorder(stack[0].rest) + Todo(stack[1..])
  }

  // The first node of g is visited; what is left lies below it, and after it.
  lemma VisitNode(visited: seq<Id>, g: seq<Tree>, stack: seq<Frame>)
    requires g != []
    ensures var t, rest := g[0], g[1..];
      visited + (Preorder(g) + Todo(stack)) ==
        (visited + [t.id]) + (Preorder(t.children) + Todo([Frame(t.id, rest)] + stack))
    ensures var t, rest := g[0], g[1..];
      t.children == [] ==>
        visited + (Preorder(g) + Todo(stack)) == (visited + [t.id]) + (Preorder(rest) + Todo(stack)) &&
        (rest == [] ==> Preorder(rest) + Todo(stack) == Todo(stack))
    ensures |Preorder(g)| > 0
  {
    var t, rest := g[0], g[1..];
    assert ([Frame(t.id, rest)] + stack)[1..] == stack;
    assert Preorder(g) == [t.id] + Preorder(t.children) + Preorder(rest);
  }

  lemma DescendContext(l: Links, root: Id, g: seq<Tree>, par: Option<Id>, stack: seq<Frame>)
    requires g != [] && Seg(l, Head(g, None), g, par, None) && Context(l, root, par, stack)
    ensures var t, rest := g[0], g[1..];
      Context(l, root, Some(t.id), [Frame(t.id, rest)] + stack) && Get(l.parent, t.id) == par &&
      Seg(l, Get(l.list, t.id), t.children, Some(t.id), None) && Seg(l, Get(l.next, t.id), rest, par, None)
  {
    assert ([Frame(g[0].id, g[1..])] + stack)[1..] == stack;
  }

  lemma StartContext(l: Links, root: Id)
    ensures Todo([]) == []
    ensures Get(l.next, root) == None && Get(l.parent, root) == None ==> Context(l, root, Some(root), [])
  {
  }

  lemma PreorderEmpty(f: seq<Tree>)
    ensures f == [] ==> Preorder(f) == []
  {
  }

  // ----- menu_finalize -----

  class Menu {
    const kind: Kind
    var next: map<Id, Option<Id>>
    var list: map<Id, Option<Id>>
    var parent: map<Id, Option<Id>>
    ghost var calls: seq<Id>

    constructor (kind: Kind, links: Links)
      ensures this.kind == kind && L() == links && calls == []
    {
      this.kind := kind;
      next, list, parent := links.next, links.list, links.parent;
      calls := [];
    }

    function L(): Links
      reads this
    {
      Links(next, list, parent)
    }

    /** The node p, the root of t, is finalised; its next siblings, the roots of rest, may become its
        children. */
    method Finalize(p: Id, ghost t: Tree, ghost rest: seq<Tree>, ghost par: Option<Id>)
      requires p == t.id && Seg(L(), Some(p), [t] + rest, par, None) && Distinct(Preorder([t] + rest))
      modifies this
      ensures var x := Menus.Finalize(kind, t, rest);
        Seg(L(), Some(p), [x.t] + x.rest, par, None)
      ensures OnlyIn(old(L()), L(), Preorder([t] + rest))
      ensures calls == old(calls) + Calls(kind, t, rest)
      decreases 1 + Size(t.children) + Size(rest), 0
    {
      hide OnlyIn, Distinct, Seg, Open, Menus.Finalize, FinalizeAll, Menus.Absorb, Menus.Flatten;
      hide Calls, CallsAll, CallsAbsorb, Preorder, Size;
      OpenNode(L(), t, rest, par);
      FinalizeCases(kind, t, rest);
      CallsCases(kind, t, rest, calls);
      Associate(calls, [p], []);
      ghost var l0 := L();
      calls := calls + [p];
      ghost var f: seq<Tree>, rest': seq<Tree> := [], rest;
      if Get(list, p).Some? {
        FinalizeChildren(p, t.children);
        f := FinalizeAll(kind, t.children);
        OpenChildren(kind, l0, L(), t, rest, par);
      } else if kind.sym(p) {
        Absorb(p, rest, par);
        f, rest' := Menus.Absorb(kind, p, rest).f, Menus.Absorb(kind, p, rest).rest;
        OpenAbsorbed(l0, L(), t, rest, par, f, rest');
      }
      ghost var l := L();
      OpenFacts(l0, l, t, rest, par, f, rest');
      Flatten(p, f);
      Compose(l, L(), p, f, Menus.Flatten(kind, f), rest', par);
      OnlyInTrans(l0, l, L(), Preorder([t] + rest), Preorder(f));
    }

    method FinalizeChildren(p: Id, ghost f: seq<Tree>)
      requires f != [] && Seg(L(), Get(list, p), f, Some(p), None) && Distinct(Preorder(f)) && p !in Preorder(f)
      modifies this
      ensures Seg(L(), Get(list, p), FinalizeAll(kind, f), Some(p), None)
      ensures OnlyIn(old(L()), L(), Preorder(f))
      ensures calls == old(calls) + CallsAll(kind, f)
      decreases Size(f), 2
    {
      hide Seg, OnlyIn, Distinct, Menus.Finalize, Preorder, FinalizeAll, CallsAll, Size;
      ghost var done: seq<Tree>, todo: seq<Tree> := [], f;
      ghost var l0 := L();
      assert [] + f == f;
      SegHead(L(), Get(list, p), f, Some(p), None);
      OnlyInSelf(l0, Preorder(f));
      assert FinalizeAll(kind, f) == [] + FinalizeAll(kind, f);
      var menu := Get(list, p);
      while menu.Some?
        invariant menu == Head(todo, None) && Seg(L(), Get(list, p), done + todo, Some(p), None)
        invariant FinalizeAll(kind, f) == done + FinalizeAll(kind, todo)
        invariant Preorder(done + todo) == Preorder(f)
        invariant OnlyIn(l0, L(), Preorder(f))
        invariant calls + CallsAll(kind, todo) == old(calls) + CallsAll(kind, f)
        invariant Size(todo) <= Size(f)
        decreases Size(todo)
      {
        ghost var l := L();
        ghost var t, rest := todo[0], todo[1..];
        ghost var x := Menus.Finalize(kind, t, rest);
        BeforeStep(l, Get(list, p), done, todo, Some(p));
        StepOfAll(kind, done, todo);
        StepOfCallsAll(kind, todo, calls);
        assert [t] + rest == todo;
        Finalize(menu.value, t, rest, Some(p));
        OnlyInTrans(l0, l, L(), Preorder(f), Preorder(todo));
        OnlyInOutside(l, L(), Preorder(todo), p);
        AfterStep(kind, l, L(), Get(list, p), done, todo, Some(p));
        done, todo := done + [x.t], x.rest;
        menu := Get(next, menu.value);
      }
      StepOfAll(kind, done, todo);
      StepOfCallsAll(kind, todo, calls);
      assert done + [] == done;
    }

    // The loop over the siblings after a symbol: those that belong to it are finalised and get it as
    // their parent, but stay where they are.
    method Collect(p: Id, ghost rest: seq<Tree>, ghost par: Option<Id>) returns (last: Option<Id>)
      requires Seg(L(), Get(next, p), rest, par, None) && Distinct(Preorder(rest)) && p !in Preorder(rest)
      modifies this
      ensures var a := Menus.Absorb(kind, p, rest);
        Seg(L(), Get(next, p), a.f, Some(p), Head(a.rest, None)) && Seg(L(), Head(a.rest, None), a.rest, par, None) &&
        Preorder(a.f + a.rest) == Preorder(rest) && last == if a.f == [] then None else Some(a.f[|a.f| - 1].id)
      ensures OnlyIn(old(L()), L(), Preorder(rest))
      ensures calls == old(calls) + CallsAbsorb(kind, p, rest)
      decreases Size(rest), 2
    {
      hide Seg, OnlyIn, Distinct, Menus.Finalize, Menus.Absorb, Preorder, CallsAbsorb, Size;
      ghost var done: seq<Tree>, todo: seq<Tree> := [], rest;
      ghost var l0 := L();
      assert [] + rest == rest;
      SegHead(L(), Get(next, p), rest, par, None);
      OnlyInSelf(l0, Preorder(rest));
      EmptySeg(l0, Get(next, p), Some(p));
      assert Menus.Absorb(kind, p, rest).f == [] + Menus.Absorb(kind, p, rest).f;
      ghost var first := Get(next, p);
      last := None;
      var menu := Get(next, p);
      while menu.Some? && kind.takes(p, menu.value)
        invariant menu == Head(todo, None) && Seg(L(), menu, todo, par, None)
        invariant Get(next, p) == first && Seg(L(), first, done, Some(p), menu)
        invariant last == if done == [] then None else Some(done[|done| - 1].id)
        invariant Menus.Absorb(kind, p, rest).f == done + Menus.Absorb(kind, p, todo).f
        invariant Menus.Absorb(kind, p, rest).rest == Menus.Absorb(kind, p, todo).rest
        invariant Preorder(done + todo) == Preorder(rest)
        invariant OnlyIn(l0, L(), Preorder(rest))
        invariant calls + CallsAbsorb(kind, p, todo) == old(calls) + CallsAbsorb(kind, p, rest)
        invariant Size(todo) <= Size(rest)
        decreases Size(todo)
      {
        ghost var l := L();
        ghost var x := Menus.Finalize(kind, todo[0], todo[1..]);
        Parts(done, todo);
        StepOfAbsorb(kind, p, done, todo);
        StepOfCallsAbsorb(kind, p, todo, calls);
        TakeOne(p, menu.value, first, done, todo, par);
        OnlyInTrans(l0, l, L(), Preorder(rest), Preorder(todo));
        OnlyInOutside(l0, L(), Preorder(rest), p);
        last := menu;
        done, todo := done + [x.t], x.rest;
        menu := Get(next, menu.value);
      }
      StepOfAbsorb(kind, p, done, todo);
      StepOfCallsAbsorb(kind, p, todo, calls);
    }

    // One sibling is finalised and gets p as its parent.
    method TakeOne(p: Id, menu: Id, ghost first: Option<Id>, ghost done: seq<Tree>, ghost todo: seq<Tree>, ghost par: Option<Id>)
      requires todo != [] && menu == todo[0].id && Distinct(Preorder(done + todo))
      requires Seg(L(), first, done, Some(p), Some(menu)) && Seg(L(), Some(menu), todo, par, None)
      modifies this
      ensures var x := Menus.Finalize(kind, todo[0], todo[1..]);
        var after := Get(next, menu);
        Seg(L(), first, done + [x.t], Some(p), after) && Seg(L(), after, x.rest, par, None) && after == Head(x.rest, None) &&
        Preorder((done + [x.t]) + x.rest) == Preorder(done + todo)
      ensures OnlyIn(old(L()), L(), Preorder(todo))
      ensures calls == old(calls) + Calls(kind, todo[0], todo[1..])
      decreases Size(todo), 1
    {
      hide Seg, OnlyIn, Distinct, Menus.Finalize, Preorder, Calls, Size;
      ghost var l := L();
      Parts(done, todo);
      SizeCons(todo);
      assert [todo[0]] + todo[1..] == todo;
      Finalize(menu, todo[0], todo[1..], par);
      ghost var m := L();
      parent := parent[menu := Some(p)];
      AbsorbStep(kind, l, m, first, done, todo, Some(p), par);
      OnlyInTrans(l, m, L(), Preorder(todo), [menu]);
    }

    // The making of the submenu.
    method Absorb(p: Id, ghost rest: seq<Tree>, ghost par: Option<Id>)
      requires Seg(L(), Get(next, p), rest, par, None) && Distinct(Preorder(rest)) && p !in Preorder(rest)
      requires Get(list, p) == None
      modifies this
      ensures var a := Menus.Absorb(kind, p, rest);
        Seg(L(), Get(list, p), a.f, Some(p), None) && Seg(L(), Get(next, p), a.rest, par, None) &&
        Preorder(a.f + a.rest) == Preorder(rest)
      ensures Get(parent, p) == old(Get(parent, p))
      ensures OnlyIn(old(L()), L(), [p] + Preorder(rest))
      ensures calls == old(calls) + CallsAbsorb(kind, p, rest)
      decreases Size(rest), 3
    {
      hide Seg, OnlyIn, Distinct, Menus.Absorb, Preorder, CallsAbsorb, Size;
      ghost var l0, a := L(), Menus.Absorb(kind, p, rest);
      var last := Collect(p, rest, par);
      ghost var l := L();
      OnlyInOutside(l0, l, Preorder(rest), p);
      OnlyInSelf(l0, [p] + Preorder(rest));
      OnlyInTrans(l0, l0, l, [p] + Preorder(rest), Preorder(rest));
      if last.Some? {
        Parts(a.f, a.rest);
        next, list := next[p := Get(next, last.value)][last.value := None], list[p := Get(next, p)];
        MakeSubmenu(l, L(), p, a.f, a.rest, par);
        LastInPreorder(a.f);
        OnlyInTrans(l0, l, L(), [p] + Preorder(rest), [p, last.value]);
      } else {
        SegHead(l, Get(next, p), a.f, Some(p), Head(a.rest, None));
        EmptySeg(l, None, Some(p));
      }
    }

    // The children of menu get p as their parent; the result is the last of them.
    method AdoptChildren(menu: Id, p: Id, ghost f: seq<Tree>) returns (last: Id)
      requires f != [] && Seg(L(), Get(list, menu), f, Some(menu), None) && Distinct(Preorder(f))
      modifies this`parent
      ensures Seg(L(), Get(list, menu), f, Some(p), None) && last == f[|f| - 1].id
      ensures OnlyIn(old(L()), L(), Preorder(f))
    {
      hide Seg, OnlyIn, Distinct, Preorder;
      ghost var l0, first := L(), Get(list, menu);
      ghost var done: seq<Tree>, todo := [], f;
      SegHead(L(), first, f, Some(menu), None);
      EmptySeg(l0, first, Some(p));
      OnlyInSelf(l0, Preorder(f));
      assert [] + f == f;
      last := Get(list, menu).value;
      while true
        invariant f == done + todo && todo != [] && last == todo[0].id
        invariant Seg(L(), first, done, Some(p), Some(last)) && Seg(L(), Some(last), todo, Some(menu), None)
        invariant OnlyIn(l0, L(), Preorder(f))
        decreases |todo|
      {
        ghost var l := L();
        Parts(done, todo);
        assert [todo[0]] + todo[1..] == todo;
        parent := parent[last := Some(p)];
        Adopt(l, first, done, todo[0], todo[1..], Some(p), Some(menu));
        OnlyInTrans(l0, l, L(), Preorder(f), [last]);
        assert done + todo == (done + [todo[0]]) + todo[1..];
        done, todo := done + [todo[0]], todo[1..];
        if Get(next, last) == None {
          break;
        }
        last := Get(next, last).value;
      }
      assert todo == [];
      assert done == f;
    }

    // A node without a prompt: its children become its next siblings.
    method Hoist(menu: Id, p: Id, ghost t: Tree, ghost rest: seq<Tree>)
      requires menu == t.id && t.children != [] && Seg(L(), Some(menu), [t] + rest, Some(p), None)
      requires Distinct(Preorder([t] + rest))
      modifies this`next, this`list, this`parent
      ensures Seg(L(), Some(menu), [Tree(menu, [])] + (t.children + rest), Some(p), None)
      ensures OnlyIn(old(L()), L(), Preorder([t] + rest))
    {
      ghost var l0 := L();
      NodeParts(t, rest);
      assert ([t] + rest)[1..] == rest;
      hide OnlyIn, Distinct, Preorder;
      var last := AdoptChildren(menu, p, t.children);
      ghost var l := L();
      OnlyInOutside(l0, l, Preorder(t.children), menu);
      next, list := next[last := Get(next, menu)][menu := Get(list, menu)], list[menu := None];
      Splice(l0, l, L(), menu, t, rest, p);
    }

    // The loop over the children of p that flattens nodes without a prompt.
    method Flatten(p: Id, ghost f: seq<Tree>)
      requires Seg(L(), Get(list, p), f, Some(p), None) && Distinct(Preorder(f)) && p !in Preorder(f)
      modifies this`next, this`list, this`parent
      ensures Seg(L(), Get(list, p), Menus.Flatten(kind, f), Some(p), None)
      ensures OnlyIn(old(L()), L(), Preorder(f))
    {
      hide Seg, OnlyIn, Distinct, Preorder, Menus.Flatten, Size;
      ghost var l0 := L();
      ghost var done: seq<Tree>, todo: seq<Tree> := [], f;
      assert [] + f == f && [] + Menus.Flatten(kind, f) == Menus.Flatten(kind, f);
      SegHead(L(), Get(list, p), f, Some(p), None);
      OnlyInSelf(l0, Preorder(f));
      var menu := Get(list, p);
      while menu.Some?
        invariant menu == Head(todo, None) && Seg(L(), Get(list, p), done + todo, Some(p), None)
        invariant Menus.Flatten(kind, f) == done + Menus.Flatten(kind, todo)
        invariant Preorder(done + todo) == Preorder(f) && OnlyIn(l0, L(), Preorder(f))
        decreases Size(todo)
      {
        ghost var l := L();
        ghost var t, rest := todo[0], todo[1..];
        BeforeStep(l, Get(list, p), done, todo, Some(p));
        StepOfFlatten(kind, done, todo);
        SegNode(l, t, todo, Some(p));
        assert [t] + rest == todo;
        if Get(list, menu.value).Some? && !kind.prompt(menu.value) {
          Hoist(menu.value, p, t, rest);
          OnlyInTrans(l0, l, L(), Preorder(f), Preorder(todo));
          OnlyInOutside(l, L(), Preorder(todo), p);
          AfterHoist(l, L(), Get(list, p), done, t, rest, Some(p));
          done, todo := done + [Tree(t.id, [])], t.children + rest;
        } else {
          assert done + todo == (done + [t]) + rest;
          done, todo := done + [t], rest;
        }
        menu := Get(next, menu.value);
      }
      StepOfFlatten(kind, done, todo);
      assert done + [] == done;
    }

    /** menu_finalize on the root menu: the nodes keep their order, every link agrees with the new
        tree, a node below the root has children only if it has a prompt, and every node was
        finalised exactly once, in document order. */
    method FinalizeRoot(root: Id, ghost t: Tree) returns (ghost t': Tree)
      requires root == t.id && Seg(L(), Some(root), [t], None, None) && Distinct(Preorder([t])) && calls == []
      modifies this
      ensures t'.id == root && Seg(L(), Some(root), [t'], None, None)
      ensures Preorder([t']) == Preorder([t]) && calls == Preorder([t]) && Solid(kind, t'.children)
    {
      hide Seg, Distinct, Preorder, Calls;
      assert [t] + [] == [t];
      t' := Menus.Finalize(kind, t, []).t;
      Finalize(root, t, [], None);
      NothingLeft(kind, t);
      assert [t'] + [] == [t'];
    }

    // From a node without children and next siblings, up to the next sibling of one of its ancestors.
    method Climb(start: Id, root: Id, ghost par: Option<Id>, ghost stack: seq<Frame>)
      returns (menu: Option<Id>, ghost g: seq<Tree>, ghost par': Option<Id>, ghost stack': seq<Frame>)
      requires Get(parent, start) == par && Context(L(), root, par, stack)
      ensures Preorder(g) + Todo(stack') == Todo(stack) && menu == Head(g, None)
      ensures menu.Some? ==> Seg(L(), menu, g, par', None) && Context(L(), root, par', stack')
      ensures menu == None ==> stack' == []
    {
      hide Seg, Preorder;
      menu := Get(parent, start);
      par', stack' := par, stack;
      while menu.Some?
        invariant menu.Some? ==> menu == par' && Context(L(), root, par', stack') && Todo(stack') == Todo(stack)
        invariant menu == None ==> stack' == [] && Todo(stack) == []
        decreases if menu.Some? then 1 + |stack'| else 0
      {
        if stack' != [] {
          g, par', stack' := stack'[0].rest, Get(parent, menu.value), stack'[1..];
          SegHead(L(), Get(next, menu.value), g, par', None);
          PreorderEmpty(g);
        }
        if Get(next, menu.value).Some? {
          menu := Get(next, menu.value);
          return;
        }
        menu := Get(parent, menu.value);
      }
      g := [];
      PreorderEmpty(g);
    }

    /** The walk of conf_write and conf_write_defconfig, which uses no stack, visits every node below
        the root exactly once, in document order. */
    method Walk(root: Id, ghost f: seq<Tree>) returns (visited: seq<Id>)
      requires Seg(L(), Get(list, root), f, Some(root), None) && Get(next, root) == None && Get(parent, root) == None
      ensures visited == Preorder(f)
    {
      hide Seg, Preorder, Todo, Context;
      visited := [];
      var menu := Get(list, root);
      ghost var g, par: Option<Id>, stack: seq<Frame> := f, Some(root), [];
      SegHead(L(), menu, f, Some(root), None);
      StartContext(L(), root);
      assert [] + (Preorder(f) + []) == Preorder(f);
      while menu.Some?
        invariant menu == Head(g, None) && visited + (Preorder(g) + Todo(stack)) == Preorder(f)
        invariant menu.Some? ==> Seg(L(), menu, g, par, None) && Context(L(), root, par, stack)
        invariant menu == None ==> stack == []
        decreases |Preorder(f)| - |visited|
      {
        ghost var t, rest := g[0], g[1..];
        SegNode(L(), t, g, par);
        VisitNode(visited, g, stack);
        DescendContext(L(), root, g, par, stack);
        visited := visited + [menu.value];
        if Get(list, menu.value).Some? {
          g, par, stack := t.children, menu, [Frame(t.id, rest)] + stack;
          menu := Get(list, menu.value);
        } else if Get(next, menu.value).Some? {
          g := rest;
          menu := Get(next, menu.value);
        } else {
          menu, g, par, stack := Climb(menu.value, root, par, stack);
        }
      }
      PreorderEmpty(g);
      StartContext(L(), root);
    }
  }
}
