// expr_eliminate_dups and its helper on the nodes themselves. The helper compares the operands of one
// expression with each other through pointers into it, so that its two arguments are aliases.
module DupsHeap {
  import opened Tristate
  import opened Expr
  import opened Eliminate
  import D = Dups
  import opened ExprHeap

  // ----- the operands of a tree -----

  predicate IsSpine(op: Op, t: Tree) {
    t.TBin? && t.op == op
  }

  /** The operands on the level of op. */
  function Leaves(op: Op, t: Tree): (ls: seq<Tree>)
    ensures |ls| >= 1 && (IsSpine(op, t) ==> |ls| >= 2) && (!IsSpine(op, t) ==> ls == [t])
    ensures forall l <- ls :: !IsSpine(op, l)
  {
    if IsSpine(op, t) then Leaves(op, t.left) + Leaves(op, t.right) else [t]
  }

  /** The tree with these operands replaced. */
  function With(op: Op, t: Tree, ls: seq<Tree>): (r: Tree)
    requires |ls| == |Leaves(op, t)|
    ensures IsSpine(op, t) ==> IsSpine(op, r) && r.r == t.r
  {
    if IsSpine(op, t) then
      var n := |Leaves(op, t.left)|;
      TBin(t.r, op, With(op, t.left, ls[..n]), With(op, t.right, ls[n..]))
    else ls[0]
  }

  function Es(ls: seq<Tree>): (es: seq<Expr>)
    ensures |es| == |ls| && forall i | 0 <= i < |ls| :: es[i] == E(ls[i])
  {
    seq(|ls|, i requires 0 <= i < |ls| => E(ls[i]))
  }

  lemma EsAppend(a: seq<Tree>, b: seq<Tree>)
    ensures Es(a + b) == Es(a) + Es(b)
  {
  }

  lemma {:induction false} LeavesAre(op: Op, t: Tree)
    ensures D.Leaves(op, E(t)) == Es(Leaves(op, t)) && (IsOp(op, E(t)) <==> IsSpine(op, t))
  {
    KindOf(t);
    if IsSpine(op, t) {
      LeavesAre(op, t.left);
      LeavesAre(op, t.right);
      EsAppend(Leaves(op, t.left), Leaves(op, t.right));
      hide Es;
      D.LeavesOfJoin(op, E(t.left), E(t.right));
    } else {
      assert Es([t]) == [E(t)];
    }
  }

  lemma {:induction false} WithSame(op: Op, t: Tree)
    ensures With(op, t, Leaves(op, t)) == t
  {
    if IsSpine(op, t) {
      var a, b := Leaves(op, t.left), Leaves(op, t.right);
      assert (a + b)[..|a|] == a && (a + b)[|a|..] == b;
      WithSame(op, t.left);
      WithSame(op, t.right);
    }
  }

  lemma WithParts(op: Op, t: Tree, ls: seq<Tree>)
    requires IsSpine(op, t) && |ls| == |Leaves(op, t)|
    ensures var n, w := |Leaves(op, t.left)|, With(op, t, ls);
      n < |ls| && |ls| - n == |Leaves(op, t.right)| && w.TBin? && w.r == t.r && w.op == op &&
      w.left == With(op, t.left, ls[..n]) && w.right == With(op, t.right, ls[n..])
    ensures !IsSpine(op, t.left) ==> |Leaves(op, t.left)| == 1 && With(op, t, ls).left == ls[0]
    ensures !IsSpine(op, t.right) ==> |Leaves(op, t.right)| == 1 && With(op, t, ls).right == ls[|ls| - 1]
  {
    hide With, Leaves;
    var n := |Leaves(op, t.left)|;
    WithSplits(op, t, ls);
    if !IsSpine(op, t.left) {
      WithLeaf(op, t.left, ls[..n]);
    }
    if !IsSpine(op, t.right) {
      WithLeaf(op, t.right, ls[n..]);
    }
  }

  lemma WithSplits(op: Op, t: Tree, ls: seq<Tree>)
    requires IsSpine(op, t) && |ls| == |Leaves(op, t)|
    ensures var n := |Leaves(op, t.left)|;
      n < |ls| && |ls| - n == |Leaves(op, t.right)| &&
      With(op, t, ls) == TBin(t.r, op, With(op, t.left, ls[..n]), With(op, t.right, ls[n..]))
  {
  }

  lemma WithLeaf(op: Op, t: Tree, ls: seq<Tree>)
    requires !IsSpine(op, t) && |ls| == |Leaves(op, t)|
    ensures |ls| == 1 && With(op, t, ls) == ls[0]
  {
  }

  lemma {:induction false} WithIsRebuild(op: Op, t: Tree, ls: seq<Tree>)
    requires |ls| == |Leaves(op, t)|
    ensures |D.Leaves(op, E(t))| == |ls| && E(With(op, t, ls)) == D.Rebuild(op, E(t), Es(ls))
  {
    LeavesAre(op, t);
    if IsSpine(op, t) {
      KindOf(t);
      var n := |Leaves(op, t.left)|;
      LeavesAre(op, t.left);
      WithIsRebuild(op, t.left, ls[..n]);
      WithIsRebuild(op, t.right, ls[n..]);
      assert Es(ls)[..n] == Es(ls[..n]) && Es(ls)[n..] == Es(ls[n..]);
    }
  }

  // ----- pointers into a tree -----

  /** A pointer to a pointer: to a local variable that holds r, or to an operand of the node r. */
  datatype Slot = Local(r: Ref) | LeftOf(r: Ref) | RightOf(r: Ref)

  function Load(h: Nodes, s: Slot): Ref {
    if s.Local? || s.r !in h || !h[s.r].BinNode? then s.r
    else if s.LeftOf? then h[s.r].left
    else h[s.r].right
  }

  function StoreIn(h: Nodes, s: Slot, r: Ref): Nodes {
    if s.Local? || s.r !in h || !h[s.r].BinNode? then h
    else if s.LeftOf? then h[s.r := h[s.r].(left := r)]
    else h[s.r := h[s.r].(right := r)]
  }

  /** The pointer s leads to the tree t, and belongs to another node, if it belongs to any. */
  predicate Leads(h: Nodes, s: Slot, t: Tree) {
    Load(h, s) == t.r && (!s.Local? ==> s.r in h && h[s.r].BinNode? && s.r !in Refs(t))
  }

  /** The pointer to operand i of t, of which top is a pointer. */
  function SlotOf(op: Op, t: Tree, top: Slot, i: nat): Slot
    requires i < |Leaves(op, t)|
  {
    if IsSpine(op, t) then
      var n := |Leaves(op, t.left)|;
      if i < n then SlotOf(op, t.left, LeftOf(t.r), i) else SlotOf(op, t.right, RightOf(t.r), i - n)
    else top
  }

  /** The pointer s leads to the part u of the spine of t, whose operands begin with operand i. */
  ghost predicate Sub(op: Op, t: Tree, top: Slot, s: Slot, u: Tree, i: nat) {
    (s == top && u == t && i == 0) ||
    (IsSpine(op, t) &&
     var n := |Leaves(op, t.left)|;
     Sub(op, t.left, LeftOf(t.r), s, u, i) || (i >= n && Sub(op, t.right, RightOf(t.r), s, u, i - n)))
  }

  lemma {:induction false} SubFits(op: Op, t: Tree, top: Slot, s: Slot, u: Tree, i: nat)
    requires Sub(op, t, top, s, u, i)
    ensures i + |Leaves(op, u)| <= |Leaves(op, t)|
    ensures !IsSpine(op, u) ==> s == SlotOf(op, t, top, i)
  {
    if !(s == top && u == t && i == 0) {
      var n := |Leaves(op, t.left)|;
      if Sub(op, t.left, LeftOf(t.r), s, u, i) {
        SubFits(op, t.left, LeftOf(t.r), s, u, i);
      } else {
        SubFits(op, t.right, RightOf(t.r), s, u, i - n);
      }
    }
  }

  lemma {:induction false} SubSplit(op: Op, t: Tree, top: Slot, s: Slot, u: Tree, i: nat)
    requires Sub(op, t, top, s, u, i) && IsSpine(op, u)
    ensures Sub(op, t, top, LeftOf(u.r), u.left, i)
    ensures Sub(op, t, top, RightOf(u.r), u.right, i + |Leaves(op, u.left)|)
  {
    if s == top && u == t && i == 0 {
      assert Sub(op, t.left, LeftOf(t.r), LeftOf(u.r), u.left, 0);
      assert Sub(op, t.right, RightOf(t.r), RightOf(u.r), u.right, 0);
    } else {
      var n := |Leaves(op, t.left)|;
      if Sub(op, t.left, LeftOf(t.r), s, u, i) {
        SubSplit(op, t.left, LeftOf(t.r), s, u, i);
      } else {
        SubSplit(op, t.right, RightOf(t.r), s, u, i - n);
      }
    }
  }

  lemma Slices(ls: seq<Tree>, n: nat, i: nat, m: nat)
    requires n <= |ls| && i + m <= |ls|
    ensures i + m <= n ==> ls[..n][i..i + m] == ls[i..i + m]
    ensures n <= i ==> ls[n..][i - n..i - n + m] == ls[i..i + m]
  {
  }

  lemma OperandsLead(h: Nodes, w: Tree)
    requires Own(h, w) && w.TBin?
    ensures Own(h, w.left) && Leads(h, LeftOf(w.r), w.left) && Refs(w.left) <= Refs(w)
    ensures Own(h, w.right) && Leads(h, RightOf(w.r), w.right) && Refs(w.right) <= Refs(w)
  {
    OwnBin(h, w);
  }

  /** The pointer s leads to the part u of the spine with its present operands. */
  lemma {:induction false} SubLeads(h: Nodes, op: Op, t: Tree, ls: seq<Tree>, top: Slot, s: Slot, u: Tree, i: nat)
    requires |ls| == |Leaves(op, t)| && Own(h, With(op, t, ls)) && Leads(h, top, With(op, t, ls))
    requires Sub(op, t, top, s, u, i)
    ensures i + |Leaves(op, u)| <= |ls|
    ensures var v := With(op, u, ls[i..i + |Leaves(op, u)|]); Own(h, v) && Leads(h, s, v) && Refs(v) <= Refs(With(op, t, ls))
    decreases t
  {
    hide Own, Refs, With, Leaves, Leads;
    SubFits(op, t, top, s, u, i);
    if s == top && u == t && i == 0 {
      assert ls[0..|ls|] == ls;
    } else {
      var n, m := |Leaves(op, t.left)|, |Leaves(op, u)|;
      var w := With(op, t, ls);
      WithParts(op, t, ls);
      OperandsLead(h, w);
      if Sub(op, t.left, LeftOf(t.r), s, u, i) {
        SubFits(op, t.left, LeftOf(t.r), s, u, i);
        SubLeads(h, op, t.left, ls[..n], LeftOf(t.r), s, u, i);
        Slices(ls, n, i, m);
      } else {
        SubFits(op, t.right, RightOf(t.r), s, u, i - n);
        SubLeads(h, op, t.right, ls[n..], RightOf(t.r), s, u, i - n);
        Slices(ls, n, i, m);
      }
    }
  }

  lemma SlotParts(op: Op, t: Tree, top: Slot, i: nat)
    requires IsSpine(op, t) && i < |Leaves(op, t)|
    ensures var n := |Leaves(op, t.left)|;
      if i < n then
        SlotOf(op, t, top, i) == if IsSpine(op, t.left) then SlotOf(op, t.left, LeftOf(t.r), i) else LeftOf(t.r)
      else
        i - n < |Leaves(op, t.right)| &&
        SlotOf(op, t, top, i) == if IsSpine(op, t.right) then SlotOf(op, t.right, RightOf(t.r), i - n) else RightOf(t.r)
  {
  }

  /** Operand i is replaced by y, to which its pointer is made to lead. */
  lemma {:induction false} LeafStored(h: Nodes, h1: Nodes, op: Op, t: Tree, ls: seq<Tree>, top: Slot, i: nat, y: Tree)
    requires IsSpine(op, t) && |ls| == |Leaves(op, t)| && i < |ls| && Own(h, With(op, t, ls))
    requires Replaced(h, h1, ls[i], y)
    ensures Replaced(h, StoreIn(h1, SlotOf(op, t, top, i), y.r), With(op, t, ls), With(op, t, ls[i := y]))
    decreases t, 1
  {
    hide Own, Replaced, With, Leaves, SlotOf;
    if i < |Leaves(op, t.left)| {
      LeafStoredLeft(h, h1, op, t, ls, top, i, y);
    } else {
      LeafStoredRight(h, h1, op, t, ls, top, i, y);
    }
  }

  lemma {:induction false} LeafStoredLeft(h: Nodes, h1: Nodes, op: Op, t: Tree, ls: seq<Tree>, top: Slot, i: nat, y: Tree)
    requires IsSpine(op, t) && |ls| == |Leaves(op, t)| && i < |ls| && Own(h, With(op, t, ls))
    requires Replaced(h, h1, ls[i], y) && i < |Leaves(op, t.left)|
    ensures Replaced(h, StoreIn(h1, SlotOf(op, t, top, i), y.r), With(op, t, ls), With(op, t, ls[i := y]))
    decreases t, 0
  {
    hide Own, Replaced, With, Leaves, Refs, SlotOf;
    var n := |Leaves(op, t.left)|;
    var w, w' := With(op, t, ls), With(op, t, ls[i := y]);
    WithParts(op, t, ls);
    WithParts(op, t, ls[i := y]);
    SlotParts(op, t, top, i);
    OwnBin(h, w);
    assert ls[i := y][..n] == ls[..n][i := y] && ls[i := y][n..] == ls[n..];
    if IsSpine(op, t.left) {
      LeafStored(h, h1, op, t.left, ls[..n], LeftOf(t.r), i, y);
      var h2 := StoreIn(h1, SlotOf(op, t.left, LeftOf(t.r), i), y.r);
      ReplacedLeft(h, h2, t.r, op, w.left, w.right, w'.left);
      SameLink(h, h2, w, w.left, w'.left);
      assert w' == TBin(t.r, op, w'.left, w.right) && w'.left.r == w.left.r;
      assert h2[t.r := BinNode(op, w'.left.r, w.right.r)] == h2;
    } else {
      ReplacedLeft(h, h1, t.r, op, w.left, w.right, y);
      SameLink(h, h1, w, w.left, y);
    }
  }

  lemma {:induction false} LeafStoredRight(h: Nodes, h1: Nodes, op: Op, t: Tree, ls: seq<Tree>, top: Slot, i: nat, y: Tree)
    requires IsSpine(op, t) && |ls| == |Leaves(op, t)| && i < |ls| && Own(h, With(op, t, ls))
    requires Replaced(h, h1, ls[i], y) && i >= |Leaves(op, t.left)|
    ensures Replaced(h, StoreIn(h1, SlotOf(op, t, top, i), y.r), With(op, t, ls), With(op, t, ls[i := y]))
    decreases t, 0
  {
    hide Own, Replaced, With, Leaves, Refs, SlotOf;
    var n := |Leaves(op, t.left)|;
    var w, w' := With(op, t, ls), With(op, t, ls[i := y]);
    WithParts(op, t, ls);
    WithParts(op, t, ls[i := y]);
    SlotParts(op, t, top, i);
    OwnBin(h, w);
    assert ls[i := y][..n] == ls[..n] && ls[i := y][n..] == ls[n..][i - n := y];
    if IsSpine(op, t.right) {
      LeafStored(h, h1, op, t.right, ls[n..], RightOf(t.r), i - n, y);
      var h2 := StoreIn(h1, SlotOf(op, t.right, RightOf(t.r), i - n), y.r);
      ReplacedRight(h, h2, t.r, op, w.left, w.right, w'.right);
      SameLink(h, h2, w, w.right, w'.right);
      assert w' == TBin(t.r, op, w.left, w'.right) && w'.right.r == w.right.r;
      assert h2[t.r := BinNode(op, w.left.r, w'.right.r)] == h2;
    } else {
      ReplacedRight(h, h1, t.r, op, w.left, w.right, y);
      SameLink(h, h1, w, w.right, y);
    }
  }

  // The node above the change still links what it linked.
  lemma SameLink(h: Nodes, h1: Nodes, w: Tree, x: Tree, x': Tree)
    requires Own(h, w) && w.TBin? && (x == w.left || x == w.right) && Replaced(h, h1, x, x')
    ensures w.r in h1 && h1[w.r] == BinNode(w.op, w.left.r, w.right.r)
  {
    OwnBin(h, w);
  }

  // ----- parts of a pass -----

  /** The comparisons of the operands from i to m with those from j to n. */
  function Rect(op: Op, es: seq<Expr>, i: nat, m: nat, j: nat, n: nat): (p: D.Pass)
    requires |es| >= 2 && D.Slots(op, es) && i <= m <= |es| && j <= n <= |es|
    ensures |p.ls| == |es| && D.Slots(op, p.ls) && D.Total(p.ls) <= D.Total(es)
    decreases m - i
  {
    if i == m then D.Pass(es, 0)
    else
      var a := D.Row(op, es, i, j, n);
      var b := Rect(op, a.ls, i + 1, m, j, n);
      D.Pass(b.ls, a.joins + b.joins)
  }

  lemma {:induction false} RectSplit(op: Op, es: seq<Expr>, i: nat, k: nat, m: nat, j: nat, n: nat)
    requires |es| >= 2 && D.Slots(op, es) && i <= k <= m <= |es| && j <= n <= |es|
    ensures var a := Rect(op, es, i, k, j, n);
      var b := Rect(op, a.ls, k, m, j, n);
      Rect(op, es, i, m, j, n) == D.Pass(b.ls, a.joins + b.joins)
    decreases k - i
  {
    if i < k {
      RectSplit(op, D.Row(op, es, i, j, n).ls, i + 1, k, m, j, n);
    }
  }

  lemma {:induction false} RowSplit(op: Op, es: seq<Expr>, i: nat, j: nat, k: nat, n: nat)
    requires |es| >= 2 && D.Slots(op, es) && i < |es| && j <= k <= n <= |es|
    ensures var a := D.Row(op, es, i, j, k);
      var b := D.Row(op, a.ls, i, k, n);
      D.Row(op, es, i, j, n) == D.Pass(b.ls, a.joins + b.joins)
    decreases k - j
  {
    if j < k {
      RowSplit(op, D.Visit(op, es, i, j).ls, i, j + 1, k, n);
    }
  }

  lemma OneRow(op: Op, es: seq<Expr>, i: nat, j: nat, n: nat)
    requires |es| >= 2 && D.Slots(op, es) && i < |es| && j <= n <= |es|
    ensures Rect(op, es, i, i + 1, j, n) == D.Row(op, es, i, j, n)
  {
    assert Rect(op, D.Row(op, es, i, j, n).ls, i + 1, i + 1, j, n) == D.Pass(D.Row(op, es, i, j, n).ls, 0);
  }

  lemma OneVisit(op: Op, es: seq<Expr>, i: nat, j: nat)
    requires |es| >= 2 && D.Slots(op, es) && i < |es| && j < |es|
    ensures Rect(op, es, i, i + 1, j, j + 1) == D.Visit(op, es, i, j)
  {
    OneRow(op, es, i, j, j + 1);
    var a := D.Visit(op, es, i, j);
    assert D.Row(op, a.ls, i, j + 1, j + 1) == D.Pass(a.ls, 0);
  }

  lemma {:induction false} RowsAreRect(op: Op, es: seq<Expr>, i: nat)
    requires |es| >= 2 && D.Slots(op, es) && i <= |es|
    ensures D.Rows(op, es, i) == Rect(op, es, i, |es|, 0, |es|)
    decreases |es| - i
  {
    if i < |es| {
      RowsAreRect(op, D.Row(op, es, i, 0, |es|).ls, i + 1);
    }
  }

  // ----- joining two operands -----

  // The leaf that a node without links stands for.
  function LeafOf(n: Node): Expr
    requires n.SymNode? || n.CmpNode?
  {
    if n.SymNode? then Symbol(n.sym) else Cmp(n.rel, n.a, n.b)
  }

  // Both nodes are tests by rel, one against a and the other against b.
  predicate Tests(n1: Node, n2: Node, rel: Rel, a: Sym, b: Sym) {
    n1.CmpNode? && n2.CmpNode? && n1.rel == rel && n2.rel == rel && ((n1.b == a && n2.b == b) || (n1.b == b && n2.b == a))
  }

  // One node is a symbol and the other a test by rel against b.
  predicate SymbolAndTest(n1: Node, n2: Node, rel: Rel, b: Sym) {
    (n1.SymNode? && n2.CmpNode? && n2.rel == rel && n2.b == b) || (n2.SymNode? && n1.CmpNode? && n1.rel == rel && n1.b == b)
  }

  // The symbol an operand is about.
  method SubjectOf(x: Exprs, r: Ref, first: bool, ghost t: Tree) returns (s: Option<Sym>)
    requires Own(x.nodes, t) && t.r == r
    ensures s == D.Subject(E(t), first)
  {
    KindOf(t);
    match x.nodes[r] {
      case SymNode(a) => s := Some(a);
      case CmpNode(rel, a, _) => s := if rel.Eq? || rel.Ne? then Some(a) else None;
      case NotNode(y) =>
        OwnNot(x.nodes, t);
        KindOf(t.arg);
        match x.nodes[y] {
          case SymNode(a) => s := Some(a);
          case CmpNode(rel, a, _) => s := if first && (rel.Eq? || rel.Ne?) then Some(a) else None;
          case _ => s := None;
        }
      case BinNode(_, _, _) => s := None;
    }
  }

  // The negation of a symbol.
  method IsNotSymbol(x: Exprs, r: Ref, ghost t: Tree) returns (b: bool)
    requires Own(x.nodes, t) && t.r == r
    ensures b == D.NotSymbol(E(t))
  {
    KindOf(t);
    match x.nodes[r] {
      case NotNode(y) =>
        OwnNot(x.nodes, t);
        KindOf(t.arg);
        b := x.nodes[y].SymNode?;
      case _ => b := false;
    }
  }

  // The rules of expr_join_or for different operands: the node to be allocated.
  method JoinOr(x: Exprs, r1: Ref, r2: Ref, ghost t1: Tree, ghost t2: Tree) returns (n: Option<Node>)
    requires Own(x.nodes, t1) && Own(x.nodes, t2) && t1.r == r1 && t2.r == r2 && !ExprEq(E(t1), E(t2))
    ensures n.Some? ==> n.value.SymNode? || n.value.CmpNode?
    ensures D.JoinOr(E(t1), E(t2)) == if n.Some? then Some(LeafOf(n.value)) else None
  {
    hide ExprEq;
    KindOf(t1);
    KindOf(t2);
    var sym1 := SubjectOf(x, r1, true, t1);
    var sym2 := SubjectOf(x, r2, false, t2);
    if sym1.None? || sym1 != sym2 || !IsLogical(sym1.value) {
      return None;
    }
    var n1, n2, a := x.nodes[r1], x.nodes[r2], sym1.value;
    if TypeOf(a).Tri3? {
      if Tests(n1, n2, Eq, SYM_YES, SYM_MOD) {
        return Some(CmpNode(Ne, a, SYM_NO));
      }
      if Tests(n1, n2, Eq, SYM_YES, SYM_NO) {
        return Some(CmpNode(Ne, a, SYM_MOD));
      }
      if Tests(n1, n2, Eq, SYM_MOD, SYM_NO) {
        return Some(CmpNode(Ne, a, SYM_YES));
      }
      return None;
    }
    var not1 := IsNotSymbol(x, r1, t1);
    var not2 := IsNotSymbol(x, r2, t2);
    if (not1 && n2.SymNode?) || (not2 && n1.SymNode?) {
      return Some(SymNode(SYM_YES));
    }
    return None;
  }

  // The rules of expr_join_and for different operands.
  method JoinAnd(x: Exprs, r1: Ref, r2: Ref, ghost t1: Tree, ghost t2: Tree) returns (n: Option<Node>)
    requires Own(x.nodes, t1) && Own(x.nodes, t2) && t1.r == r1 && t2.r == r2 && !ExprEq(E(t1), E(t2))
    ensures n.Some? ==> n.value.SymNode? || n.value.CmpNode?
    ensures D.JoinAnd(E(t1), E(t2)) == if n.Some? then Some(LeafOf(n.value)) else None
  {
    hide ExprEq;
    KindOf(t1);
    KindOf(t2);
    var sym1 := SubjectOf(x, r1, true, t1);
    var sym2 := SubjectOf(x, r2, false, t2);
    if sym1.None? || sym1 != sym2 || !IsLogical(sym1.value) {
      return None;
    }
    var n1, n2, a := x.nodes[r1], x.nodes[r2], sym1.value;
    if SymbolAndTest(n1, n2, Eq, SYM_YES) {
      return Some(CmpNode(Eq, a, SYM_YES));
    }
    if SymbolAndTest(n1, n2, Ne, SYM_NO) {
      return Some(SymNode(a));
    }
    if SymbolAndTest(n1, n2, Ne, SYM_MOD) {
      return Some(CmpNode(Eq, a, SYM_YES));
    }
    if TypeOf(a).Tri3? && n1.CmpNode? && n2.CmpNode? {
      n := JoinTests(n1, n2, a);
      return;
    }
    return None;
  }

  // Two tests of the tristate a.
  method JoinTests(n1: Node, n2: Node, a: Sym) returns (n: Option<Node>)
    requires n1.CmpNode? && n2.CmpNode? && TypeOf(a).Tri3? && !ExprEq(LeafOf(n1), LeafOf(n2))
    requires D.Subject(LeafOf(n1), true) == D.Subject(LeafOf(n2), false) == Some(a)
    ensures n.Some? ==> n.value.SymNode? || n.value.CmpNode?
    ensures D.JoinAnd(LeafOf(n1), LeafOf(n2)) == if n.Some? then Some(LeafOf(n.value)) else None
  {
    hide ExprEq;
    if n1.rel.Eq? && n2.rel.Ne? && n1.b.Const? && n2.b.Const? {
      return Some(if n1.b != n2.b then CmpNode(Eq, a, n1.b) else SymNode(SYM_NO));
    }
    if n1.rel.Ne? && n2.rel.Eq? && n1.b.Const? && n2.b.Const? {
      return Some(if n1.b != n2.b then CmpNode(Eq, a, n2.b) else SymNode(SYM_NO));
    }
    if Tests(n1, n2, Ne, SYM_YES, SYM_NO) {
      return Some(CmpNode(Eq, a, SYM_MOD));
    }
    if Tests(n1, n2, Ne, SYM_YES, SYM_MOD) {
      return Some(CmpNode(Eq, a, SYM_NO));
    }
    if Tests(n1, n2, Ne, SYM_MOD, SYM_NO) {
      return Some(CmpNode(Eq, a, SYM_YES));
    }
    return None;
  }

  lemma JoinEqual(op: Op, e1: Expr, e2: Expr)
    requires ExprEq(e1, e2)
    ensures D.JoinPair(op, e1, e2) == Some(e1)
  {
    hide ExprEq;
  }

  /** expr_join_or and expr_join_and: a new expression for both operands, if there is one. */
  method JoinOperands(x: Exprs, op: Op, r1: Ref, r2: Ref, ghost t1: Tree, ghost t2: Tree)
    returns (tmp: Option<Ref>, ghost tt: Tree)
    requires x.Valid() && Own(x.nodes, t1) && Own(x.nodes, t2) && t1.r == r1 && t2.r == r2
    modifies x
    ensures x.Valid() && x.transCount == old(x.transCount)
    ensures tmp.None? ==> x.nodes == old(x.nodes) && D.JoinPair(op, E(t1), E(t2)).None?
    ensures tmp.Some? ==> tmp.value == tt.r && Added(old(x.nodes), x.nodes, tt)
    ensures tmp.Some? ==> D.JoinPair(op, E(t1), E(t2)) == Some(E(tt))
  {
    hide Added, ExprEq, D.JoinOr, D.JoinAnd;
    ghost var h := x.nodes;
    tmp, tt := None, t1;
    var eq := x.ExprEq(r1, r2, t1, t2);
    if eq {
      JoinEqual(op, E(t1), E(t2));
      var c: Ref;
      c, tt := x.Copy(r1, t1);
      tmp := Some(c);
    } else {
      var n: Option<Node>;
      if op.OrOp? {
        n := JoinOr(x, r1, r2, t1, t2);
      } else {
        n := JoinAnd(x, r1, r2, t1, t2);
      }
      if n.Some? {
        var c := x.Alloc(n.value);
        tmp, tt := Some(c), if n.value.SymNode? then TSym(c, n.value.sym) else TCmp(c, n.value.rel, n.value.a, n.value.b);
        AddLeaf(h, tt);
      }
    }
  }

  // ----- one pass over the operands -----

  /** The spine of t with the operands ls, none of which belongs to it; top leads to it. */
  ghost predicate Layout(h: Nodes, op: Op, t: Tree, ls: seq<Tree>, top: Slot) {
    IsSpine(op, t) && |ls| == |Leaves(op, t)| && D.Slots(op, Es(ls)) &&
    Own(h, With(op, t, ls)) && Leads(h, top, With(op, t, ls))
  }

  // What a part of a pass does.
  ghost predicate Passed(h: Nodes, h': Nodes, op: Op, t: Tree, ls: seq<Tree>, ls': seq<Tree>, top: Slot) {
    Layout(h, op, t, ls, top) && Layout(h', op, t, ls', top) && Replaced(h, h', With(op, t, ls), With(op, t, ls'))
  }

  lemma PassedTrans(h: Nodes, h1: Nodes, h2: Nodes, op: Op, t: Tree, ls: seq<Tree>, ls1: seq<Tree>, ls2: seq<Tree>, top: Slot)
    requires Passed(h, h1, op, t, ls, ls1, top) && Passed(h1, h2, op, t, ls1, ls2, top)
    ensures Passed(h, h2, op, t, ls, ls2, top)
  {
    hide Replaced, Own, With, Leads;
    ReplacedTrans(h, h1, h2, With(op, t, ls), With(op, t, ls1), With(op, t, ls2));
  }

  lemma LeadsStill(h: Nodes, h': Nodes, s: Slot, w: Tree, w': Tree)
    requires Leads(h, s, w) && Replaced(h, h', w, w') && w'.r == w.r
    ensures Leads(h', s, w')
  {
    hide Own, Refs;
  }

  // Operand i is replaced by y.
  lemma LeafPassed(h: Nodes, h1: Nodes, op: Op, t: Tree, ls: seq<Tree>, top: Slot, i: nat, y: Tree)
    requires Layout(h, op, t, ls, top) && i < |ls| && Replaced(h, h1, ls[i], y) && !IsOp(op, E(y))
    ensures Passed(h, StoreIn(h1, SlotOf(op, t, top, i), y.r), op, t, ls, ls[i := y], top)
    ensures Es(ls[i := y]) == Es(ls)[i := E(y)]
  {
    LeafStored(h, h1, op, t, ls, top, i, y);
    var h2 := StoreIn(h1, SlotOf(op, t, top, i), y.r);
    var w, w' := With(op, t, ls), With(op, t, ls[i := y]);
    LeadsStill(h, h2, top, w, w');
    ReplacedOwn(h, h2, w, w');
    assert Es(ls[i := y]) == Es(ls)[i := E(y)];
    hide Own, Replaced, With, Leads, StoreIn, SlotOf;
    forall l | l in Es(ls[i := y]) ensures !IsOp(op, l) {
      var k :| 0 <= k < |ls| && Es(ls)[i := E(y)][k] == l;
      assert Es(ls)[k] in Es(ls);
    }
  }

  /** The pointer to operand i leads to it. */
  lemma LeafLeads(h: Nodes, op: Op, t: Tree, ls: seq<Tree>, top: Slot, i: nat)
    requires Layout(h, op, t, ls, top) && i < |ls|
    ensures var s := SlotOf(op, t, top, i); Own(h, ls[i]) && Leads(h, s, ls[i]) && !s.Local?
    decreases t
  {
    LeafIn(h, op, t, ls, top, i);
  }

  lemma {:induction false} LeafIn(h: Nodes, op: Op, t: Tree, ls: seq<Tree>, top: Slot, i: nat)
    requires |ls| == |Leaves(op, t)| && Own(h, With(op, t, ls)) && Leads(h, top, With(op, t, ls)) && i < |ls|
    ensures var s := SlotOf(op, t, top, i); Own(h, ls[i]) && Leads(h, s, ls[i])
    ensures IsSpine(op, t) ==> !SlotOf(op, t, top, i).Local?
    ensures Refs(ls[i]) <= Refs(With(op, t, ls))
    decreases t
  {
    hide Own, Leads, Refs, Leaves;
    if IsSpine(op, t) {
      var n, w := |Leaves(op, t.left)|, With(op, t, ls);
      WithParts(op, t, ls);
      OperandsLead(h, w);
      if i < n {
        LeafIn(h, op, t.left, ls[..n], LeftOf(t.r), i);
      } else {
        LeafIn(h, op, t.right, ls[n..], RightOf(t.r), i - n);
      }
    }
  }

  /** Different operands share no nodes. */
  lemma {:induction false} LeavesApart(h: Nodes, op: Op, t: Tree, ls: seq<Tree>, i: nat, j: nat)
    requires |ls| == |Leaves(op, t)| && Own(h, With(op, t, ls)) && i < j < |ls|
    ensures Refs(ls[i]) !! Refs(ls[j]) && ls[i].r != ls[j].r
    decreases t
  {
    hide Own, Refs, Leaves;
    var n, w := |Leaves(op, t.left)|, With(op, t, ls);
    WithParts(op, t, ls);
    OwnBin(h, w);
    OperandsLead(h, w);
    if j < n {
      LeavesApart(h, op, t.left, ls[..n], i, j);
    } else if i >= n {
      LeavesApart(h, op, t.right, ls[n..], i - n, j - n);
    } else {
      LeafIn(h, op, t.left, ls[..n], LeftOf(t.r), i);
      LeafIn(h, op, t.right, ls[n..], RightOf(t.r), j - n);
      RootIn(ls[i]);
      RootIn(ls[j]);
    }
  }

  lemma RootIn(t: Tree)
    ensures t.r in Refs(t)
  {
  }

  method Store(x: Exprs, s: Slot, r: Ref)
    requires x.Valid() && !s.Local? && s.r in x.nodes && x.nodes[s.r].BinNode?
    modifies x`nodes
    ensures x.Valid() && x.nodes == StoreIn(old(x.nodes), s, r)
  {
    var node := x.nodes[s.r];
    x.Write(s.r, if s.LeftOf? then node.(left := r) else node.(right := r));
  }

  /** The pointers to operands belong to the spine. */
  lemma {:induction false} SlotApart(h: Nodes, op: Op, t: Tree, ls: seq<Tree>, top: Slot, i: nat, j: nat)
    requires IsSpine(op, t) && |ls| == |Leaves(op, t)| && Own(h, With(op, t, ls)) && i < |ls| && j < |ls|
    ensures SlotOf(op, t, top, i).r in Refs(With(op, t, ls)) && SlotOf(op, t, top, i).r !in Refs(ls[j])
    decreases t
  {
    hide Own, Leads, Refs, Leaves, SlotOf, With;
    var n, w := |Leaves(op, t.left)|, With(op, t, ls);
    WithParts(op, t, ls);
    SlotParts(op, t, top, i);
    OwnBin(h, w);
    OperandsLead(h, w);
    RootIn(w);
    if j < n {
      LeafIn(h, op, t.left, ls[..n], LeftOf(t.r), j);
    } else {
      LeafIn(h, op, t.right, ls[n..], RightOf(t.r), j - n);
    }
    if i < n && IsSpine(op, t.left) {
      SlotApart(h, op, t.left, ls[..n], LeftOf(t.r), i, if j < n then j else 0);
    } else if i >= n && IsSpine(op, t.right) {
      SlotApart(h, op, t.right, ls[n..], RightOf(t.r), i - n, if j < n then 0 else j - n);
    }
  }

  lemma StoreMinus(h: Nodes, s: Slot, r: Ref, gone: set<Ref>)
    requires s.r !in gone
    ensures StoreIn(h, s, r) - gone == StoreIn(h - gone, s, r)
  {
  }

  lemma LayoutFrame(h: Nodes, h': Nodes, op: Op, t: Tree, ls: seq<Tree>, top: Slot)
    requires Layout(h, op, t, ls, top)
    requires forall q <- Refs(With(op, t, ls)) :: q in h && q in h' && h'[q] == h[q]
    requires !top.Local? ==> top.r in h && top.r in h' && h'[top.r] == h[top.r]
    ensures Layout(h', op, t, ls, top)
  {
    OwnFrame(h, h', With(op, t, ls));
  }

  // The first operand is replaced by the unit u, while the joined expression tt lies elsewhere.
  lemma FirstReplaced(h: Nodes, h1: Nodes, op: Op, t: Tree, ls: seq<Tree>, top: Slot, i: nat, tt: Tree, u: Tree)
    requires Layout(h, op, t, ls, top) && i < |ls| && Added(h, h1, tt) && u.TSym? && u.r !in h1
    ensures Layout(h1, op, t, ls, top)
    ensures var g := (h1 - Refs(ls[i]))[u.r := NodeOf(u)];
      var g1 := StoreIn(g, SlotOf(op, t, top, i), u.r);
      Passed(h1, g1, op, t, ls, ls[i := u], top) && Own(g1, tt) && Refs(With(op, t, ls[i := u])) !! Refs(tt)
    ensures Es(ls[i := u]) == Es(ls)[i := E(u)]
  {
    var w := With(op, t, ls);
    OwnIn(h, w);
    LayoutFrame(h, h1, op, t, ls, top);
    LeafLeads(h1, op, t, ls, top, i);
    OwnIn(h1, ls[i]);
    var g := (h1 - Refs(ls[i]))[u.r := NodeOf(u)];
    hide Own, Leads, With, SlotOf, StoreIn;
    assert Own(g, u) by { UnitOwn(g, u); }
    assert Replaced(h1, g, ls[i], u);
    LeafPassed(h1, g, op, t, ls, top, i, u);
    var g1 := StoreIn(g, SlotOf(op, t, top, i), u.r);
    OwnIn(h1, tt);
    FrameKeeps(h1, g1, Refs(tt), Refs(w), Refs(With(op, t, ls[i := u])));
    OwnFrame(h1, g1, tt);
  }

  lemma UnitOwn(h: Nodes, u: Tree)
    requires u.TSym? && u.r in h && h[u.r] == NodeOf(u)
    ensures Own(h, u)
  {
  }

  // The second operand is freed and its pointer made to lead to the joined expression.
  lemma SecondReplaced(h: Nodes, op: Op, t: Tree, ls: seq<Tree>, top: Slot, j: nat, tt: Tree)
    requires Layout(h, op, t, ls, top) && j < |ls| && Own(h, tt) && Refs(With(op, t, ls)) !! Refs(tt) && !IsOp(op, E(tt))
    requires !top.Local? ==> top.r !in Refs(tt)
    ensures var h' := StoreIn(h - Refs(ls[j]), SlotOf(op, t, top, j), tt.r);
      var w, w' := With(op, t, ls), With(op, t, ls[j := tt]);
      Layout(h', op, t, ls[j := tt], top) && Frame(h, h', Refs(w) + Refs(tt), Refs(w'))
    ensures Es(ls[j := tt]) == Es(ls)[j := E(tt)]
  {
    var k, m := h - Refs(tt), h - Refs(ls[j]);
    var w := With(op, t, ls);
    LeafLeads(h, op, t, ls, top, j);
    LeafIn(h, op, t, ls, top, j);
    OwnIn(h, w);
    OwnIn(h, tt);
    LayoutFrame(h, k, op, t, ls, top);
    hide Own, Leads, With, SlotOf, StoreIn;
    OwnFrame(h, m, tt);
    assert Replaced(k, m, ls[j], tt);
    LeafPassed(k, m, op, t, ls, top, j, tt);
  }

  lemma FrameThree(h: Nodes, h1: Nodes, h2: Nodes, h3: Nodes, w: set<Ref>, w1: set<Ref>, w2: set<Ref>, t: set<Ref>)
    requires Frame(h, h1, {}, t) && Frame(h1, h2, w, w1) && Frame(h2, h3, w1 + t, w2) && w <= h.Keys
    ensures Frame(h, h3, w, w2)
  {
  }

  /** The join of operands i and j, as the program makes it: the joined expression tt is allocated, both
      operands are freed, and their pointers are made to lead to the unit u and to tt. */
  lemma JoinReplaces(h: Nodes, h1: Nodes, h2: Nodes, op: Op, t: Tree, ls: seq<Tree>, top: Slot, i: nat, j: nat, tt: Tree, u: Tree)
    requires Layout(h, op, t, ls, top) && i < |ls| && j < |ls| && i != j && Added(h, h1, tt) && !IsOp(op, E(tt))
    requires u.TSym? && u.r !in h1 && h2 == (h1 - Refs(ls[i]) - Refs(ls[j]))[u.r := NodeOf(u)]
    ensures var h3 := StoreIn(StoreIn(h2, SlotOf(op, t, top, i), u.r), SlotOf(op, t, top, j), tt.r);
      Passed(h, h3, op, t, ls, ls[i := u][j := tt], top)
    ensures Es(ls[i := u][j := tt]) == Es(ls)[i := E(u)][j := E(tt)]
  {
    hide Own, Leads, With, SlotOf, StoreIn, Refs, NodeOf, Layout, Passed;
    LayoutFacts(h, op, t, ls, top);
    var si, sj := SlotOf(op, t, top, i), SlotOf(op, t, top, j);
    var w, ls1, ls2 := With(op, t, ls), ls[i := u], ls[i := u][j := tt];
    OwnIn(h, w);
    FirstReplaced(h, h1, op, t, ls, top, i, tt, u);
    var g1 := StoreIn((h1 - Refs(ls[i]))[u.r := NodeOf(u)], si, u.r);
    SecondHeap(h, h1, op, t, ls, top, i, j, tt, u);
    assert g1 - Refs(ls[j]) == StoreIn(h2, si, u.r);
    hide Added;
    PassedFacts(h1, g1, op, t, ls, ls1, top);
    PassedFrame(h1, g1, op, t, ls, ls1, top);
    AddedFrame(h, h1, tt);
    LayoutApart(h, op, t, ls, top, tt, h1);
    SecondReplaced(g1, op, t, ls1, top, j, tt);
    var h3 := StoreIn(StoreIn(h2, si, u.r), sj, tt.r);
    FrameThree(h, h1, g1, h3, Refs(w), Refs(With(op, t, ls1)), Refs(With(op, t, ls2)), Refs(tt));
    PassedIs(h, h3, op, t, ls, ls2, top);
  }

  lemma PassedFrame(h: Nodes, h': Nodes, op: Op, t: Tree, ls: seq<Tree>, ls': seq<Tree>, top: Slot)
    requires Passed(h, h', op, t, ls, ls', top)
    ensures |ls| == |Leaves(op, t)| == |ls'| && Frame(h, h', Refs(With(op, t, ls)), Refs(With(op, t, ls')))
  {
  }

  lemma AddedFrame(h: Nodes, h1: Nodes, tt: Tree)
    requires Added(h, h1, tt)
    ensures Frame(h, h1, {}, Refs(tt)) && Refs(tt) !! h.Keys
  {
  }

  lemma LayoutApart(h: Nodes, op: Op, t: Tree, ls: seq<Tree>, top: Slot, tt: Tree, h1: Nodes)
    requires Layout(h, op, t, ls, top) && Added(h, h1, tt)
    ensures !top.Local? ==> top.r !in Refs(tt)
  {
  }

  // The two ways to arrive at the heap without operand j.
  lemma SecondHeap(h: Nodes, h1: Nodes, op: Op, t: Tree, ls: seq<Tree>, top: Slot, i: nat, j: nat, tt: Tree, u: Tree)
    requires Layout(h, op, t, ls, top) && i < |ls| && j < |ls| && Added(h, h1, tt) && u.r !in h1
    ensures var si, node := SlotOf(op, t, top, i), NodeOf(u);
      StoreIn((h1 - Refs(ls[i]))[u.r := node], si, u.r) - Refs(ls[j]) ==
      StoreIn((h1 - Refs(ls[i]) - Refs(ls[j]))[u.r := node], si, u.r)
  {
    hide Own, Leads, With, SlotOf, StoreIn, Refs, NodeOf, Layout;
    LayoutFacts(h, op, t, ls, top);
    SlotApart(h, op, t, ls, top, i, j);
    LeafLeads(h, op, t, ls, top, j);
    OwnIn(h, ls[j]);
    var si, node := SlotOf(op, t, top, i), NodeOf(u);
    StoreMinus((h1 - Refs(ls[i]))[u.r := node], si, u.r, Refs(ls[j]));
    SameHeap(h1, Refs(ls[i]), Refs(ls[j]), u.r, node);
  }

  lemma PassedIs(h: Nodes, h': Nodes, op: Op, t: Tree, ls: seq<Tree>, ls': seq<Tree>, top: Slot)
    requires Layout(h, op, t, ls, top) && Layout(h', op, t, ls', top)
    requires |ls| == |Leaves(op, t)| == |ls'| && Frame(h, h', Refs(With(op, t, ls)), Refs(With(op, t, ls')))
    ensures Passed(h, h', op, t, ls, ls', top)
  {
  }

  lemma SameHeap(h: Nodes, a: set<Ref>, b: set<Ref>, u: Ref, node: Node)
    requires u !in b
    ensures (h - a)[u := node] - b == (h - a - b)[u := node]
  {
  }

  lemma LayoutFacts(h: Nodes, op: Op, t: Tree, ls: seq<Tree>, top: Slot)
    requires Layout(h, op, t, ls, top)
    ensures IsSpine(op, t) && |ls| == |Leaves(op, t)| && D.Slots(op, Es(ls)) && Own(h, With(op, t, ls))
    ensures Leads(h, top, With(op, t, ls)) && (!top.Local? ==> top.r in h)
  {
  }

  // The pointers to both operands remain while the operands are freed.
  lemma SlotsRemain(h: Nodes, h1: Nodes, h2: Nodes, op: Op, t: Tree, ls: seq<Tree>, top: Slot, i: nat, j: nat, tt: Tree, u: Tree)
    requires Layout(h, op, t, ls, top) && i < |ls| && j < |ls| && Added(h, h1, tt)
    requires u.r !in h1 && h2 == (h1 - Refs(ls[i]) - Refs(ls[j]))[u.r := NodeOf(u)]
    ensures var s1, s2 := SlotOf(op, t, top, i), SlotOf(op, t, top, j);
      !s1.Local? && s1.r in h2 && h2[s1.r].BinNode? && !s2.Local? && s2.r in h2 && h2[s2.r].BinNode?
  {
    hide Own, With, SlotOf, Refs, NodeOf;
    LeafLeads(h, op, t, ls, top, i);
    LeafLeads(h, op, t, ls, top, j);
    SlotApart(h, op, t, ls, top, i, i);
    SlotApart(h, op, t, ls, top, i, j);
    SlotApart(h, op, t, ls, top, j, i);
    SlotApart(h, op, t, ls, top, j, j);
  }

  lemma PassedSelf(h: Nodes, op: Op, t: Tree, ls: seq<Tree>, top: Slot)
    requires Layout(h, op, t, ls, top)
    ensures Passed(h, h, op, t, ls, ls, top)
  {
    ReplacedSelf(h, With(op, t, ls));
  }

  lemma ApartLeaves(h: Nodes, op: Op, t: Tree, ls: seq<Tree>, top: Slot, i: nat, j: nat)
    requires Layout(h, op, t, ls, top) && i < |ls| && j < |ls| && i != j
    ensures Refs(ls[i]) !! Refs(ls[j]) && ls[i].r != ls[j].r && !IsOp(op, E(ls[i]))
  {
    if i < j {
      LeavesApart(h, op, t, ls, i, j);
    } else {
      LeavesApart(h, op, t, ls, j, i);
    }
    assert Es(ls)[i] in Es(ls);
  }

  lemma JoinIsNotOp(op: Op, e1: Expr, e2: Expr)
    requires !IsOp(op, e1)
    ensures var t := D.JoinPair(op, e1, e2); t.Some? ==> !IsOp(op, t.value)
  {
    hide ExprEq;
  }

  /** What a comparison does after operand i was itself simplified to e. */
  function Joined(op: Op, es: seq<Expr>, i: nat, j: nat): D.Pass
    requires i < |es| && j < |es|
  {
    var t := D.JoinPair(op, es[i], es[j]);
    if t.None? then D.Pass(es, 0) else D.Pass(es[i := Unit(op)][j := t.value], 1)
  }

  /** The part of expr_eliminate_dups1 that joins two operands. */
  method JoinAt(x: Exprs, op: Op, s1: Slot, s2: Slot, ghost t: Tree, ghost top: Slot, ghost ls: seq<Tree>, ghost i: nat, ghost j: nat)
    returns (ghost ls': seq<Tree>)
    requires x.Valid() && Layout(x.nodes, op, t, ls, top) && i < |ls| && j < |ls| && i != j
    requires s1 == SlotOf(op, t, top, i) && s2 == SlotOf(op, t, top, j)
    modifies x
    ensures x.Valid() && Passed(old(x.nodes), x.nodes, op, t, ls, ls', top)
    ensures var p := Joined(op, Es(ls), i, j); Es(ls') == p.ls && x.transCount == old(x.transCount) + p.joins
  {
    hide Layout, Passed, Own, With, SlotOf, Added, StoreIn, D.JoinPair;
    ghost var h := x.nodes;
    LeafLeads(h, op, t, ls, top, i);
    LeafLeads(h, op, t, ls, top, j);
    ApartLeaves(h, op, t, ls, top, i, j);
    var r1, r2 := Load(x.nodes, s1), Load(x.nodes, s2);
    var tmp;
    ghost var tt;
    tmp, tt := JoinOperands(x, op, r1, r2, ls[i], ls[j]);
    ls' := ls;
    if tmp.None? {
      PassedSelf(h, op, t, ls, top);
    } else {
      ghost var h1 := x.nodes;
      assert x.top !in h1;
      AddedKeeps(h, h1, tt, ls[i]);
      AddedKeeps(h, h1, tt, ls[j]);
      JoinIsNotOp(op, E(ls[i]), E(ls[j]));
      x.FreeTree(r1, ls[i]);
      OwnAfterFree(h1, x.nodes, ls[i], ls[j]);
      x.FreeTree(r2, ls[j]);
      var sym := if op.AndOp? then SYM_YES else SYM_NO;
      var u := x.Alloc(SymNode(sym));
      ls' := StoreBoth(x, op, s1, s2, u, tmp.value, h, h1, t, top, ls, i, j, tt, TSym(u, sym));
      x.transCount := x.transCount + 1;
    }
  }

  method StoreBoth(x: Exprs, op: Op, s1: Slot, s2: Slot, u: Ref, tmp: Ref, ghost h: Nodes, ghost h1: Nodes, ghost t: Tree,
                   ghost top: Slot, ghost ls: seq<Tree>, ghost i: nat, ghost j: nat, ghost tt: Tree, ghost tu: Tree)
    returns (ghost ls': seq<Tree>)
    requires x.Valid() && Layout(h, op, t, ls, top) && i < |ls| && j < |ls| && i != j && Added(h, h1, tt) && !IsOp(op, E(tt))
    requires tu.TSym? && tu.r == u && u !in h1 && tt.r == tmp
    requires x.nodes == (h1 - Refs(ls[i]) - Refs(ls[j]))[u := NodeOf(tu)]
    requires s1 == SlotOf(op, t, top, i) && s2 == SlotOf(op, t, top, j)
    modifies x`nodes
    ensures x.Valid() && ls' == ls[i := tu][j := tt] && Passed(h, x.nodes, op, t, ls, ls', top)
    ensures Es(ls') == Es(ls)[i := E(tu)][j := E(tt)]
  {
    ls' := ls[i := tu][j := tt];
    JoinReplaces(h, h1, x.nodes, op, t, ls, top, i, j, tt, tu);
    SlotsRemain(h, h1, x.nodes, op, t, ls, top, i, j, tt, tu);
    hide Layout, Passed, Own, With, SlotOf, Added, Refs;
    Store(x, s1, u);
    Store(x, s2, tmp);
  }

  lemma VisitIs(op: Op, es: seq<Expr>, i: nat, j: nat)
    requires |es| >= 2 && D.Slots(op, es) && i < |es| && j < |es|
    ensures
      if i == j then D.Visit(op, es, i, j) == D.Pass(es, 0)
      else
        var inner := if IsJunction(es[i]) then D.Dups1(es[i]) else D.Rewritten(es[i], 0);
        var p := Joined(op, es[i := inner.e], i, j);
        D.Visit(op, es, i, j) == D.Pass(p.ls, inner.joins + p.joins)
    ensures Size(es[i]) < D.Total(es)
  {
    hide D.JoinPair, D.Dups1;
    D.TotalUpdate(es, i, es[i]);
    if i != j {
      var inner := if IsJunction(es[i]) then D.Dups1(es[i]) else D.Rewritten(es[i], 0);
      assert es[i := inner.e][i := Unit(op)] == es[i := Unit(op)];
      assert es[i := es[i]] == es;
    }
  }

  // Operand i was simplified in its place.
  lemma OperandPassed(h: Nodes, h1: Nodes, op: Op, t: Tree, ls: seq<Tree>, top: Slot, i: nat, y: Tree)
    requires Layout(h, op, t, ls, top) && i < |ls| && Replaced(h, h1, ls[i], y) && y.r == ls[i].r && !IsOp(op, E(y))
    ensures Passed(h, h1, op, t, ls, ls[i := y], top) && Es(ls[i := y]) == Es(ls)[i := E(y)]
  {
    var s := SlotOf(op, t, top, i);
    LeafLeads(h, op, t, ls, top, i);
    LeafPassed(h, h1, op, t, ls, top, i, y);
    LeadsStill(h, h1, s, ls[i], y);
    StoreSame(h1, s, y);
    hide *;
  }

  lemma StoreSame(h: Nodes, s: Slot, t: Tree)
    requires Leads(h, s, t)
    ensures StoreIn(h, s, t.r) == h
  {
  }

  /** One comparison of expr_eliminate_dups1: operand i with operand j. */
  method VisitAt(x: Exprs, op: Op, s1: Slot, s2: Slot, ghost t: Tree, ghost top: Slot, ghost ls: seq<Tree>, ghost i: nat, ghost j: nat)
    returns (ghost ls': seq<Tree>)
    requires x.Valid() && Layout(x.nodes, op, t, ls, top) && i < |ls| && j < |ls|
    requires s1 == SlotOf(op, t, top, i) && s2 == SlotOf(op, t, top, j) && |ls| >= 2 && D.Slots(op, Es(ls))
    modifies x
    ensures x.Valid() && Passed(old(x.nodes), x.nodes, op, t, ls, ls', top)
    ensures var p := D.Visit(op, Es(ls), i, j); Es(ls') == p.ls && x.transCount == old(x.transCount) + p.joins
    decreases D.Total(Es(ls)), 0, 0
  {
    hide Layout, Passed, Own, With, SlotOf, StoreIn, D.Visit, D.JoinPair;
    ghost var h := x.nodes;
    LeafLeads(h, op, t, ls, top, i);
    LeafLeads(h, op, t, ls, top, j);
    VisitIs(op, Es(ls), i, j);
    OwnRoot(h, ls[i]);
    KindOf(ls[i]);
    var r1, r2 := Load(x.nodes, s1), Load(x.nodes, s2);
    if r1 == r2 {
      if i != j {
        ApartLeaves(h, op, t, ls, top, i, j);
      }
      ls' := ls;
      PassedSelf(h, op, t, ls, top);
      return;
    }
    ghost var ls1 := ls;
    ApartLeaves(h, op, t, ls, top, i, j);
    PassedSelf(h, op, t, ls, top);
    assert Es(ls)[i := Es(ls)[i]] == Es(ls);
    if x.nodes[r1].BinNode? {
      ghost var y;
      y := Dups1(x, s1, r1, ls[i]);
      OperandPassed(h, x.nodes, op, t, ls, top, i, y);
      ls1 := ls[i := y];
    }
    ghost var h1 := x.nodes;
    PassedFacts(h, h1, op, t, ls, ls1, top);
    ls' := JoinAt(x, op, s1, s2, t, top, ls1, i, j);
    PassedTrans(h, h1, x.nodes, op, t, ls, ls1, ls', top);
  }

  lemma SpineOrLeaf(op: Op, t: Tree, ls: seq<Tree>, u: Tree, i: nat)
    requires |ls| == |Leaves(op, t)| && i + |Leaves(op, u)| <= |ls| && D.Slots(op, Es(ls))
    ensures var v := With(op, u, ls[i..i + |Leaves(op, u)|]);
      (IsSpine(op, u) <==> IsSpine(op, v)) && (IsSpine(op, u) ==> v.r == u.r)
  {
    assert Es(ls)[i] in Es(ls);
    KindOf(ls[i]);
  }

  /** expr_eliminate_dups1 for two parts of the spine, both of which may be the whole. */
  method PassOver(x: Exprs, op: Op, s1: Slot, s2: Slot, ghost t: Tree, ghost top: Slot, ghost ls: seq<Tree>,
                  ghost u1: Tree, ghost i: nat, ghost u2: Tree, ghost j: nat)
    returns (ghost ls': seq<Tree>)
    requires x.Valid() && Layout(x.nodes, op, t, ls, top) && |ls| >= 2 && D.Slots(op, Es(ls))
    requires Sub(op, t, top, s1, u1, i) && Sub(op, t, top, s2, u2, j)
    requires i + |Leaves(op, u1)| <= |ls| && j + |Leaves(op, u2)| <= |ls|
    modifies x
    ensures x.Valid() && Passed(old(x.nodes), x.nodes, op, t, ls, ls', top)
    ensures var p := Rect(op, Es(ls), i, i + |Leaves(op, u1)|, j, j + |Leaves(op, u2)|);
      Es(ls') == p.ls && x.transCount == old(x.transCount) + p.joins
    decreases D.Total(Es(ls)), 1, Size(E(u1)) + Size(E(u2)), 1
  {
    hide Layout, Passed, Own, With, SlotOf, StoreIn, D.Visit, D.Row, Rect, Sub, Es, Leaves;
    PartFacts(x.nodes, op, t, ls, top, s1, u1, i);
    PartFacts(x.nodes, op, t, ls, top, s2, u2, j);
    var r1, r2 := Load(x.nodes, s1), Load(x.nodes, s2);
    if x.nodes[r1].BinNode? && x.nodes[r1].op == op {
      ls' := PassFirst(x, op, r1, s1, s2, t, top, ls, u1, i, u2, j);
    } else if x.nodes[r2].BinNode? && x.nodes[r2].op == op {
      ls' := PassSecond(x, op, r2, s1, s2, t, top, ls, u1, i, u2, j);
    } else {
      OneVisit(op, Es(ls), i, j);
      ls' := VisitAt(x, op, s1, s2, t, top, ls, i, j);
    }
  }

  // The first part branches.
  method PassFirst(x: Exprs, op: Op, r1: Ref, ghost s1: Slot, s2: Slot, ghost t: Tree, ghost top: Slot, ghost ls: seq<Tree>,
                   ghost u1: Tree, ghost i: nat, ghost u2: Tree, ghost j: nat)
    returns (ghost ls': seq<Tree>)
    requires x.Valid() && Layout(x.nodes, op, t, ls, top) && |ls| >= 2 && D.Slots(op, Es(ls))
    requires Sub(op, t, top, s1, u1, i) && Sub(op, t, top, s2, u2, j)
    requires i + |Leaves(op, u1)| <= |ls| && j + |Leaves(op, u2)| <= |ls|
    requires IsSpine(op, u1) && r1 == u1.r
    modifies x
    ensures x.Valid() && Passed(old(x.nodes), x.nodes, op, t, ls, ls', top)
    ensures var p := Rect(op, Es(ls), i, i + |Leaves(op, u1)|, j, j + |Leaves(op, u2)|);
      Es(ls') == p.ls && x.transCount == old(x.transCount) + p.joins
    decreases D.Total(Es(ls)), 1, Size(E(u1)) + Size(E(u2)), 0
  {
    hide Layout, Passed, Own, With, SlotOf, StoreIn, D.Visit, D.Row, Rect, Sub, Es, Leaves;
    ghost var h := x.nodes;
    SubSplit(op, t, top, s1, u1, i);
    KindOf(u1);
    LeavesSplit(op, u1);
    ghost var k := i + |Leaves(op, u1.left)|;
    ghost var ls1 := PassOver(x, op, LeftOf(r1), s2, t, top, ls, u1.left, i, u2, j);
    ghost var h1 := x.nodes;
    PassedFacts(h, h1, op, t, ls, ls1, top);
    ls' := PassOver(x, op, RightOf(r1), s2, t, top, ls1, u1.right, k, u2, j);
    RectSplit(op, Es(ls), i, k, i + |Leaves(op, u1)|, j, j + |Leaves(op, u2)|);
    PassedTrans(h, h1, x.nodes, op, t, ls, ls1, ls', top);
  }

  // Only the second part branches.
  method PassSecond(x: Exprs, op: Op, r2: Ref, s1: Slot, ghost s2: Slot, ghost t: Tree, ghost top: Slot, ghost ls: seq<Tree>,
                    ghost u1: Tree, ghost i: nat, ghost u2: Tree, ghost j: nat)
    returns (ghost ls': seq<Tree>)
    requires x.Valid() && Layout(x.nodes, op, t, ls, top) && |ls| >= 2 && D.Slots(op, Es(ls))
    requires Sub(op, t, top, s1, u1, i) && Sub(op, t, top, s2, u2, j)
    requires i + |Leaves(op, u1)| <= |ls| && j + |Leaves(op, u2)| <= |ls|
    requires IsSpine(op, u2) && r2 == u2.r && !IsSpine(op, u1) && |Leaves(op, u1)| == 1
    modifies x
    ensures x.Valid() && Passed(old(x.nodes), x.nodes, op, t, ls, ls', top)
    ensures var p := Rect(op, Es(ls), i, i + |Leaves(op, u1)|, j, j + |Leaves(op, u2)|);
      Es(ls') == p.ls && x.transCount == old(x.transCount) + p.joins
    decreases D.Total(Es(ls)), 1, Size(E(u1)) + Size(E(u2)), 0
  {
    hide Layout, Passed, Own, With, SlotOf, StoreIn, D.Visit, D.Row, Rect, Sub, Es, Leaves;
    ghost var h := x.nodes;
    SubSplit(op, t, top, s2, u2, j);
    KindOf(u2);
    LeavesSplit(op, u2);
    ghost var k, n := j + |Leaves(op, u2.left)|, j + |Leaves(op, u2)|;
    ghost var ls1 := PassOver(x, op, s1, LeftOf(r2), t, top, ls, u1, i, u2.left, j);
    ghost var h1 := x.nodes;
    PassedFacts(h, h1, op, t, ls, ls1, top);
    ls' := PassOver(x, op, s1, RightOf(r2), t, top, ls1, u1, i, u2.right, k);
    OneRow(op, Es(ls), i, j, k);
    OneRow(op, Es(ls1), i, k, n);
    OneRow(op, Es(ls), i, j, n);
    RowSplit(op, Es(ls), i, j, k, n);
    PassedTrans(h, h1, x.nodes, op, t, ls, ls1, ls', top);
  }

  lemma LeavesSplit(op: Op, u: Tree)
    requires IsSpine(op, u)
    ensures |Leaves(op, u)| == |Leaves(op, u.left)| + |Leaves(op, u.right)|
  {
  }

  lemma PassedFacts(h: Nodes, h': Nodes, op: Op, t: Tree, ls: seq<Tree>, ls': seq<Tree>, top: Slot)
    requires Passed(h, h', op, t, ls, ls', top)
    ensures Layout(h', op, t, ls', top) && |ls'| == |ls| == |Leaves(op, t)| && D.Slots(op, Es(ls'))
  {
    hide Own, Replaced, With;
  }

  /** The node to which a pointer into the spine leads. */
  lemma PartFacts(h: Nodes, op: Op, t: Tree, ls: seq<Tree>, top: Slot, s: Slot, u: Tree, i: nat)
    requires Layout(h, op, t, ls, top) && Sub(op, t, top, s, u, i)
    ensures var r := Load(h, s);
      r in h && (IsSpine(op, u) <==> h[r].BinNode? && h[r].op == op) && (IsSpine(op, u) ==> r == u.r)
    ensures !IsSpine(op, u) ==> |Leaves(op, u)| == 1 && i < |ls| && s == SlotOf(op, t, top, i)
  {
    SubFits(op, t, top, s, u, i);
    SubLeads(h, op, t, ls, top, s, u, i);
    SpineOrLeaf(op, t, ls, u, i);
    hide With, Leaves, SlotOf, Sub;
    OwnRoot(h, With(op, u, ls[i..i + |Leaves(op, u)|]));
  }

  lemma OwnRoot(h: Nodes, t: Tree)
    requires Own(h, t)
    ensures t.r in h && h[t.r] == NodeOf(t)
  {
  }

  /** expr_eliminate_dups1 for a junction and itself, to which the pointer s leads. */
  method Dups1(x: Exprs, s: Slot, r: Ref, ghost t: Tree) returns (ghost t': Tree)
    requires x.Valid() && Own(x.nodes, t) && t.r == r && t.TBin? && Leads(x.nodes, s, t)
    modifies x
    ensures x.Valid() && Replaced(old(x.nodes), x.nodes, t, t') && t'.r == r
    ensures IsJunction(E(t)) && E(t') == D.Dups1(E(t)).e && x.transCount == old(x.transCount) + D.Dups1(E(t)).joins
    decreases Size(E(t)), 2, 0
  {
    hide Replaced, Own, Leads, D.Rows, Rect, D.Rebuild, D.Leaves;
    ghost var op, ls := t.op, Leaves(t.op, t);
    OwnRoot(x.nodes, t);
    KindOf(t);
    LeavesAre(op, t);
    WithSame(op, t);
    SlotsOfLeaves(op, E(t));
    RowsAreRect(op, Es(ls), 0);
    ghost var ls' := PassOver(x, x.nodes[r].op, s, s, t, s, ls, t, 0, t, 0);
    t' := With(op, t, ls');
    WithIsRebuild(op, t, ls');
  }

  lemma SlotsOfLeaves(op: Op, e: Expr)
    requires IsOp(op, e)
    ensures D.Slots(op, D.Leaves(op, e)) && |D.Leaves(op, e)| >= 2 && D.Total(D.Leaves(op, e)) < Size(e)
  {
  }

  /** expr_eliminate_dups: passes are made, with y and n eliminated in between, until one joins
      nothing. */
  method EliminateDups(x: Exprs, r: Ref, ghost t: Tree) returns (ghost t': Tree)
    requires x.Valid() && Own(x.nodes, t) && t.r == r
    modifies x
    ensures x.Valid() && Replaced(old(x.nodes), x.nodes, t, t') && t'.r == r && E(t') == D.EliminateDups(E(t))
    ensures x.transCount == old(x.transCount)
  {
    hide Replaced, Own, D.Dups1, Eliminate.EliminateYn;
    var oldCount := x.transCount;
    ghost var h := x.nodes;
    t' := t;
    ReplacedSelf(h, t);
    while true
      invariant x.Valid() && Own(x.nodes, t') && t'.r == r && Replaced(h, x.nodes, t, t')
      invariant D.EliminateDups(E(t')) == D.EliminateDups(E(t))
      decreases Size(E(t'))
    {
      KindOf(t');
      OwnRoot(x.nodes, t');
      x.transCount := 0;
      ghost var h1, t1 := x.nodes, t';
      ReplacedSelf(h1, t1);
      if x.nodes[r].BinNode? {
        t' := Dups1(x, Local(r), r, t1);
        ReplacedTrans(h, h1, x.nodes, t, t1, t');
        ReplacedOwn(h, x.nodes, t, t');
      }
      if x.transCount == 0 {
        break;
      }
      D.Dups1Marks(E(t1));
      EliminateYnComplete(E(t'));
      ghost var h2, t2 := x.nodes, t';
      t' := x.EliminateYn(r, t2);
      ReplacedTrans(h, h2, x.nodes, t, t2, t');
      ReplacedOwn(h, x.nodes, t, t');
    }
    x.transCount := oldCount;
  }
}
