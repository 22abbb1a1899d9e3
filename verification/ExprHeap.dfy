// The rewritings of expr.c as the program makes them: on nodes that are overwritten, allocated and
// freed. Every method leaves an expression that the function of the same name computes, frees every
// node it drops, and touches no other node.
module ExprHeap {
  import opened Expr
  import opened Eliminate
  import Tr = Transform

  type Ref = nat

  /** struct expr. The left operand of a NOT is its argument. */
  datatype Node =
    | SymNode(sym: Sym)
    | CmpNode(rel: Rel, a: Sym, b: Sym)
    | NotNode(arg: Ref)
    | BinNode(op: Op, left: Ref, right: Ref)

  type Nodes = map<Ref, Node>

  /** An expression together with the nodes it is made of. */
  datatype Tree =
    | TSym(r: Ref, sym: Sym)
    | TCmp(r: Ref, rel: Rel, a: Sym, b: Sym)
    | TNot(r: Ref, arg: Tree)
    | TBin(r: Ref, op: Op, left: Tree, right: Tree)

  function E(t: Tree): Expr {
    match t
    case TSym(_, s) => Symbol(s)
    case TCmp(_, rel, a, b) => Cmp(rel, a, b)
    case TNot(_, x) => Not(E(x))
    case TBin(_, op, l, r) => Join(op, E(l), E(r))
  }

  function Refs(t: Tree): set<Ref> {
    {t.r} + (match t
             case TNot(_, x) => Refs(x)
             case TBin(_, _, l, r) => Refs(l) + Refs(r)
             case _ => {})
  }

  // No node occurs twice.
  predicate Proper(t: Tree) {
    match t
    case TNot(r, x) => r !in Refs(x) && Proper(x)
    case TBin(r, _, a, b) => r !in Refs(a) && r !in Refs(b) && Refs(a) !! Refs(b) && Proper(a) && Proper(b)
    case _ => true
  }

  function NodeOf(t: Tree): Node {
    match t
    case TSym(_, s) => SymNode(s)
    case TCmp(_, rel, a, b) => CmpNode(rel, a, b)
    case TNot(_, x) => NotNode(x.r)
    case TBin(_, op, l, r) => BinNode(op, l.r, r.r)
  }

  // The nodes of t are allocated and linked as t says.
  predicate Holds(h: Nodes, t: Tree) {
    t.r in h && h[t.r] == NodeOf(t) &&
    match t
    case TNot(_, x) => Holds(h, x)
    case TBin(_, _, l, r) => Holds(h, l) && Holds(h, r)
    case _ => true
  }

  predicate Own(h: Nodes, t: Tree) {
    Proper(t) && Holds(h, t)
  }

  /** From h to h' the expression t was replaced by t': the nodes of t that are not part of t' were
      freed, its other nodes are new, and no other node changed. */
  ghost predicate Replaced(h: Nodes, h': Nodes, t: Tree, t': Tree) {
    Own(h', t') && Frame(h, h', Refs(t), Refs(t'))
  }

  /** From h to h' the nodes in gone were freed or overwritten, and now those in come are used instead;
      all other nodes are as they were. */
  ghost predicate Frame(h: Nodes, h': Nodes, gone: set<Ref>, come: set<Ref>) {
    (forall q: Ref :: q in h' <==> (q in h && q !in gone) || q in come) &&
    forall q: Ref :: q in h && q !in gone ==> q !in come && h'[q] == h[q]
  }

  lemma {:induction false} HoldsFrame(h: Nodes, h': Nodes, t: Tree)
    requires Holds(h, t) && forall q <- Refs(t) :: q in h && q in h' && h'[q] == h[q]
    ensures Holds(h', t)
  {
    match t
    case TNot(_, x) => HoldsFrame(h, h', x);
    case TBin(_, _, l, r) => HoldsFrame(h, h', l); HoldsFrame(h, h', r);
    case _ =>
  }

  lemma {:induction false} HoldsIn(h: Nodes, t: Tree)
    requires Holds(h, t)
    ensures Refs(t) <= h.Keys
  {
    match t
    case TNot(_, x) => HoldsIn(h, x);
    case TBin(_, _, l, r) => HoldsIn(h, l); HoldsIn(h, r);
    case _ =>
  }

  lemma ReplacedSelf(h: Nodes, t: Tree)
    requires Own(h, t)
    ensures Replaced(h, h, t, t)
  {
    HoldsIn(h, t);
  }

  lemma ReplacedTrans(h: Nodes, h1: Nodes, h2: Nodes, t: Tree, t1: Tree, t2: Tree)
    requires Replaced(h, h1, t, t1) && Replaced(h1, h2, t1, t2)
    ensures Replaced(h, h2, t, t2)
  {
    hide Own, Refs;
  }

  // An expression elsewhere is not affected.
  lemma OwnElsewhere(h: Nodes, h': Nodes, t: Tree, t': Tree, x: Tree)
    requires Replaced(h, h', t, t') && Own(h, x) && Refs(x) !! Refs(t)
    ensures Own(h', x) && Refs(x) !! Refs(t')
  {
    HoldsIn(h, x);
    HoldsFrame(h, h', x);
  }

  // The argument of a NOT is replaced, and the link to it updated.
  lemma ReplacedArg(h: Nodes, h1: Nodes, r: Ref, x: Tree, x1: Tree)
    requires Own(h, TNot(r, x)) && Replaced(h, h1, x, x1)
    ensures r in h1 && Replaced(h, h1[r := NotNode(x1.r)], TNot(r, x), TNot(r, x1))
  {
    var h2 := h1[r := NotNode(x1.r)];
    HoldsIn(h, TNot(r, x));
    HoldsFrame(h1, h2, x1);
  }

  // The left operand is replaced, and the link to it updated.
  lemma ReplacedLeft(h: Nodes, h1: Nodes, r: Ref, op: Op, a: Tree, b: Tree, a1: Tree)
    requires Own(h, TBin(r, op, a, b)) && Replaced(h, h1, a, a1)
    ensures r in h1 && Replaced(h, h1[r := BinNode(op, a1.r, b.r)], TBin(r, op, a, b), TBin(r, op, a1, b))
  {
    var h2 := h1[r := BinNode(op, a1.r, b.r)];
    HoldsIn(h, TBin(r, op, a, b));
    OwnElsewhere(h, h1, a, a1, b);
    HoldsFrame(h1, h2, a1);
    HoldsFrame(h1, h2, b);
  }

  lemma ReplacedRight(h: Nodes, h1: Nodes, r: Ref, op: Op, a: Tree, b: Tree, b1: Tree)
    requires Own(h, TBin(r, op, a, b)) && Replaced(h, h1, b, b1)
    ensures r in h1 && Replaced(h, h1[r := BinNode(op, a.r, b1.r)], TBin(r, op, a, b), TBin(r, op, a, b1))
  {
    var h2 := h1[r := BinNode(op, a.r, b1.r)];
    HoldsIn(h, TBin(r, op, a, b));
    OwnElsewhere(h, h1, b, b1, a);
    HoldsFrame(h1, h2, b1);
    HoldsFrame(h1, h2, a);
  }

  // The same expression with its root at r.
  function MovedTo(t: Tree, r: Ref): Tree {
    match t
    case TSym(_, s) => TSym(r, s)
    case TCmp(_, rel, a, b) => TCmp(r, rel, a, b)
    case TNot(_, x) => TNot(r, x)
    case TBin(_, op, a, b) => TBin(r, op, a, b)
  }

  // A junction is overwritten by the symbol s, and its operands are freed.
  lemma Collapse(h: Nodes, h': Nodes, t: Tree, s: Sym)
    requires Own(h, t) && t.TBin?
    requires h' == (h - Refs(t.left) - Refs(t.right))[t.r := SymNode(s)]
    ensures Replaced(h, h', t, TSym(t.r, s))
  {
    HoldsIn(h, t);
  }

  // A junction is overwritten by its operand x, and the other operand y is freed.
  lemma TakeOver(h: Nodes, h': Nodes, t: Tree, x: Tree, y: Tree)
    requires Own(h, t) && t.TBin? && ((x == t.left && y == t.right) || (x == t.right && y == t.left))
    requires x.r in h && h' == (h - Refs(y))[t.r := h[x.r]] - {x.r}
    ensures Replaced(h, h', t, MovedTo(x, t.r)) && E(MovedTo(x, t.r)) == E(x)
  {
    BinRefs(t, x, y);
    OwnBin(h, t);
    OwnIn(h, x);
    OwnIn(h, y);
    MovedRefs(x, t.r);
    hide Refs, Own;
    FrameOfMove(h, h', t.r, x.r, Refs(x), Refs(y));
    FrameEqual(h, h', {t.r} + Refs(x) + Refs(y), {t.r} + (Refs(x) - {x.r}), Refs(t), Refs(MovedTo(x, t.r)));
    MovedOwn(h, h', x, t.r);
  }

  lemma FrameOfMove(h: Nodes, h': Nodes, r: Ref, q: Ref, x: set<Ref>, y: set<Ref>)
    requires q in h && h' == (h - y)[r := h[q]] - {q}
    requires r in h && q in x && x <= h.Keys && y <= h.Keys && x !! y && r !in x && r !in y
    ensures Frame(h, h', {r} + x + y, {r} + (x - {q})) && r in h' && h'[r] == h[q]
    ensures forall p <- x - {q} :: p in h' && h'[p] == h[p]
  {
  }

  lemma MovedRefs(x: Tree, r: Ref)
    requires Proper(x)
    ensures Refs(MovedTo(x, r)) == {r} + (Refs(x) - {x.r}) && E(MovedTo(x, r)) == E(x) && x.r in Refs(x)
  {
  }

  lemma MovedOwn(h: Nodes, h': Nodes, x: Tree, r: Ref)
    requires Own(h, x) && r in h' && x.r in h && h'[r] == h[x.r] && r !in Refs(x)
    requires forall q <- Refs(x) - {x.r} :: q in h && q in h' && h'[q] == h[q]
    ensures Own(h', MovedTo(x, r))
  {
    MoveFrame(h, h', x);
  }

  lemma MoveFrame(h: Nodes, h': Nodes, x: Tree)
    requires Own(h, x)
    requires forall q <- Refs(x) - {x.r} :: q in h && q in h' && h'[q] == h[q]
    ensures x.TNot? ==> Own(h', x.arg)
    ensures x.TBin? ==> Own(h', x.left) && Own(h', x.right)
  {
    match x
    case TNot(_, z) => HoldsFrame(h, h', z);
    case TBin(_, _, a, b) => HoldsFrame(h, h', a); HoldsFrame(h, h', b);
    case _ =>
  }

  /** From h to h' the expression t was allocated, and nothing else changed. */
  ghost predicate Added(h: Nodes, h': Nodes, t: Tree) {
    Own(h', t) && Frame(h, h', {}, Refs(t))
  }

  lemma AddLeaf(h: Nodes, t: Tree)
    requires t.r !in h && (t.TSym? || t.TCmp?)
    ensures Added(h, h[t.r := NodeOf(t)], t)
  {
  }

  lemma AddNot(h: Nodes, h1: Nodes, x: Tree, r: Ref)
    requires Added(h, h1, x) && r !in h1
    ensures Added(h, h1[r := NotNode(x.r)], TNot(r, x))
  {
    HoldsFrame(h1, h1[r := NotNode(x.r)], x);
  }

  lemma AddBin(h: Nodes, h1: Nodes, h2: Nodes, op: Op, a: Tree, b: Tree, r: Ref)
    requires Added(h, h1, a) && Added(h1, h2, b) && r !in h2
    ensures Added(h, h2[r := BinNode(op, a.r, b.r)], TBin(r, op, a, b))
  {
    var h3 := h2[r := BinNode(op, a.r, b.r)];
    HoldsFrame(h1, h3, a);
    HoldsFrame(h2, h3, b);
  }

  lemma AddedKeeps(h: Nodes, h': Nodes, t: Tree, x: Tree)
    requires Added(h, h', t) && Own(h, x)
    ensures Own(h', x)
  {
    HoldsIn(h, x);
    HoldsFrame(h, h', x);
  }

  class Exprs {
    var nodes: Nodes
    var top: nat
    var transCount: nat

    constructor ()
      ensures nodes == map[] && Valid() && transCount == 0
    {
      nodes, top, transCount := map[], 0, 0;
    }

    // New nodes are allocated above all others.
    predicate Valid()
      reads this
    {
      forall r <- nodes :: r < top
    }

    method Alloc(node: Node) returns (r: Ref)
      requires Valid()
      modifies this`nodes, this`top
      ensures Valid() && r !in old(nodes) && r == old(top) && nodes == old(nodes)[r := node]
    {
      r := top;
      nodes := nodes[r := node];
      top := top + 1;
    }

    method Free(r: Ref)
      requires Valid() && r in nodes
      modifies this`nodes
      ensures Valid() && nodes == old(nodes) - {r}
    {
      nodes := nodes - {r};
    }

    // A node is overwritten.
    method Write(r: Ref, node: Node)
      requires Valid() && r in nodes
      modifies this`nodes
      ensures Valid() && nodes == old(nodes)[r := node]
    {
      nodes := nodes[r := node];
    }

    /** expr_free. */
    method FreeTree(r: Ref, ghost t: Tree)
      requires Valid() && Own(nodes, t) && t.r == r
      modifies this`nodes
      ensures Valid() && nodes == old(nodes) - Refs(t)
      decreases t
    {
      HoldsIn(nodes, t);
      match nodes[r] {
        case NotNode(x) =>
          FreeTree(x, t.arg);
        case BinNode(_, a, b) =>
          ghost var h := nodes;
          FreeTree(a, t.left);
          HoldsFrame(h, nodes, t.right);
          FreeTree(b, t.right);
        case _ =>
      }
      Free(r);
    }

    /** expr_copy. */
    method Copy(r: Ref, ghost t: Tree) returns (r': Ref, ghost t': Tree)
      requires Valid() && Own(nodes, t) && t.r == r
      modifies this`nodes, this`top
      ensures Valid() && t'.r == r' && E(t') == E(t) && Added(old(nodes), nodes, t')
      decreases t
    {
      hide Added;
      ghost var h := nodes;
      match nodes[r] {
        case NotNode(x) =>
          var y, ty := Copy(x, t.arg);
          ghost var h1 := nodes;
          r' := Alloc(NotNode(y));
          t' := TNot(r', ty);
          AddNot(h, h1, ty, r');
        case BinNode(op, a, b) =>
          var c, tc := Copy(a, t.left);
          ghost var h1 := nodes;
          AddedKeeps(h, h1, tc, t.right);
          var d, td := Copy(b, t.right);
          ghost var h2 := nodes;
          r' := Alloc(BinNode(op, c, d));
          t' := TBin(r', op, tc, td);
          AddBin(h, h1, h2, op, tc, td, r');
        case SymNode(s) =>
          r' := Alloc(SymNode(s));
          t' := TSym(r', s);
          AddLeaf(h, t');
        case CmpNode(rel, a, b) =>
          r' := Alloc(CmpNode(rel, a, b));
          t' := TCmp(r', rel, a, b);
          AddLeaf(h, t');
      }
    }

    /** expr_eliminate_yn. */
    method EliminateYn(r: Ref, ghost t: Tree) returns (ghost t': Tree)
      requires Valid() && Own(nodes, t) && t.r == r
      modifies this`nodes
      ensures Valid() && Replaced(old(nodes), nodes, t, t') && t'.r == r && E(t') == Eliminate.EliminateYn(E(t))
      decreases t, 2
    {
      t' := t;
      match nodes[r] {
        case BinNode(op, _, _) =>
          t' := EliminateOperands(r, t);

        case _ =>
          ReplacedSelf(nodes, t);
      }
    }

    // A junction: first the operands, then y and n among them.
    method EliminateOperands(r: Ref, ghost t: Tree) returns (ghost t': Tree)
      requires Valid() && Own(nodes, t) && t.r == r && t.TBin?
      modifies this`nodes
      ensures Valid() && Replaced(old(nodes), nodes, t, t') && t'.r == r && E(t') == Eliminate.EliminateYn(E(t))
      decreases t, 1
    {
      ghost var h0 := nodes;
      ghost var t1 := EliminateBoth(r, t);
      ghost var h1 := nodes;
      ReplacedOwn(h0, h1, t, t1);
      hide Replaced, Own, Eliminate.EliminateYn;
      OwnBin(h1, t1);
      var e := nodes[r];
      var left, right := nodes[e.left], nodes[e.right];
      var zero, unit := if e.op.AndOp? then SYM_NO else SYM_YES, if e.op.AndOp? then SYM_YES else SYM_NO;
      EliminateYnOfJoin(E(t), E(t1));
      SymNodeIs(t1.left);
      SymNodeIs(t1.right);
      if left == SymNode(zero) || (left != SymNode(unit) && right == SymNode(zero)) {
        CollapseTo(r, zero, t1);
        t' := TSym(r, zero);
      } else if left == SymNode(unit) {
        TakeOperand(r, e.right, e.left, t1, t1.right, t1.left);
        t' := MovedTo(t1.right, r);
      } else if right == SymNode(unit) {
        TakeOperand(r, e.left, e.right, t1, t1.left, t1.right);
        t' := MovedTo(t1.left, r);
      } else {
        t' := t1;
        ReplacedSelf(h1, t1);
      }
      ReplacedTrans(h0, h1, nodes, t, t1, t');
    }

    method CollapseTo(r: Ref, s: Sym, ghost t: Tree)
      requires Valid() && Own(nodes, t) && t.r == r && t.TBin?
      modifies this`nodes
      ensures Valid() && Replaced(old(nodes), nodes, t, TSym(r, s))
    {
      hide Replaced, Own;
      ghost var h := nodes;
      OwnBin(h, t);
      var e := nodes[r];
      FreeTree(e.left, t.left);
      OwnAfterFree(h, nodes, t.left, t.right);
      FreeTree(e.right, t.right);
      Write(r, SymNode(s));
      Collapse(h, nodes, t, s);
    }

    // The operand y, a symbol, is freed, and the other one is moved up.
    method TakeOperand(r: Ref, x: Ref, y: Ref, ghost t: Tree, ghost tx: Tree, ghost ty: Tree)
      requires Valid() && Own(nodes, t) && t.r == r && t.TBin? && tx.r == x && ty.r == y && ty.TSym?
      requires (tx == t.left && ty == t.right) || (tx == t.right && ty == t.left)
      modifies this`nodes
      ensures Valid() && Replaced(old(nodes), nodes, t, MovedTo(tx, r)) && E(MovedTo(tx, r)) == E(tx)
    {
      hide Replaced, Own;
      ghost var h := nodes;
      OwnBin(h, t);
      Free(y);
      Write(r, nodes[x]);
      Free(x);
      assert Refs(ty) == {y};
      TakeOver(h, nodes, t, tx, ty);
    }

    method EliminateBoth(r: Ref, ghost t: Tree) returns (ghost t': Tree)
      requires Valid() && Own(nodes, t) && t.r == r && t.TBin?
      modifies this`nodes
      ensures Valid() && Replaced(old(nodes), nodes, t, t') && t'.r == r && t'.TBin? && t'.op == t.op
      ensures E(t'.left) == Eliminate.EliminateYn(E(t.left)) && E(t'.right) == Eliminate.EliminateYn(E(t.right))
      decreases t, 0
    {
      hide Replaced, Own;
      ghost var h0 := nodes;
      OwnBin(h0, t);
      var e := nodes[r];
      ghost var a := EliminateYn(e.left, t.left);
      ReplacedLeft(h0, nodes, r, t.op, t.left, t.right, a);
      Write(r, BinNode(e.op, e.left, e.right));
      ghost var h1 := nodes;
      ghost var t1 := TBin(r, t.op, a, t.right);
      ReplacedOwn(h0, h1, t, t1);
      OwnBin(h1, t1);
      ghost var b := EliminateYn(e.right, t.right);
      ReplacedRight(h1, nodes, r, t.op, a, t.right, b);
      Write(r, BinNode(e.op, e.left, e.right));
      t' := TBin(r, t.op, a, b);
      ReplacedTrans(h0, h1, nodes, t, t1, t');
    }

    /** expr_transform. It may return another node than it was given. */
    method Transform(r: Ref, ghost t: Tree) returns (r': Ref, ghost t': Tree)
      requires Valid() && Own(nodes, t) && t.r == r
      modifies this`nodes, this`top
      ensures Valid() && Replaced(old(nodes), nodes, t, t') && t'.r == r' && E(t') == Tr.Transform(E(t))
      decreases Tr.Weight(E(t)), 1
    {
      ghost var h := nodes;
      match nodes[r] {
        case SymNode(_) =>
          r', t' := r, t;
          ReplacedSelf(h, t);
        case CmpNode(rel, a, b) =>
          r' := r;
          t' := TransformTest(r, rel, a, b, t);
        case BinNode(_, _, _) =>
          r' := r;
          t' := TransformBoth(r, t);
        case NotNode(x) =>
          WeightOfNot(E(t.arg));
          var y, ty := Transform(x, t.arg);
          ReplacedArg(h, nodes, r, t.arg, ty);
          Write(r, NotNode(y));
          ghost var h1, t1 := nodes, TNot(r, ty);
          ReplacedOwn(h, h1, t, t1);
          r', t' := TransformNot(r, t1, Tr.Weight(E(t)));
          ReplacedTrans(h, h1, nodes, t, t1, t');
      }
    }

    // A junction: both operands.
    method TransformBoth(r: Ref, ghost t: Tree) returns (ghost t': Tree)
      requires Valid() && Own(nodes, t) && t.r == r && t.TBin?
      modifies this`nodes, this`top
      ensures Valid() && Replaced(old(nodes), nodes, t, t') && t'.r == r && E(t') == Tr.Transform(E(t))
      decreases Tr.Weight(E(t)), 0
    {
      hide Replaced, Own;
      ghost var h := nodes;
      OwnBin(h, t);
      var e := nodes[r];
      var a, ta := Transform(e.left, t.left);
      ReplacedLeft(h, nodes, r, t.op, t.left, t.right, ta);
      Write(r, BinNode(e.op, a, e.right));
      ghost var h1, t1 := nodes, TBin(r, t.op, ta, t.right);
      ReplacedOwn(h, h1, t, t1);
      OwnBin(h1, t1);
      var b, tb := Transform(e.right, t.right);
      ReplacedRight(h1, nodes, r, t.op, ta, t.right, tb);
      Write(r, BinNode(e.op, a, b));
      t' := TBin(r, t.op, ta, tb);
      ReplacedTrans(h, h1, nodes, t, t1, t');
    }

    // A comparison: a test of a bool against n, m or y is rewritten in its node.
    method TransformTest(r: Ref, rel: Rel, a: Sym, b: Sym, ghost t: Tree) returns (ghost t': Tree)
      requires Valid() && Own(nodes, t) && t == TCmp(r, rel, a, b)
      modifies this`nodes, this`top
      ensures Valid() && Replaced(old(nodes), nodes, t, t') && t'.r == r && E(t') == Tr.Transform(E(t))
      decreases Tr.Weight(E(t)), 0
    {
      t' := t;
      if (rel.Eq? || rel.Ne?) && TypeOf(a).Boolean? {
        if b == SYM_NO || b == SYM_YES {
          if rel.Eq? == (b == SYM_YES) {
            Write(r, SymNode(a));
            t' := TSym(r, a);
          } else {
            var s := Alloc(SymNode(a));
            Write(r, NotNode(s));
            t' := TNot(r, TSym(s, a));
          }
        } else if b == SYM_MOD {
          t' := TSym(r, if rel.Eq? then SYM_NO else SYM_YES);
          Write(r, SymNode(if rel.Eq? then SYM_NO else SYM_YES));
        }
      }
    }

    // A NOT whose argument was transformed already.
    method TransformNot(r: Ref, ghost t: Tree, ghost w: nat) returns (r': Ref, ghost t': Tree)
      requires Valid() && Own(nodes, t) && t.r == r && t.TNot? && Tr.Weight(E(t)) <= w
      modifies this`nodes, this`top
      ensures Valid() && Replaced(old(nodes), nodes, t, t') && t'.r == r' && E(t') == TransformedNot(E(t.arg))
      decreases w, 0
    {
      hide Replaced, Tr.Transform;
      ghost var h := nodes;
      OwnNot(h, t);
      var x := nodes[r].arg;
      match nodes[x] {
        case NotNode(a) =>
          Free(x);
          Free(r);
          UnNot(h, nodes, t);
          ghost var h1 := nodes;
          ReplacedOwn(h, h1, t, t.arg.arg);
          r', t' := Transform(a, t.arg.arg);
          ReplacedTrans(h, h1, nodes, t, t.arg.arg, t');
        case CmpNode(rel, a, b) =>
          Free(r);
          Write(x, CmpNode(Tr.FlipRel(rel), a, b));
          r', t' := x, TCmp(x, Tr.FlipRel(rel), a, b);
          UnNotLeaf(h, nodes, t, t');
        case BinNode(op, a, b) =>
          assert r in h && x in h;
          var n := Alloc(NotNode(b));
          Write(r, BinNode(Other(op), x, n));
          Write(x, NotNode(a));
          ghost var h1, t1 := nodes, TBin(r, Other(op), TNot(x, t.arg.left), TNot(n, t.arg.right));
          DeMorgan(h, h1, t, n);
          ReplacedOwn(h, h1, t, t1);
          assert E(t1) == Tr.Dual(E(t.arg));
          r', t' := Transform(r, t1);
          ReplacedTrans(h, h1, nodes, t, t1, t');
        case SymNode(s) =>
          if s == SYM_YES || s == SYM_MOD || s == SYM_NO {
            var s' := if s == SYM_YES then SYM_NO else if s == SYM_NO then SYM_YES else SYM_MOD;
            Free(r);
            Write(x, SymNode(s'));
            r', t' := x, TSym(x, s');
            UnNotLeaf(h, nodes, t, t');
          } else {
            r', t' := r, t;
            ReplacedSelf(h, t);
          }
      }
    }

    /** expr_trans_bool. */
    method TransBool(r: Ref, ghost t: Tree) returns (ghost t': Tree)
      requires Valid() && Own(nodes, t) && t.r == r
      modifies this`nodes
      ensures Valid() && Replaced(old(nodes), nodes, t, t') && t'.r == r && E(t') == Tr.TransBool(E(t))
      decreases t
    {
      ghost var h := nodes;
      t' := t;
      match nodes[r] {
        case NotNode(x) =>
          OwnNot(h, t);
          ghost var tx := TransBool(x, t.arg);
          ReplacedArg(h, nodes, r, t.arg, tx);
          Write(r, NotNode(x));
          t' := TNot(r, tx);
        case BinNode(op, a, b) =>
          OwnBin(h, t);
          ghost var ta := TransBool(a, t.left);
          ReplacedLeft(h, nodes, r, t.op, t.left, t.right, ta);
          Write(r, BinNode(op, a, b));
          ghost var h1, t1 := nodes, TBin(r, t.op, ta, t.right);
          ReplacedOwn(h, h1, t, t1);
          OwnBin(h1, t1);
          ghost var tb := TransBool(b, t.right);
          ReplacedRight(h1, nodes, r, t.op, ta, t.right, tb);
          Write(r, BinNode(op, a, b));
          t' := TBin(r, t.op, ta, tb);
          ReplacedTrans(h, h1, nodes, t, t1, t');
        case CmpNode(rel, a, b) =>
          ReplacedSelf(h, t);
          if rel.Ne? && TypeOf(a).Tri3? && b == SYM_NO {
            Write(r, SymNode(a));
            t' := TSym(r, a);
          }
        case SymNode(_) =>
          ReplacedSelf(h, t);
      }
    }

    /** __expr_eliminate_eq. A pointer to a pointer is modelled by the value read from it and the value
        written back, as the two expressions share no nodes. */
    method EliminateEqual(op: Op, r1: Ref, r2: Ref, ghost t1: Tree, ghost t2: Tree)
      returns (r1': Ref, r2': Ref, ghost t1': Tree, ghost t2': Tree)
      requires Valid() && Pair(nodes, t1, t2) && t1.r == r1 && t2.r == r2
      modifies this
      ensures Valid() && PairReplaced(old(nodes), nodes, t1, t2, t1', t2') && t1'.r == r1' && t2'.r == r2'
      ensures var x := Eliminate.EliminateEqual(op, E(t1), E(t2));
        E(t1') == x.e1 && E(t2') == x.e2 && transCount == old(transCount) + |x.removed|
      decreases Size(E(t1)) + Size(E(t2)), if IsOp(op, E(t1)) || IsOp(op, E(t2)) then 0 else 3, 1
    {
      hide PairReplaced, Pair;
      PairParts(nodes, t1, t2);
      KindOf(t1);
      KindOf(t2);
      if nodes[r1].BinNode? && nodes[r1].op == op {
        r1', r2', t1', t2' := EliminateFirst(op, r1, r2, t1, t2);
      } else if nodes[r2].BinNode? && nodes[r2].op == op {
        r1', r2', t1', t2' := EliminateSecond(op, r1, r2, t1, t2);
      } else {
        r1', r2', t1', t2' := EliminateLeaves(op, r1, r2, t1, t2);
      }
    }

    // The first expression is a junction of the type given.
    method EliminateFirst(op: Op, r1: Ref, r2: Ref, ghost t1: Tree, ghost t2: Tree)
      returns (r1': Ref, r2': Ref, ghost t1': Tree, ghost t2': Tree)
      requires Valid() && Pair(nodes, t1, t2) && t1.r == r1 && t2.r == r2 && t1.TBin? && t1.op == op
      modifies this
      ensures Valid() && PairReplaced(old(nodes), nodes, t1, t2, t1', t2') && t1'.r == r1' && t2'.r == r2'
      ensures var x := Eliminate.EliminateEqual(op, E(t1), E(t2));
        E(t1') == x.e1 && E(t2') == x.e2 && transCount == old(transCount) + |x.removed|
      decreases Size(E(t1)) + Size(E(t2)), 0, 0
    {
      hide PairReplaced, Pair;
      ghost var h := nodes;
      PairParts(h, t1, t2);
      KindOf(t1);
      var e := nodes[r1];
      var a, b: Ref;
      ghost var ta, tb, tc;
      a, r2', ta, tc := EliminateEqual(op, e.left, r2, t1.left, t2);
      PairLeft(h, nodes, t1, t2, ta, tc);
      Write(r1, BinNode(op, a, e.right));
      ghost var h1, s1 := nodes, TBin(r1, op, ta, t1.right);
      PairOwn(h, h1, t1, t2, s1, tc);
      PairParts(h1, s1, tc);
      b, r2', tb, t2' := EliminateEqual(op, e.right, r2', t1.right, tc);
      PairRight(h1, nodes, s1, tc, tb, t2');
      Write(r1, BinNode(op, a, b));
      r1', t1' := r1, TBin(r1, op, ta, tb);
      PairTrans(h, h1, nodes, t1, t2, s1, tc, t1', t2');
      KindOf(t1');
    }

    // Only the second one is.
    method EliminateSecond(op: Op, r1: Ref, r2: Ref, ghost t1: Tree, ghost t2: Tree)
      returns (r1': Ref, r2': Ref, ghost t1': Tree, ghost t2': Tree)
      requires Valid() && Pair(nodes, t1, t2) && t1.r == r1 && t2.r == r2 && t2.TBin? && t2.op == op && !IsOp(op, E(t1))
      modifies this
      ensures Valid() && PairReplaced(old(nodes), nodes, t1, t2, t1', t2') && t1'.r == r1' && t2'.r == r2'
      ensures var x := Eliminate.EliminateEqual(op, E(t1), E(t2));
        E(t1') == x.e1 && E(t2') == x.e2 && transCount == old(transCount) + |x.removed|
      decreases Size(E(t1)) + Size(E(t2)), 0, 0
    {
      hide PairReplaced, Pair;
      ghost var h := nodes;
      PairParts(h, t1, t2);
      KindOf(t2);
      var e := nodes[r2];
      var a, b: Ref;
      ghost var ta, tb, tc;
      r1', a, tc, ta := EliminateEqual(op, r1, e.left, t1, t2.left);
      PairSwap(h, nodes, t1, t2.left, tc, ta);
      PairComm(h, t1, t2);
      PairLeft(h, nodes, t2, t1, ta, tc);
      Write(r2, BinNode(op, a, e.right));
      ghost var h1, s2 := nodes, TBin(r2, op, ta, t2.right);
      PairOwn(h, h1, t2, t1, s2, tc);
      PairComm(h1, s2, tc);
      PairParts(h1, tc, s2);
      r1', b, t1', tb := EliminateEqual(op, r1', e.right, tc, t2.right);
      PairSwap(h1, nodes, tc, t2.right, t1', tb);
      PairRight(h1, nodes, s2, tc, tb, t1');
      Write(r2, BinNode(op, a, b));
      r2', t2' := r2, TBin(r2, op, ta, tb);
      PairTrans(h, h1, nodes, t2, t1, s2, tc, t2', t1');
      PairSwap(h, nodes, t2, t1, t2', t1');
      KindOf(t2');
    }

    // Two operands are compared.
    method EliminateLeaves(op: Op, r1: Ref, r2: Ref, ghost t1: Tree, ghost t2: Tree)
      returns (r1': Ref, r2': Ref, ghost t1': Tree, ghost t2': Tree)
      requires Valid() && Pair(nodes, t1, t2) && t1.r == r1 && t2.r == r2 && !IsOp(op, E(t1)) && !IsOp(op, E(t2))
      modifies this
      ensures Valid() && PairReplaced(old(nodes), nodes, t1, t2, t1', t2') && t1'.r == r1' && t2'.r == r2'
      ensures var x := Eliminate.EliminateEqual(op, E(t1), E(t2));
        E(t1') == x.e1 && E(t2') == x.e2 && transCount == old(transCount) + |x.removed|
      decreases Size(E(t1)) + Size(E(t2)), 2, 1
    {
      hide PairReplaced;
      ghost var h := nodes;
      PairParts(h, t1, t2);
      SymNodeIs(t1);
      SymNodeIs(t2);
      r1', r2', t1', t2' := r1, r2, t1, t2;
      PairSelf(h, t1, t2);
      if nodes[r1] == nodes[r2] && (nodes[r1] == SymNode(SYM_YES) || nodes[r1] == SymNode(SYM_NO)) {
        return;
      }
      var eq := ExprEq(r1, r2, t1, t2);
      if !eq {
        return;
      }
      transCount := transCount + 1;
      var unit := if op.AndOp? then SYM_YES else SYM_NO;
      FreeTree(r1, t1);
      OwnAfterFree(h, nodes, t1, t2);
      FreeTree(r2, t2);
      ghost var h1 := nodes;
      r1' := Alloc(SymNode(unit));
      r2' := Alloc(SymNode(unit));
      t1', t2' := TSym(r1', unit), TSym(r2', unit);
      PairUnits(h, h1, nodes, t1, t2, t1', t2');
    }

    /** expr_eliminate_eq, for two expressions that are present. */
    method EliminateEq(r1: Ref, r2: Ref, ghost t1: Tree, ghost t2: Tree)
      returns (r1': Ref, r2': Ref, ghost t1': Tree, ghost t2': Tree)
      requires Valid() && Pair(nodes, t1, t2) && t1.r == r1 && t2.r == r2
      modifies this
      ensures Valid() && PairReplaced(old(nodes), nodes, t1, t2, t1', t2') && t1'.r == r1' && t2'.r == r2'
      ensures var x := Eliminate.EliminateEq(E(t1), E(t2)); E(t1') == x.e1 && E(t2') == x.e2
      decreases Size(E(t1)) + Size(E(t2)), 1, 1
    {
      hide PairReplaced, Pair, EliminatePasses, Eliminate.EliminateYn;
      ghost var h := nodes;
      ghost var u1, u2;
      r1', r2', u1, u2 := EliminatePassesOf(r1, r2, t1, t2);
      ghost var h2 := nodes;
      PairOwn(h, h2, t1, t2, u1, u2);
      t1' := EliminateYn(r1', u1);
      PairOne(h2, nodes, u1, u2, t1');
      PairTrans(h, h2, nodes, t1, t2, u1, u2, t1', u2);
      ghost var h3 := nodes;
      PairOwn(h, h3, t1, t2, t1', u2);
      PairComm(h3, t1', u2);
      t2' := EliminateYn(r2', u2);
      PairOne(h3, nodes, u2, t1', t2');
      PairSwap(h3, nodes, u2, t1', t2', t1');
      PairTrans(h, h3, nodes, t1, t2, t1', u2, t1', t2');
    }

    // The two passes of expr_eliminate_eq.
    method EliminatePassesOf(r1: Ref, r2: Ref, ghost t1: Tree, ghost t2: Tree)
      returns (r1': Ref, r2': Ref, ghost t1': Tree, ghost t2': Tree)
      requires Valid() && Pair(nodes, t1, t2) && t1.r == r1 && t2.r == r2
      modifies this
      ensures Valid() && PairReplaced(old(nodes), nodes, t1, t2, t1', t2') && t1'.r == r1' && t2'.r == r2'
      ensures var x := EliminatePasses(E(t1), E(t2)); E(t1') == x.e1 && E(t2') == x.e2
      decreases Size(E(t1)) + Size(E(t2)), 1, 0
    {
      hide PairReplaced, Pair, Eliminate.EliminateEqual;
      ghost var h := nodes;
      ghost var s1, s2;
      r1', r2', s1, s2 := FirstPass(r1, r2, t1, t2);
      ghost var h1 := nodes;
      PairOwn(h, h1, t1, t2, s1, s2);
      r1', r2', t1', t2' := SecondPass(r1', r2', s1, s2);
      PairTrans(h, h1, nodes, t1, t2, s1, s2, t1', t2');
    }

    // The pass under the operator of the first expression.
    method FirstPass(r1: Ref, r2: Ref, ghost t1: Tree, ghost t2: Tree)
      returns (r1': Ref, r2': Ref, ghost t1': Tree, ghost t2': Tree)
      requires Valid() && Pair(nodes, t1, t2) && t1.r == r1 && t2.r == r2
      modifies this
      ensures Valid() && PairReplaced(old(nodes), nodes, t1, t2, t1', t2') && t1'.r == r1' && t2'.r == r2'
      ensures var x := Eliminate.FirstPass(E(t1), E(t2));
        E(t1') == x.e1 && E(t2') == x.e2 && Size(E(t1')) + Size(E(t2')) <= Size(E(t1)) + Size(E(t2))
      decreases Size(E(t1)) + Size(E(t2)), 0, 5
    {
      hide PairReplaced, Pair, Eliminate.EliminateEqual;
      PairParts(nodes, t1, t2);
      KindOf(t1);
      r1', r2', t1', t2' := r1, r2, t1, t2;
      PairSelf(nodes, t1, t2);
      if nodes[r1].BinNode? {
        r1', r2', t1', t2' := EliminateEqual(nodes[r1].op, r1, r2, t1, t2);
      }
    }

    // The pass under the operator of the second expression, if it is another one.
    method SecondPass(r1: Ref, r2: Ref, ghost t1: Tree, ghost t2: Tree)
      returns (r1': Ref, r2': Ref, ghost t1': Tree, ghost t2': Tree)
      requires Valid() && Pair(nodes, t1, t2) && t1.r == r1 && t2.r == r2
      modifies this
      ensures Valid() && PairReplaced(old(nodes), nodes, t1, t2, t1', t2') && t1'.r == r1' && t2'.r == r2'
      ensures var x := Eliminate.SecondPass(E(t1), E(t2)); E(t1') == x.e1 && E(t2') == x.e2
      decreases Size(E(t1)) + Size(E(t2)), 0, 5
    {
      hide PairReplaced, Pair, Eliminate.EliminateEqual;
      PairParts(nodes, t1, t2);
      KindOf(t1);
      KindOf(t2);
      r1', r2', t1', t2' := r1, r2, t1, t2;
      PairSelf(nodes, t1, t2);
      if !SameType(nodes[r1], nodes[r2]) && nodes[r2].BinNode? {
        r1', r2', t1', t2' := EliminateEqual(nodes[r2].op, r1, r2, t1, t2);
      }
    }

    /** expr_eq: the copies made for the comparison are freed again. */
    method ExprEq(r1: Ref, r2: Ref, ghost t1: Tree, ghost t2: Tree) returns (res: bool)
      requires Valid() && Own(nodes, t1) && Own(nodes, t2) && t1.r == r1 && t2.r == r2
      modifies this
      ensures Valid() && nodes == old(nodes) && transCount == old(transCount)
      ensures res == Eliminate.ExprEq(E(t1), E(t2))
      decreases Size(E(t1)) + Size(E(t2)), 2, 0
    {
      if !SameType(nodes[r1], nodes[r2]) {
        return false;
      }
      match nodes[r1] {
        case SymNode(s) =>
          res := s == nodes[r2].sym;
        case CmpNode(rel, a, b) =>
          res := nodes[r1] == nodes[r2];
        case NotNode(x) =>
          res := ExprEq(x, nodes[r2].arg, t1.arg, t2.arg);
        case BinNode(_, _, _) =>
          res := JunctionEq(r1, r2, t1, t2);
      }
    }

    // expr_eq for two junctions of the same type.
    method JunctionEq(r1: Ref, r2: Ref, ghost t1: Tree, ghost t2: Tree) returns (res: bool)
      requires Valid() && Own(nodes, t1) && Own(nodes, t2) && t1.r == r1 && t2.r == r2
      requires t1.TBin? && t2.TBin? && t1.op == t2.op
      modifies this
      ensures Valid() && nodes == old(nodes) && transCount == old(transCount)
      ensures res == Eliminate.ExprEq(E(t1), E(t2))
      decreases Size(E(t1)) + Size(E(t2)), 1, 2
    {
      hide Added, PairReplaced, Pair, Eliminate.EliminateYn, EliminatePasses;
      ghost var h := nodes;
      var c1, s1 := Copy(r1, t1);
      ghost var h1 := nodes;
      AddedKeeps(h, h1, s1, t2);
      var c2, s2 := Copy(r2, t2);
      ghost var h2 := nodes;
      AddedPair(h, h1, h2, s1, s2);
      var oldCount := transCount;
      ghost var u1, u2;
      c1, c2, u1, u2 := EliminateEq(c1, c2, s1, s2);
      ghost var h3 := nodes;
      PairOwn(h2, h3, s1, s2, u1, u2);
      PairParts(h3, u1, u2);
      SymNodeIs(u1);
      SymNodeIs(u2);
      res := nodes[c1].SymNode? && nodes[c2].SymNode? && nodes[c1].sym == nodes[c2].sym;
      FreeTree(c1, u1);
      OwnAfterFree(h3, nodes, u1, u2);
      FreeTree(c2, u2);
      CopiesFreed(h, h1, h2, h3, nodes, s1, s2, u1, u2);
      transCount := oldCount;
    }
  }

  // ----- two expressions -----

  // t1 and t2 share no nodes.
  predicate Pair(h: Nodes, t1: Tree, t2: Tree) {
    Own(h, t1) && Own(h, t2) && Refs(t1) !! Refs(t2)
  }

  /** From h to h' the two expressions were replaced. */
  ghost predicate PairReplaced(h: Nodes, h': Nodes, t1: Tree, t2: Tree, t1': Tree, t2': Tree) {
    Pair(h', t1', t2') && Frame(h, h', Refs(t1) + Refs(t2), Refs(t1') + Refs(t2'))
  }

  predicate SameType(a: Node, b: Node) {
    match (a, b)
    case (SymNode(_), SymNode(_)) => true
    case (CmpNode(r1, _, _), CmpNode(r2, _, _)) => r1 == r2
    case (NotNode(_), NotNode(_)) => true
    case (BinNode(o1, _, _), BinNode(o2, _, _)) => o1 == o2
    case _ => false
  }

  lemma PairParts(h: Nodes, t1: Tree, t2: Tree)
    requires Pair(h, t1, t2)
    ensures t1.r in h && h[t1.r] == NodeOf(t1) && t2.r in h && h[t2.r] == NodeOf(t2)
    ensures Refs(t1) <= h.Keys && Refs(t2) <= h.Keys
    ensures t1.TBin? ==> Pair(h, t1.left, t2) && Pair(h, t1.right, t2)
    ensures t2.TBin? ==> Pair(h, t1, t2.left) && Pair(h, t1, t2.right)
  {
    HoldsIn(h, t1);
    HoldsIn(h, t2);
  }

  lemma PairComm(h: Nodes, t1: Tree, t2: Tree)
    ensures Pair(h, t1, t2) == Pair(h, t2, t1)
  {
  }

  lemma KindOf(t: Tree)
    ensures t.TBin? <==> IsJunction(E(t))
    ensures t.TBin? ==>
      OpOf(E(t)) == t.op && IsOp(t.op, E(t)) && !IsOp(Other(t.op), E(t)) && E(t).left == E(t.left) && E(t).right == E(t.right) &&
      Size(E(t)) == 1 + Size(E(t.left)) + Size(E(t.right))
  {
  }

  lemma PairSelf(h: Nodes, t1: Tree, t2: Tree)
    requires Pair(h, t1, t2)
    ensures PairReplaced(h, h, t1, t2, t1, t2)
  {
    HoldsIn(h, t1);
    HoldsIn(h, t2);
  }

  lemma PairOwn(h: Nodes, h': Nodes, t1: Tree, t2: Tree, t1': Tree, t2': Tree)
    requires PairReplaced(h, h', t1, t2, t1', t2')
    ensures Pair(h', t1', t2') && Own(h', t1') && Own(h', t2') && Refs(t1') !! Refs(t2')
  {
  }

  lemma PairSwap(h: Nodes, h': Nodes, t1: Tree, t2: Tree, t1': Tree, t2': Tree)
    requires PairReplaced(h, h', t1, t2, t1', t2')
    ensures PairReplaced(h, h', t2, t1, t2', t1')
  {
    hide Own;
  }

  lemma PairTrans(h: Nodes, h1: Nodes, h2: Nodes, t1: Tree, t2: Tree, s1: Tree, s2: Tree, u1: Tree, u2: Tree)
    requires PairReplaced(h, h1, t1, t2, s1, s2) && PairReplaced(h1, h2, s1, s2, u1, u2)
    ensures PairReplaced(h, h2, t1, t2, u1, u2)
  {
    hide Own, Refs;
  }

  // One operand of a junction, and with it the second expression, was replaced; x is the other
  // operand, y the replaced one, and n the new node of the junction.
  lemma PairOperand(h: Nodes, h1: Nodes, t1: Tree, t2: Tree, x: Tree, y: Tree, y': Tree, t2': Tree, n: Tree)
    requires Pair(h, t1, t2) && t1.TBin? && ((x == t1.right && y == t1.left) || (x == t1.left && y == t1.right))
    requires PairReplaced(h, h1, y, t2, y', t2') && n.TBin? && n.r == t1.r
    requires (n.left == x && n.right == y') || (n.left == y' && n.right == x)
    ensures n.r in h1 && PairReplaced(h, h1[n.r := NodeOf(n)], t1, t2, n, t2')
  {
    var h2 := h1[n.r := NodeOf(n)];
    PairParts(h, t1, t2);
    OwnBin(h, t1);
    PairOwn(h, h1, y, t2, y', t2');
    BinRefs(t1, x, y);
    BinRefs(n, x, y');
    OwnIn(h, x);
    var gone, come := Refs(y) + Refs(t2), Refs(y') + Refs(t2');
    FrameKeeps(h, h1, Refs(x) + {n.r}, gone, come);
    FrameOfBin(h, h1, n.r, NodeOf(n), Refs(x), gone, come);
    hide Own, Refs, Frame, NodeOf;
    FrameEqual(h, h2, {n.r} + Refs(x) + gone, {n.r} + Refs(x) + come, Refs(t1) + Refs(t2), Refs(n) + Refs(t2'));
    OwnFrame(h, h2, x);
    OwnIn(h1, y');
    OwnFrame(h1, h2, y');
    OwnIn(h1, t2');
    OwnFrame(h1, h2, t2');
    OwnOfBin(h2, n);
  }

  lemma BinRefs(t: Tree, x: Tree, y: Tree)
    requires t.TBin? && ((t.left == x && t.right == y) || (t.left == y && t.right == x))
    ensures Refs(t) == {t.r} + Refs(x) + Refs(y)
  {
  }

  lemma OwnOfBin(h: Nodes, n: Tree)
    requires n.TBin? && n.r in h && h[n.r] == NodeOf(n) && Own(h, n.left) && Own(h, n.right)
    requires Refs(n.left) !! Refs(n.right) && n.r !in Refs(n.left) + Refs(n.right)
    ensures Own(h, n)
  {
  }

  lemma OwnFrame(h: Nodes, h': Nodes, x: Tree)
    requires Own(h, x) && forall q <- Refs(x) :: q in h && q in h' && h'[q] == h[q]
    ensures Own(h', x)
  {
    HoldsFrame(h, h', x);
  }

  lemma FrameOfBin(h: Nodes, h1: Nodes, r: Ref, node: Node, x: set<Ref>, gone: set<Ref>, come: set<Ref>)
    requires Frame(h, h1, gone, come) && r in h && r !in gone && x <= h.Keys && x !! gone
    ensures Frame(h, h1[r := node], {r} + x + gone, {r} + x + come)
  {
  }

  lemma FrameEqual(h: Nodes, h1: Nodes, gone: set<Ref>, come: set<Ref>, gone': set<Ref>, come': set<Ref>)
    requires Frame(h, h1, gone, come) && gone == gone' && come == come'
    ensures Frame(h, h1, gone', come')
  {
  }

  lemma FrameKeeps(h: Nodes, h1: Nodes, x: set<Ref>, gone: set<Ref>, come: set<Ref>)
    requires Frame(h, h1, gone, come) && x <= h.Keys && x !! gone
    ensures x !! come && x <= h1.Keys && forall q <- x :: h1[q] == h[q]
  {
  }

  lemma OwnIn(h: Nodes, t: Tree)
    requires Own(h, t)
    ensures Refs(t) <= h.Keys
  {
    HoldsIn(h, t);
  }

  lemma PairLeft(h: Nodes, h1: Nodes, t1: Tree, t2: Tree, a: Tree, t2': Tree)
    requires Pair(h, t1, t2) && t1.TBin? && PairReplaced(h, h1, t1.left, t2, a, t2')
    ensures t1.r in h1
    ensures PairReplaced(h, h1[t1.r := BinNode(t1.op, a.r, t1.right.r)], t1, t2, TBin(t1.r, t1.op, a, t1.right), t2')
  {
    PairOperand(h, h1, t1, t2, t1.right, t1.left, a, t2', TBin(t1.r, t1.op, a, t1.right));
  }

  lemma PairRight(h: Nodes, h1: Nodes, t1: Tree, t2: Tree, b: Tree, t2': Tree)
    requires Pair(h, t1, t2) && t1.TBin? && PairReplaced(h, h1, t1.right, t2, b, t2')
    ensures t1.r in h1
    ensures PairReplaced(h, h1[t1.r := BinNode(t1.op, t1.left.r, b.r)], t1, t2, TBin(t1.r, t1.op, t1.left, b), t2')
  {
    PairOperand(h, h1, t1, t2, t1.left, t1.right, b, t2', TBin(t1.r, t1.op, t1.left, b));
  }

  // Both expressions are freed and replaced by symbols.
  lemma PairUnits(h: Nodes, h1: Nodes, h': Nodes, t1: Tree, t2: Tree, u1: Tree, u2: Tree)
    requires Pair(h, t1, t2) && u1.TSym? && u2.TSym?
    requires h1.Keys == h.Keys - Refs(t1) - Refs(t2) && (forall q <- h1 :: q in h && h1[q] == h[q])
    requires u1.r !in h1 && u2.r !in h1 && u1.r != u2.r && h' == h1[u1.r := NodeOf(u1)][u2.r := NodeOf(u2)]
    ensures PairReplaced(h, h', t1, t2, u1, u2)
  {
    HoldsIn(h, t1);
    HoldsIn(h, t2);
  }

  lemma PairOne(h: Nodes, h': Nodes, t1: Tree, t2: Tree, t1': Tree)
    requires Pair(h, t1, t2) && Replaced(h, h', t1, t1')
    ensures PairReplaced(h, h', t1, t2, t1', t2)
  {
    OwnElsewhere(h, h', t1, t1', t2);
    HoldsIn(h, t2);
    HoldsIn(h', t2);
  }

  lemma AddedPair(h: Nodes, h1: Nodes, h2: Nodes, s1: Tree, s2: Tree)
    requires Added(h, h1, s1) && Added(h1, h2, s2)
    ensures Pair(h2, s1, s2)
  {
    AddedKeeps(h1, h2, s2, s1);
    HoldsIn(h1, s1);
  }

  lemma CopiesFreed(h: Nodes, h1: Nodes, h2: Nodes, h3: Nodes, h4: Nodes, s1: Tree, s2: Tree, u1: Tree, u2: Tree)
    requires Added(h, h1, s1) && Added(h1, h2, s2) && PairReplaced(h2, h3, s1, s2, u1, u2)
    requires h4 == h3 - Refs(u1) - Refs(u2)
    ensures h4 == h
  {
    hide Own;
    assert h4.Keys == h.Keys;
  }

  // The negation of an expression that was transformed.
  function TransformedNot(x: Expr): Expr {
    match x
    case Not(a) => Tr.Transform(a)
    case Cmp(rel, a, b) => Cmp(Tr.FlipRel(rel), a, b)
    case Or(a, b) => Tr.Transform(Tr.Dual(x))
    case And(a, b) => Tr.Transform(Tr.Dual(x))
    case Symbol(s) =>
      if s == SYM_YES then Symbol(SYM_NO)
      else if s == SYM_MOD then Symbol(SYM_MOD)
      else if s == SYM_NO then Symbol(SYM_YES)
      else Not(x)
  }

  lemma WeightOfNot(x: Expr)
    ensures Tr.Weight(Not(x)) == 2 * Tr.Weight(x) > Tr.Weight(x)
    ensures Tr.Transform(Not(x)) == TransformedNot(Tr.Transform(x)) && Tr.Weight(Tr.Transform(x)) <= Tr.Weight(x)
  {
  }

  lemma OwnNot(h: Nodes, t: Tree)
    requires Own(h, t) && t.TNot?
    ensures t.r in h && h[t.r] == NodeOf(t) && t.arg.r in h && h[t.arg.r] == NodeOf(t.arg)
    ensures Own(h, t.arg) && t.r !in Refs(t.arg) && t.r != t.arg.r
  {
    assert t.arg.r in Refs(t.arg);
    assert Holds(h, t.arg);
  }

  // !!a becomes a.
  lemma UnNot(h: Nodes, h': Nodes, t: Tree)
    requires Own(h, t) && t.TNot? && t.arg.TNot? && h' == h - {t.arg.r} - {t.r}
    ensures Replaced(h, h', t, t.arg.arg)
  {
    HoldsIn(h, t);
    OwnNot(h, t);
    OwnNot(h, t.arg);
    HoldsFrame(h, h', t.arg.arg);
  }

  // The node of a NOT is freed, and its argument, a leaf, overwritten.
  lemma UnNotLeaf(h: Nodes, h': Nodes, t: Tree, x: Tree)
    requires Own(h, t) && t.TNot? && (t.arg.TSym? || t.arg.TCmp?) && (x.TSym? || x.TCmp?) && x.r == t.arg.r
    requires h' == (h - {t.r})[x.r := NodeOf(x)]
    ensures Replaced(h, h', t, x)
  {
  }

  // De Morgan's rules reuse both nodes and need a third.
  lemma DeMorgan(h: Nodes, h': Nodes, t: Tree, n: Ref)
    requires Own(h, t) && t.TNot? && t.arg.TBin? && n !in h
    requires var x := t.arg;
      h' == h[n := NotNode(x.right.r)][t.r := BinNode(Other(x.op), x.r, n)][x.r := NotNode(x.left.r)]
    ensures var x := t.arg; Replaced(h, h', t, TBin(t.r, Other(x.op), TNot(x.r, x.left), TNot(n, x.right)))
  {
    var a, b := t.arg.left, t.arg.right;
    HoldsIn(h, t);
    OwnNot(h, t);
    OwnBin(h, t.arg);
    HoldsIn(h, a);
    HoldsIn(h, b);
    HoldsFrame(h, h', a);
    HoldsFrame(h, h', b);
  }

  lemma SymNodeIs(t: Tree)
    ensures forall s :: NodeOf(t) == SymNode(s) <==> E(t) == Symbol(s)
    ensures t.TSym? <==> E(t).Symbol?
  {
  }

  lemma EliminateYnOfJoin(e: Expr, e1: Expr)
    requires IsJunction(e) && IsJunction(e1) && OpOf(e1) == OpOf(e)
    requires e1.left == Eliminate.EliminateYn(e.left) && e1.right == Eliminate.EliminateYn(e.right)
    ensures var zero := Symbol(if OpOf(e).AndOp? then SYM_NO else SYM_YES);
      Eliminate.EliminateYn(e) ==
        if e1.left == zero then zero
        else if e1.left == Unit(OpOf(e)) then e1.right
        else if e1.right == zero then zero
        else if e1.right == Unit(OpOf(e)) then e1.left
        else e1
  {
  }

  lemma ReplacedOwn(h: Nodes, h': Nodes, t: Tree, t': Tree)
    requires Replaced(h, h', t, t')
    ensures Own(h', t')
  {
  }

  lemma OwnBin(h: Nodes, t: Tree)
    requires Own(h, t) && t.TBin?
    ensures t.r in h && h[t.r] == NodeOf(t) && Own(h, t.left) && Own(h, t.right)
    ensures t.left.r in h && h[t.left.r] == NodeOf(t.left) && t.right.r in h && h[t.right.r] == NodeOf(t.right)
    ensures t.left.r != t.right.r && t.r != t.left.r && t.r != t.right.r
    ensures Refs(t.left) !! Refs(t.right) && t.r !in Refs(t.left) + Refs(t.right)
  {
    assert t.left.r in Refs(t.left) && t.right.r in Refs(t.right);
  }

  lemma OwnAfterFree(h: Nodes, h': Nodes, t: Tree, x: Tree)
    requires Own(h, x) && h' == h - Refs(t) && Refs(x) !! Refs(t)
    ensures Own(h', x)
  {
    HoldsIn(h, x);
    HoldsFrame(h, h', x);
  }
}
