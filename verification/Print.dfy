// Printing of expressions and the expression grammar (expr_compare_type and expr_print of expr.c,
// the expr rules of parser.y).
module Print {
  import opened Tristate
  import opened Expr
  import opened Eliminate

  datatype Token = Open | Close | Bang | AndTok | OrTok | RelTok(rel: Rel) | Word(text: string)

  function TextOf(s: Sym): string {
    if s.Const? then s.text else s.name
  }

  // ----- printing -----

  datatype Kind = NoKind | OrKind | AndKind | NotKind | CmpKind(rel: Rel) | SymbolKind

  function KindOf(e: Expr): Kind {
    match e
    case Symbol(_) => SymbolKind
    case Not(_) => NotKind
    case And(_, _) => AndKind
    case Or(_, _) => OrKind
    case Cmp(rel, _, _) => CmpKind(rel)
  }

  predicate IsOrdering(k: Kind) {
    k.CmpKind? && !k.rel.Eq? && !k.rel.Ne?
  }

  /** expr_compare_type: positive when an expression of kind t2 needs parentheses below t1. Each
      case of the switch also runs the cases after it. */
  function CompareType(t1: Kind, t2: Kind): int {
    if t1 == t2 then 0
    else if t1.NoKind? || t1.SymbolKind? then -1
    else if IsOrdering(t1) && t2.CmpKind? && !IsOrdering(t2) then 1
    else if t1.CmpKind? && t2.NotKind? then 1
    else if (t1.CmpKind? || t1.NotKind?) && t2.AndKind? then 1
    else if !t1.OrKind? && t2.OrKind? then 1
    else if t2.NoKind? then 1
    else -1
  }

  function RelTokens(a: Sym, rel: Rel, b: Sym): seq<Token> {
    [Word(TextOf(a)), RelTok(rel), Word(TextOf(b))]
  }

  /** expr_print of an expression below an expression of kind prev. */
  function PrintExpr(e: Expr, prev: Kind): seq<Token> {
    var body :=
      match e
      case Symbol(s) => [Word(TextOf(s))]
      case Not(a) => [Bang] + PrintExpr(a, NotKind)
      case Cmp(rel, a, b) => RelTokens(a, rel, b)
      case Or(l, r) => PrintExpr(l, OrKind) + [OrTok] + PrintExpr(r, OrKind)
      case And(l, r) => PrintExpr(l, AndKind) + [AndTok] + PrintExpr(r, AndKind);
    if CompareType(prev, KindOf(e)) > 0 then [Open] + body + [Close] else body
  }

  // ----- the grammar: OR binds weaker than AND, AND weaker than NOT; both associate to the left -----

  datatype Parsed = Failed | Read(e: Expr, rest: seq<Token>)

  type Types = map<string, Type>

  /** sym_lookup of an unquoted word. */
  function ReadSym(types: Types, text: string): Sym {
    if text == "y" || text == "m" || text == "n" then Const(text)
    else Var(text, if text in types then types[text] else Unknown)
  }

  function ParseOr(types: Types, ts: seq<Token>): (p: Parsed)
    ensures p.Read? ==> |p.rest| < |ts|
    decreases |ts|, 4
  {
    match ParseAnd(types, ts)
    case Failed => Failed
    case Read(e, rest) => OrTail(types, e, rest)
  }

  function OrTail(types: Types, acc: Expr, ts: seq<Token>): (p: Parsed)
    ensures p.Read? ==> |p.rest| <= |ts|
    decreases |ts|, 3
  {
    if ts == [] || ts[0] != OrTok then Read(acc, ts)
    else
      match ParseAnd(types, ts[1..])
      case Failed => Failed
      case Read(e, rest) => OrTail(types, Or(acc, e), rest)
  }

  function ParseAnd(types: Types, ts: seq<Token>): (p: Parsed)
    ensures p.Read? ==> |p.rest| < |ts|
    decreases |ts|, 2
  {
    match ParseNot(types, ts)
    case Failed => Failed
    case Read(e, rest) => AndTail(types, e, rest)
  }

  function AndTail(types: Types, acc: Expr, ts: seq<Token>): (p: Parsed)
    ensures p.Read? ==> |p.rest| <= |ts|
    decreases |ts|, 1
  {
    if ts == [] || ts[0] != AndTok then Read(acc, ts)
    else
      match ParseNot(types, ts[1..])
      case Failed => Failed
      case Read(e, rest) => AndTail(types, And(acc, e), rest)
  }

  function ParseNot(types: Types, ts: seq<Token>): (p: Parsed)
    ensures p.Read? ==> |p.rest| < |ts|
    decreases |ts|, 0
  {
    if ts == [] then Failed
    else
      match ts[0]
      case Bang =>
        (match ParseNot(types, ts[1..])
         case Failed => Failed
         case Read(e, rest) => Read(Not(e), rest))
      case Open =>
        (match ParseOr(types, ts[1..])
         case Failed => Failed
         case Read(e, rest) => if rest != [] && rest[0] == Close then Read(e, rest[1..]) else Failed)
      case Word(a) =>
        if |ts| >= 3 && ts[1].RelTok? && ts[2].Word? then
          Read(Cmp(ts[1].rel, ReadSym(types, a), ReadSym(types, ts[2].text)), ts[3..])
        else Read(Symbol(ReadSym(types, a)), ts[1..])
      case _ => Failed
  }

  function Parse(types: Types, ts: seq<Token>): Dep {
    match ParseOr(types, ts)
    case Failed => None
    case Read(e, rest) => if rest == [] then Some(e) else None
  }

  // ----- the round trip -----

  /** The expression with every chain of one operator grouped to the left. */
  function LeftGrouped(e: Expr): Expr
    decreases Size(e), 0
  {
    match e
    case Not(a) => Not(LeftGrouped(a))
    case And(l, r) => Extend(AndOp, Spine(AndOp, l), r)
    case Or(l, r) => Extend(OrOp, Spine(OrOp, l), r)
    case _ => e
  }

  // e as the first operands of a chain of op.
  function Spine(op: Op, e: Expr): Expr
    decreases Size(e), 1
  {
    if IsOp(op, e) then Extend(op, Spine(op, e.left), e.right) else LeftGrouped(e)
  }

  // The chain acc continued by the operands of e.
  function Extend(op: Op, acc: Expr, e: Expr): Expr
    decreases Size(e), 1
  {
    if IsOp(op, e) then Extend(op, Extend(op, acc, e.left), e.right) else Join(op, acc, LeftGrouped(e))
  }

  lemma {:induction false} LeftGroupedSound(e: Expr, env: Env)
    ensures Eval(LeftGrouped(e), env) == Eval(e, env)
    decreases Size(e), 0
  {
    match e
    case Not(a) => LeftGroupedSound(a, env);
    case And(l, r) => SpineSound(AndOp, l, env); ExtendSound(AndOp, Spine(AndOp, l), r, env);
    case Or(l, r) => SpineSound(OrOp, l, env); ExtendSound(OrOp, Spine(OrOp, l), r, env);
    case _ =>
  }

  lemma {:induction false} SpineSound(op: Op, e: Expr, env: Env)
    ensures Eval(Spine(op, e), env) == Eval(e, env)
    decreases Size(e), 1
  {
    if IsOp(op, e) {
      SpineSound(op, e.left, env);
      ExtendSound(op, Spine(op, e.left), e.right, env);
    } else {
      LeftGroupedSound(e, env);
    }
  }

  lemma {:induction false} ExtendSound(op: Op, acc: Expr, e: Expr, env: Env)
    ensures Eval(Extend(op, acc, e), env) == Apply(op, Eval(acc, env), Eval(e, env))
    decreases Size(e), 1
  {
    if IsOp(op, e) {
      ExtendSound(op, acc, e.left, env);
      ExtendSound(op, Extend(op, acc, e.left), e.right, env);
    } else {
      LeftGroupedSound(e, env);
    }
  }

  /** Every symbol is n, m, y or the symbol its name stands for. */
  predicate Readable(types: Types, e: Expr) {
    forall s <- Syms(e) :: ReadSym(types, TextOf(s)) == s
  }

  // ts starts with a token that cannot continue an operand.
  predicate EndsOperand(ts: seq<Token>) {
    ts == [] || ts[0] == AndTok || ts[0] == OrTok || ts[0] == Close
  }

  predicate EndsChain(ts: seq<Token>) {
    ts == [] || ts[0] == OrTok || ts[0] == Close
  }

  predicate EndsExpr(ts: seq<Token>) {
    ts == [] || ts[0] == Close
  }

  lemma {:induction false} ReadOperand(types: Types, e: Expr, rest: seq<Token>)
    requires Readable(types, e) && EndsOperand(rest)
    ensures ParseNot(types, PrintExpr(e, NotKind) + rest) == Read(LeftGrouped(e), rest)
    decreases Size(e), if IsJunction(e) then 4 else 0
  {
    var ts := PrintExpr(e, NotKind) + rest;
    match e
    case Symbol(s) =>
      assert s in Syms(e);
      assert ts[1..] == rest;
    case Cmp(rel, a, b) =>
      assert a in Syms(e) && b in Syms(e);
      assert ts[..3] == RelTokens(a, rel, b) && ts[3..] == rest;
    case Not(a) =>
      assert ts[1..] == PrintExpr(a, NotKind) + rest;
      ReadOperand(types, a, rest);
    case _ =>
      ReadChain(types, e, [Close] + rest);
      ReadParentheses(types, PrintExpr(e, OrKind), LeftGrouped(e), rest);
      PrintParentheses(e);
  }

  lemma PrintParentheses(e: Expr)
    requires IsJunction(e)
    ensures PrintExpr(e, NotKind) == [Open] + PrintExpr(e, OrKind) + [Close]
  {
  }

  lemma ReadParentheses(types: Types, body: seq<Token>, e: Expr, rest: seq<Token>)
    requires ParseOr(types, body + ([Close] + rest)) == Read(e, [Close] + rest)
    ensures ParseNot(types, [Open] + body + [Close] + rest) == Read(e, rest)
  {
    var ts := [Open] + body + [Close] + rest;
    assert ts[1..] == body + ([Close] + rest);
    assert ([Close] + rest)[1..] == rest;
  }

  // Below AND an operand is printed as below NOT, unless it continues the chain.
  lemma PrintBelowAnd(e: Expr)
    requires !e.And?
    ensures PrintExpr(e, AndKind) == PrintExpr(e, NotKind)
  {
  }

  lemma PrintBelowOr(e: Expr)
    requires !e.Or?
    ensures PrintExpr(e, OrKind) == PrintExpr(e, AndKind)
  {
  }

  lemma {:induction false} ReadAndChain(types: Types, e: Expr, rest: seq<Token>)
    requires Readable(types, e) && EndsOperand(rest)
    ensures ParseAnd(types, PrintExpr(e, AndKind) + rest) == AndTail(types, Spine(AndOp, e), rest)
    decreases Size(e), if e.Or? then 5 else 1
  {
    if e.And? {
      var more := [AndTok] + PrintExpr(e.right, AndKind) + rest;
      assert PrintExpr(e, AndKind) + rest == PrintExpr(e.left, AndKind) + more;
      ReadAndChain(types, e.left, more);
      ReadAndTail(types, Spine(AndOp, e.left), e.right, rest);
    } else {
      PrintBelowAnd(e);
      ReadOperand(types, e, rest);
    }
  }

  lemma {:induction false} ReadAndTail(types: Types, acc: Expr, e: Expr, rest: seq<Token>)
    requires Readable(types, e) && EndsOperand(rest)
    ensures AndTail(types, acc, [AndTok] + PrintExpr(e, AndKind) + rest) == AndTail(types, Extend(AndOp, acc, e), rest)
    decreases Size(e), if e.Or? then 5 else 1
  {
    var ts := [AndTok] + PrintExpr(e, AndKind) + rest;
    if e.And? {
      var more := [AndTok] + PrintExpr(e.right, AndKind) + rest;
      assert ts == [AndTok] + PrintExpr(e.left, AndKind) + more;
      ReadAndTail(types, acc, e.left, more);
      ReadAndTail(types, Extend(AndOp, acc, e.left), e.right, rest);
    } else {
      assert ts[1..] == PrintExpr(e, AndKind) + rest;
      PrintBelowAnd(e);
      ReadOperand(types, e, rest);
    }
  }

  lemma {:induction false} ReadOrChain(types: Types, e: Expr, rest: seq<Token>)
    requires Readable(types, e) && EndsChain(rest)
    ensures ParseOr(types, PrintExpr(e, OrKind) + rest) == OrTail(types, Spine(OrOp, e), rest)
    decreases Size(e), 2
  {
    if e.Or? {
      var more := [OrTok] + PrintExpr(e.right, OrKind) + rest;
      assert PrintExpr(e, OrKind) + rest == PrintExpr(e.left, OrKind) + more;
      ReadOrChain(types, e.left, more);
      ReadOrTail(types, Spine(OrOp, e.left), e.right, rest);
    } else {
      PrintBelowOr(e);
      ReadAndChain(types, e, rest);
      assert Spine(AndOp, e) == LeftGrouped(e);
    }
  }

  lemma AndTailEnds(types: Types, acc: Expr, rest: seq<Token>)
    requires EndsChain(rest)
    ensures AndTail(types, acc, rest) == Read(acc, rest)
  {
  }

  lemma {:induction false} ReadOrTail(types: Types, acc: Expr, e: Expr, rest: seq<Token>)
    requires Readable(types, e) && EndsChain(rest)
    ensures OrTail(types, acc, [OrTok] + PrintExpr(e, OrKind) + rest) == OrTail(types, Extend(OrOp, acc, e), rest)
    decreases Size(e), 2
  {
    var ts := [OrTok] + PrintExpr(e, OrKind) + rest;
    if e.Or? {
      hide ParseAnd, ParseNot, AndTail, OrTail;
      var more := [OrTok] + PrintExpr(e.right, OrKind) + rest;
      assert ts == [OrTok] + PrintExpr(e.left, OrKind) + more;
      ReadOrTail(types, acc, e.left, more);
      ReadOrTail(types, Extend(OrOp, acc, e.left), e.right, rest);
    } else {
      assert ts[1..] == PrintExpr(e, OrKind) + rest;
      PrintBelowOr(e);
      ReadAndChain(types, e, rest);
      AndTailEnds(types, Spine(AndOp, e), rest);
      hide ParseAnd, ParseNot, AndTail, PrintExpr;
      assert Spine(AndOp, e) == LeftGrouped(e);
    }
  }

  lemma {:induction false} ReadChain(types: Types, e: Expr, rest: seq<Token>)
    requires Readable(types, e) && EndsExpr(rest)
    ensures ParseOr(types, PrintExpr(e, OrKind) + rest) == Read(LeftGrouped(e), rest)
    decreases Size(e), 3
  {
    ReadOrChain(types, e, rest);
    assert Spine(OrOp, e) == LeftGrouped(e);
  }

  /** Reading back what was printed gives the expression with its chains grouped to the left, which
      has the same value under every assignment. */
  lemma {:induction false} PrintParse(types: Types, e: Expr)
    requires Readable(types, e)
    ensures Parse(types, PrintExpr(e, NoKind)) == Some(LeftGrouped(e))
    ensures forall env :: Eval(LeftGrouped(e), env) == Eval(e, env)
  {
    assert PrintExpr(e, NoKind) == PrintExpr(e, OrKind) + [];
    ReadChain(types, e, []);
    forall env ensures Eval(LeftGrouped(e), env) == Eval(e, env) {
      LeftGroupedSound(e, env);
    }
  }
}
