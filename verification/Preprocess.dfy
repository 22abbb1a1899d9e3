// Macro expansion (preprocess.c): references $(name,arg,...) in the text of Kconfig files.
module Preprocess {
  import opened Tristate
  import Expr

  datatype Flavor = Simple | Recursive

  datatype Variable = Variable(name: string, value: string, flavor: Flavor)

  /** The errors the program reports; ArgvOverrun is none of them, but a write beyond the end of the
      array of arguments, after which anything may happen. */
  datatype Error = SelfReference | TooDeep | TooManyArguments | ArgvOverrun | Unterminated | Builtin(message: string)

  datatype Outcome<+T> = Done(v: T) | Failed(error: Error)

  /** What references can name: the variables in the order they were defined, the built-in functions
      and the environment. The last two are opaque: a built-in function either has no such name, or
      gives a text, or stops the program. */
  datatype World = World(
    vars: seq<Variable>,
    builtin: (string, seq<string>) -> Outcome<Option<string>>,
    env: string -> Option<string>)

  const MAX_ARGS: nat := 16
  const MAX_DEPTH: nat := 1000

  // ----- parentheses and commas -----

  /** The nesting depth after s, starting at depth n; None when a parenthesis closes what s did not
      open. */
  function Depth(s: string, n: nat): Option<nat> {
    if s == [] then Some(n)
    else if s[0] == '(' then Depth(s[1..], n + 1)
    else if s[0] == ')' then (if n == 0 then None else Depth(s[1..], n - 1))
    else Depth(s[1..], n)
  }

  // The nesting depth after one more character.
  function Nested(ch: char, n: int): int {
    if ch == '(' then n + 1 else if ch == ')' then n - 1 else n
  }

  predicate Balanced(s: string) {
    Depth(s, 0) == Some(0)
  }

  lemma {:induction false} DepthAppend(a: string, b: string, n: nat)
    ensures Depth(a + b, n) == (match Depth(a, n) case None => None case Some(k) => Depth(b, k))
  {
    if a == [] {
      assert a + b == b;
    } else {
      assert (a + b)[0] == a[0] && (a + b)[1..] == a[1..] + b;
      if a[0] == '(' {
        DepthAppend(a[1..], b, n + 1);
      } else if a[0] != ')' {
        DepthAppend(a[1..], b, n);
      } else if n > 0 {
        DepthAppend(a[1..], b, n - 1);
      }
    }
  }

  /** The place of the parenthesis that closes a reference, at nesting depth n. */
  function FindClose(s: string, n: nat): (r: Option<nat>)
    ensures r.Some? ==> r.value < |s|
  {
    if s == [] then None
    else if s[0] == ')' && n == 0 then Some(0)
    else
      var r := FindClose(s[1..], Nested(s[0], n));
      if r.None? then None else Some(r.value + 1)
  }

  lemma {:induction false} FindCloseIs(s: string, n: nat, q: nat)
    ensures FindClose(s, n) == Some(q) <==> q < |s| && s[q] == ')' && Depth(s[..q], n) == Some(0)
    decreases |s|
  {
    if s != [] {
      if q > 0 && q <= |s| {
        assert s[..q][1..] == s[1..][..q - 1];
        if s[0] == '(' {
          FindCloseIs(s[1..], n + 1, q - 1);
        } else if s[0] != ')' {
          FindCloseIs(s[1..], n, q - 1);
        } else if n > 0 {
          FindCloseIs(s[1..], n - 1, q - 1);
        }
      } else if q > |s| {
      } else {
        assert s[..0] == [];
        DepthPositive(s, n);
      }
    }
  }

  // Nothing closes before it was opened.
  lemma DepthPositive(s: string, n: nat)
    requires s != []
    ensures FindClose(s, n) == Some(0) <==> s[0] == ')' && n == 0
  {
  }

  /** A reference ends at the first parenthesis after a balanced text. */
  lemma ReferenceEnds(s: string, q: nat)
    ensures FindClose(s, 0) == Some(q) <==> q < |s| && s[q] == ')' && Balanced(s[..q])
  {
    FindCloseIs(s, 0, q);
  }

  /** The pieces of a clause between the commas at nesting depth 0; acc is the piece begun. */
  function SplitFrom(s: string, n: int, acc: string): (r: seq<string>)
    ensures |r| >= 1
    decreases |s|
  {
    if s == [] then [acc]
    else if n == 0 && s[0] == ',' then [acc] + SplitFrom(s[1..], n, "")
    else SplitFrom(s[1..], Nested(s[0], n), acc + [s[0]])
  }

  function Split(s: string): (r: seq<string>)
    ensures |r| >= 1
  {
    SplitFrom(s, 0, "")
  }

  function Join(pieces: seq<string>): string {
    if pieces == [] then "" else if |pieces| == 1 then pieces[0] else pieces[0] + "," + Join(pieces[1..])
  }

  /** Balanced, and without a comma outside of parentheses. */
  predicate IsPiece(s: string) {
    Balanced(s) && NoOwnComma(s)
  }

  predicate NoOwnComma(s: string) {
    forall i | 0 <= i < |s| && s[i] == ',' :: Depth(s[..i], 0) != Some(0)
  }

  lemma PieceGrows(acc: string, ch: char, n: nat)
    requires Depth(acc, 0) == Some(n) && NoOwnComma(acc) && (n == 0 ==> ch != ',' && ch != ')')
    ensures Depth(acc + [ch], 0) == Some(Nested(ch, n)) && NoOwnComma(acc + [ch])
  {
    DepthAppend(acc, [ch], 0);
    assert [ch][1..] == [];
    var acc' := acc + [ch];
    forall i | 0 <= i < |acc'| && acc'[i] == ',' ensures Depth(acc'[..i], 0) != Some(0) {
      assert acc'[..i] == if i < |acc| then acc[..i] else acc;
    }
  }

  lemma JoinCons(p: string, rest: seq<string>)
    requires rest != []
    ensures Join([p] + rest) == p + "," + Join(rest)
  {
    assert ([p] + rest)[1..] == rest;
  }

  lemma {:induction false} SplitFromJoins(s: string, n: nat, acc: string)
    requires Depth(acc, 0) == Some(n) && Depth(s, n) == Some(0)
    requires NoOwnComma(acc)
    ensures Join(SplitFrom(s, n, acc)) == acc + s
    ensures forall p <- SplitFrom(s, n, acc) :: IsPiece(p)
    decreases |s|
  {
    if s == [] {
      assert acc + s == acc;
    } else if n == 0 && s[0] == ',' {
      var rest := SplitFrom(s[1..], 0, "");
      SplitFromJoins(s[1..], 0, "");
      JoinCons(acc, rest);
      assert acc + "," + s[1..] == acc + s;
      assert "" + s[1..] == s[1..];
    } else {
      var acc' := acc + [s[0]];
      PieceGrows(acc, s[0], n);
      SplitFromJoins(s[1..], Nested(s[0], n), acc');
      assert acc' + s[1..] == acc + s;
    }
  }

  /** Splitting a balanced clause gives balanced pieces without commas of their own, and joining
      them gives the clause back. */
  lemma {:induction false} SplitJoins(s: string)
    requires Balanced(s)
    ensures Join(Split(s)) == s && forall p <- Split(s) :: IsPiece(p)
  {
    SplitFromJoins(s, 0, "");
    assert "" + s == s;
  }

  // The depth inside a piece: it never closes more than it opened.
  lemma PieceDepth(p: string, k: nat)
    requires Balanced(p) && k <= |p|
    ensures Depth(p[..k], 0).Some? && Depth(p[k..], Depth(p[..k], 0).value) == Some(0)
  {
    DepthAppend(p[..k], p[k..], 0);
    assert p == p[..k] + p[k..];
  }

  lemma {:induction false} SplitOnePiece(p: string, k: nat, tail: string)
    requires IsPiece(p) && k <= |p| && Depth(p[..k], 0).Some? && (tail == "" || tail[0] == ',')
    ensures SplitFrom(p[k..] + tail, Depth(p[..k], 0).value, p[..k]) ==
      if tail == "" then [p] else [p] + SplitFrom(tail[1..], 0, "")
    decreases |p| - k
  {
    var n, acc := Depth(p[..k], 0).value, p[..k];
    PieceDepth(p, k);
    if k == |p| {
      assert acc == p && p[k..] + tail == tail;
    } else {
      var s := p[k..] + tail;
      PieceDepth(p, k + 1);
      assert s[0] == p[k] && s[1..] == p[k + 1..] + tail;
      assert acc + [p[k]] == p[..k + 1];
      DepthAppend(acc, [p[k]], 0);
      assert [p[k]][1..] == [];
      SplitOnePiece(p, k + 1, tail);
    }
  }

  /** Conversely, pieces without commas of their own are what splitting finds again. */
  lemma {:induction false} SplitOfJoin(pieces: seq<string>)
    requires pieces != [] && forall p <- pieces :: IsPiece(p)
    ensures Split(Join(pieces)) == pieces
    decreases |pieces|
  {
    var p := pieces[0];
    assert p in pieces && p[..0] == "" && p[0..] == p;
    if |pieces| == 1 {
      SplitOnePiece(p, 0, "");
      assert p + "" == p;
    } else {
      var tail := "," + Join(pieces[1..]);
      SplitOnePiece(p, 0, tail);
      SplitOfJoin(pieces[1..]);
      assert tail[1..] == Join(pieces[1..]);
      assert p + "," + Join(pieces[1..]) == p + tail;
    }
  }

  /** The number of commas at nesting depth 0, starting at depth n. */
  function Commas(s: string, n: int): nat {
    if s == [] then 0
    else if n == 0 && s[0] == ',' then 1 + Commas(s[1..], n)
    else Commas(s[1..], Nested(s[0], n))
  }

  lemma {:induction false} PiecesAndCommas(s: string, n: int, acc: string)
    ensures |SplitFrom(s, n, acc)| == 1 + Commas(s, n)
    decreases |s|
  {
    if s != [] {
      if n == 0 && s[0] == ',' {
        PiecesAndCommas(s[1..], n, "");
      } else {
        PiecesAndCommas(s[1..], Nested(s[0], n), acc + [s[0]]);
      }
    }
  }

  /** A clause with more than sixteen commas of its own is reported. One with exactly sixteen is not:
      the last of its seventeen pieces is written beyond the sixteen slots for them. */
  lemma {:induction false} SixteenCommas(w: World, counts: Counts, clause: string, args: seq<string>)
    requires |counts| == |w.vars| && ArgumentOf(clause, args).None?
    ensures Commas(clause, 0) == 16 ==> EvalClause(w, counts, clause, args) == Failed(ArgvOverrun)
    ensures Commas(clause, 0) > 16 ==> EvalClause(w, counts, clause, args) == Failed(TooManyArguments)
  {
    PiecesAndCommas(clause, 0, "");
  }

  /** An input of this kind: sixteen commas and nothing else. */
  lemma OverrunInput(w: World, counts: Counts)
    requires |counts| == |w.vars|
    ensures EvalClause(w, counts, ",,,,,,,,,,,,,,,,", []) == Failed(ArgvOverrun)
  {
    OnlyCommas(16);
    assert seq(16, _ => ',') == ",,,,,,,,,,,,,,,,";
    SixteenCommas(w, counts, ",,,,,,,,,,,,,,,,", []);
  }

  lemma {:induction false} OnlyCommas(n: nat)
    ensures Commas(seq(n, _ => ','), 0) == n
  {
    if n > 0 {
      assert seq(n, _ => ',')[1..] == seq(n - 1, _ => ',');
      OnlyCommas(n - 1);
    }
  }

  // Every piece is at most as long as the clause.
  lemma {:induction false} PiecesFit(s: string, n: int, acc: string)
    ensures forall p <- SplitFrom(s, n, acc) :: |p| <= |acc| + |s|
    decreases |s|
  {
    if s != [] {
      if n == 0 && s[0] == ',' {
        PiecesFit(s[1..], n, "");
      } else {
        PiecesFit(s[1..], Nested(s[0], n), acc + [s[0]]);
      }
    }
  }

  // ----- expansion -----

  // exp_count of every variable, in the same order.
  type Counts = seq<nat>

  /** How often the variables can still be entered: the measure of the recursion. */
  function Budget(counts: Counts): nat {
    if counts == [] then 0
    else (if counts[0] <= MAX_DEPTH then MAX_DEPTH + 1 - counts[0] else 0) + Budget(counts[1..])
  }

  lemma {:induction false} BudgetShrinks(counts: Counts, i: nat)
    requires i < |counts| && counts[i] <= MAX_DEPTH
    ensures Budget(counts[i := counts[i] + 1]) < Budget(counts)
  {
    var counts' := counts[i := counts[i] + 1];
    if i > 0 {
      BudgetShrinks(counts[1..], i - 1);
      assert counts'[1..] == counts[1..][i - 1 := counts[i] + 1];
    }
  }

  /** variable_lookup. */
  function Lookup(vars: seq<Variable>, name: string): (r: Option<nat>)
    ensures r.Some? ==> r.value < |vars| && vars[r.value].name == name
    ensures r.None? ==> forall v <- vars :: v.name != name
  {
    if vars == [] then None
    else if vars[0].name == name then Some(0)
    else
      var r := Lookup(vars[1..], name);
      if r.None? then None else Some(r.value + 1)
  }

  // The number of the argument that a reference stands for, if it does.
  function ArgumentOf(clause: string, args: seq<string>): (r: Option<nat>)
    ensures r.Some? ==> r.value < |args|
  {
    match Expr.ParseNumber(clause, 10, true)
    case Unsigned(n) => if 0 < n <= |args| then Some(n - 1) else None
    case _ => None
  }

  predicate IsEndOfToken(c: char) {
    !('a' <= c <= 'z' || 'A' <= c <= 'Z' || '0' <= c <= '9' || c == '_' || c == '-' || c == '.' || c == '/')
  }

  /** __expand_string: the text up to the end (of the string or, for a token, at the first character
      that cannot be part of it) with all references expanded, and what remains. */
  function Expand(w: World, counts: Counts, s: string, args: seq<string>, token: bool): (r: Outcome<(string, string)>)
    requires |counts| == |w.vars|
    ensures r.Done? ==> |r.v.1| <= |s|
    decreases Budget(counts), |s|, 1, 0
  {
    if s == [] then Done(("", ""))
    else if s[0] == '$' then
      var d := Dollar(w, counts, s[1..], args);
      if d.Failed? then Failed(d.error)
      else
        var r := Expand(w, counts, d.v.1, args, token);
        if r.Failed? then r else Done((d.v.0 + r.v.0, r.v.1))
    else if token && IsEndOfToken(s[0]) then Done(("", s))
    else
      var r := Expand(w, counts, s[1..], args, token);
      if r.Failed? then r else Done(([s[0]] + r.v.0, r.v.1))
  }

  /** expand_dollar_with_args: the expansion of what follows a dollar sign, and what remains. */
  function Dollar(w: World, counts: Counts, s: string, args: seq<string>): (r: Outcome<(string, string)>)
    requires |counts| == |w.vars|
    ensures r.Done? ==> |r.v.1| <= |s|
    decreases Budget(counts), |s|, 0, 0
  {
    if s == [] || s[0] != '(' then Done(("$", s))
    else
      var q := FindClose(s[1..], 0);
      if q.None? then Failed(Unterminated)
      else
        var r := EvalClause(w, counts, s[1..][..q.value], args);
        if r.Failed? then Failed(r.error) else Done((r.v, s[1..][q.value + 1..]))
  }

  // The expansions of the pieces, from left to right.
  function ExpandAll(w: World, counts: Counts, pieces: seq<string>, args: seq<string>, bound: nat): (r: Outcome<seq<string>>)
    requires |counts| == |w.vars| && forall p <- pieces :: |p| <= bound
    ensures r.Done? ==> |r.v| == |pieces|
    decreases Budget(counts), bound, 2, |pieces|
  {
    if pieces == [] then Done([])
    else
      var r := Expand(w, counts, pieces[0], args, false);
      if r.Failed? then Failed(r.error)
      else
        var rest := ExpandAll(w, counts, pieces[1..], args, bound);
        if rest.Failed? then rest else Done([r.v.0] + rest.v)
  }

  /** eval_clause: an argument of the function being expanded, or else a variable, a built-in
      function or an environment variable, tried in this order. */
  function EvalClause(w: World, counts: Counts, clause: string, args: seq<string>): (r: Outcome<string>)
    requires |counts| == |w.vars|
    decreases Budget(counts), |clause|, 3, 0
  {
    var n := ArgumentOf(clause, args);
    if n.Some? then Done(args[n.value])
    else
      var pieces := Split(clause);
      PiecesFit(clause, 0, "");
      if |pieces| > MAX_ARGS + 1 then Failed(TooManyArguments)
      else if |pieces| == MAX_ARGS + 1 then Failed(ArgvOverrun)
      else
        var x := ExpandAll(w, counts, pieces, args, |clause|);
        if x.Failed? then Failed(x.error) else Resolve(w, counts, x.v[0], x.v[1..])
  }

  function Resolve(w: World, counts: Counts, name: string, args: seq<string>): (r: Outcome<string>)
    requires |counts| == |w.vars|
    decreases Budget(counts), 0, 0, 1
  {
    var i := Lookup(w.vars, name);
    if i.Some? then ExpandVariable(w, counts, i.value, args)
    else
      match w.builtin(name, args)
      case Failed(e) => Failed(e)
      case Done(Some(text)) => Done(text)
      case Done(None) =>
        var value := if args == [] then w.env(name) else None;
        Done(if value.Some? then value.value else "")
  }

  /** variable_expand, for a variable that exists. A variable may be entered again while it is being
      expanded, but only as a function, and not too often. */
  function ExpandVariable(w: World, counts: Counts, i: nat, args: seq<string>): (r: Outcome<string>)
    requires |counts| == |w.vars| && i < |w.vars|
    decreases Budget(counts), 0, 0, 0
  {
    if args == [] && counts[i] != 0 then Failed(SelfReference)
    else if counts[i] > MAX_DEPTH then Failed(TooDeep)
    else if w.vars[i].flavor.Simple? then Done(w.vars[i].value)
    else
      BudgetShrinks(counts, i);
      var r := Expand(w, counts[i := counts[i] + 1], w.vars[i].value, args, false);
      if r.Failed? then Failed(r.error) else Done(r.v.0)
  }

  // ----- what expansion means -----

  /** Text without dollar signs is left alone. */
  lemma {:induction false} PlainText(w: World, counts: Counts, s: string, args: seq<string>)
    requires |counts| == |w.vars| && '$' !in s
    ensures Expand(w, counts, s, args, false) == Done((s, ""))
    decreases |s|
  {
    if s != [] {
      PlainText(w, counts, s[1..], args);
      assert [s[0]] + s[1..] == s;
    }
  }

  lemma {:induction false} FindCloseAppend(a: string, b: string, n: nat)
    requires FindClose(a, n).Some?
    ensures FindClose(a + b, n) == FindClose(a, n)
    decreases |a|
  {
    assert (a + b)[0] == a[0] && (a + b)[1..] == a[1..] + b;
    if !(a[0] == ')' && n == 0) {
      FindCloseAppend(a[1..], b, if a[0] == '(' then n + 1 else if a[0] == ')' then n - 1 else n);
    }
  }

  /** The expansion of a token stops at the end of the text or at the first character, outside of
      references, that cannot be part of a token. */
  lemma {:induction false} TokenEnds(w: World, counts: Counts, s: string, args: seq<string>)
    requires |counts| == |w.vars| && Expand(w, counts, s, args, true).Done?
    ensures var rest := Expand(w, counts, s, args, true).v.1;
      s[|s| - |rest|..] == rest && (rest == "" || (IsEndOfToken(rest[0]) && rest[0] != '$'))
    decreases |s|
  {
    if s == [] {
    } else if s[0] == '$' {
      TokenEnds(w, counts, Dollar(w, counts, s[1..], args).v.1, args);
    } else if !IsEndOfToken(s[0]) {
      TokenEnds(w, counts, s[1..], args);
    }
  }

  lemma DollarAppend(w: World, counts: Counts, t: string, b: string, args: seq<string>)
    requires |counts| == |w.vars| && t != [] && Dollar(w, counts, t, args).Done?
    ensures var d := Dollar(w, counts, t, args);
      Dollar(w, counts, t + b, args) == Done((d.v.0, d.v.1 + b)) && (d.v.1 == [] || d.v.1[|d.v.1| - 1] == t[|t| - 1])
  {
    hide EvalClause;
    assert (t + b)[0] == t[0] && (t + b)[1..] == t[1..] + b;
    if t[0] == '(' {
      FindCloseAppend(t[1..], b, 0);
      var q := FindClose(t[1..], 0).value;
      assert (t + b)[1..][..q] == t[1..][..q] && (t + b)[1..][q + 1..] == t[1..][q + 1..] + b;
    }
  }

  /** Expansion works piece by piece: text that expands by itself, and does not end in a dollar sign,
      expands to the same whatever follows. */
  lemma {:induction false} ExpandAppend(w: World, counts: Counts, a: string, b: string, args: seq<string>)
    requires |counts| == |w.vars| && (a == [] || a[|a| - 1] != '$')
    requires Expand(w, counts, a, args, false).Done?
    ensures Expand(w, counts, a + b, args, false) ==
      (match Expand(w, counts, b, args, false)
       case Failed(e) => Failed(e)
       case Done(r) => Done((Expand(w, counts, a, args, false).v.0 + r.0, r.1)))
    decreases |a|
  {
    if a == [] {
      assert a + b == b;
      var r := Expand(w, counts, b, args, false);
      assert r.Done? ==> "" + r.v.0 == r.v.0;
    } else {
      assert (a + b)[0] == a[0] && (a + b)[1..] == a[1..] + b;
      if a[0] == '$' {
        var d := Dollar(w, counts, a[1..], args);
        DollarAppend(w, counts, a[1..], b, args);
        hide Dollar;
        ExpandAppend(w, counts, d.v.1, b, args);
        Concat(d.v.0, Expand(w, counts, d.v.1, args, false).v.0, Expand(w, counts, b, args, false));
      } else {
        ExpandAppend(w, counts, a[1..], b, args);
        Concat([a[0]], Expand(w, counts, a[1..], args, false).v.0, Expand(w, counts, b, args, false));
      }
    }
  }

  lemma Concat(a: string, b: string, r: Outcome<(string, string)>)
    ensures r.Done? ==> a + (b + r.v.0) == (a + b) + r.v.0
  {
  }

  // ----- the guard against endless recursion -----

  predicate AtMost(c1: Counts, c2: Counts) {
    |c1| == |c2| && forall i | 0 <= i < |c1| :: c1[i] <= c2[i]
  }

  /** The guard only stops expansions; it never changes their result: what expands while some
      variables are being expanded expands to the same when fewer are. */
  lemma {:induction false} GuardIsHarmless(w: World, c1: Counts, c2: Counts, s: string, args: seq<string>, token: bool)
    requires |c1| == |w.vars| && AtMost(c1, c2) && Expand(w, c2, s, args, token).Done?
    ensures Expand(w, c1, s, args, token) == Expand(w, c2, s, args, token)
    decreases Budget(c2), |s|, 1, 0
  {
    if s == [] {
    } else if s[0] == '$' {
      DollarGuard(w, c1, c2, s[1..], args);
      GuardIsHarmless(w, c1, c2, Dollar(w, c2, s[1..], args).v.1, args, token);
    } else if !(token && IsEndOfToken(s[0])) {
      GuardIsHarmless(w, c1, c2, s[1..], args, token);
    }
  }

  lemma {:induction false} DollarGuard(w: World, c1: Counts, c2: Counts, s: string, args: seq<string>)
    requires |c1| == |w.vars| && AtMost(c1, c2) && Dollar(w, c2, s, args).Done?
    ensures Dollar(w, c1, s, args) == Dollar(w, c2, s, args)
    decreases Budget(c2), |s|, 0, 0
  {
    if s != [] && s[0] == '(' {
      EvalGuard(w, c1, c2, s[1..][..FindClose(s[1..], 0).value], args);
    }
  }

  lemma {:induction false} AllGuard(w: World, c1: Counts, c2: Counts, pieces: seq<string>, args: seq<string>, bound: nat)
    requires |c1| == |w.vars| && AtMost(c1, c2) && forall p <- pieces :: |p| <= bound
    requires ExpandAll(w, c2, pieces, args, bound).Done?
    ensures ExpandAll(w, c1, pieces, args, bound) == ExpandAll(w, c2, pieces, args, bound)
    decreases Budget(c2), bound, 2, |pieces|
  {
    if pieces != [] {
      GuardIsHarmless(w, c1, c2, pieces[0], args, false);
      AllGuard(w, c1, c2, pieces[1..], args, bound);
    }
  }

  lemma {:induction false} EvalGuard(w: World, c1: Counts, c2: Counts, clause: string, args: seq<string>)
    requires |c1| == |w.vars| && AtMost(c1, c2) && EvalClause(w, c2, clause, args).Done?
    ensures EvalClause(w, c1, clause, args) == EvalClause(w, c2, clause, args)
    decreases Budget(c2), |clause|, 3, 0
  {
    if ArgumentOf(clause, args).None? {
      var pieces := Split(clause);
      PiecesFit(clause, 0, "");
      AllGuard(w, c1, c2, pieces, args, |clause|);
      var x := ExpandAll(w, c2, pieces, args, |clause|);
      ResolveGuard(w, c1, c2, x.v[0], x.v[1..]);
    }
  }

  lemma {:induction false} ResolveGuard(w: World, c1: Counts, c2: Counts, name: string, args: seq<string>)
    requires |c1| == |w.vars| && AtMost(c1, c2) && Resolve(w, c2, name, args).Done?
    ensures Resolve(w, c1, name, args) == Resolve(w, c2, name, args)
    decreases Budget(c2), 0, 0, 1
  {
    var i := Lookup(w.vars, name);
    if i.Some? && w.vars[i.value].flavor.Recursive? {
      var k := i.value;
      BudgetShrinks(c2, k);
      BudgetShrinks(c1, k);
      var d1, d2 := c1[k := c1[k] + 1], c2[k := c2[k] + 1];
      GuardIsHarmless(w, d1, d2, w.vars[k].value, args, false);
    }
  }

  // A name that a reference can spell out: no characters of the macro language.
  predicate IsPlainName(s: string) {
    '$' !in s && '(' !in s && ')' !in s && ',' !in s
  }

  lemma {:induction false} PlainDepth(s: string, n: nat)
    requires IsPlainName(s)
    ensures Depth(s, n) == Some(n)
    decreases |s|
  {
    if s != [] {
      PlainDepth(s[1..], n);
    }
  }

  lemma {:induction false} PlainSplit(s: string, acc: string)
    requires IsPlainName(s)
    ensures SplitFrom(s, 0, acc) == [acc + s]
    decreases |s|
  {
    if s == [] {
      assert acc + s == acc;
    } else {
      PlainSplit(s[1..], acc + [s[0]]);
      assert acc + [s[0]] + s[1..] == acc + s;
    }
  }

  /** A plain reference is resolved by its name. */
  lemma {:induction false} PlainReference(w: World, counts: Counts, name: string, rest: string)
    requires |counts| == |w.vars| && IsPlainName(name)
    ensures var s := "$(" + name + ")" + rest;
      s[0] == '$' && Dollar(w, counts, s[1..], []) ==
        (match Resolve(w, counts, name, []) case Failed(e) => Failed(e) case Done(t) => Done((t, rest)))
  {
    var t := ("$(" + name + ")" + rest)[1..];
    assert t[0] == '(' && t[1..] == name + ")" + rest;
    var u := name + ")" + rest;
    assert u[..|name|] == name && u[|name| + 1..] == rest;
    PlainDepth(name, 0);
    ReferenceEnds(u, |name|);
    PlainSplit(name, "");
    assert "" + name == name;
    assert ArgumentOf(name, []).None?;
    PlainAll(w, counts, name);
    assert [name][1..] == [];
  }

  lemma PlainAll(w: World, counts: Counts, name: string)
    requires |counts| == |w.vars| && '$' !in name
    ensures ExpandAll(w, counts, [name], [], |name|) == Done([name])
  {
    PlainText(w, counts, name, []);
    assert [name][1..] == [];
    assert ExpandAll(w, counts, [], [], |name|) == Done([]);
    assert [name] + [] == [name];
  }

  /** A recursive variable whose value refers to itself without arguments cannot be expanded. */
  lemma {:induction false} SelfReferenceFails(w: World, counts: Counts, i: nat, pre: string, post: string)
    requires |counts| == |w.vars| && i < |w.vars| && IsPlainName(w.vars[i].name)
    requires Lookup(w.vars, w.vars[i].name) == Some(i)
    requires w.vars[i].flavor.Recursive? && '$' !in pre
    requires w.vars[i].value == pre + ("$(" + w.vars[i].name + ")" + post)
    ensures ExpandVariable(w, counts, i, []) == Failed(SelfReference)
  {
    if counts[i] == 0 {
      var counts' := counts[i := 1];
      var tail := "$(" + w.vars[i].name + ")" + post;
      PlainReference(w, counts', w.vars[i].name, post);
      assert Expand(w, counts', tail, [], false) == Failed(SelfReference);
      PlainText(w, counts', pre, []);
      ExpandAppend(w, counts', pre, tail, []);
    }
  }
}
