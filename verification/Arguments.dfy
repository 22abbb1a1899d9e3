// Calls in the macro language (preprocess.c): what references to arguments and calls of functions defined
// in the Kconfig files expand to, and which characters make up a token.
module Arguments {
  import opened Tristate
  import opened Preprocess
  import C = Comparing
  import E = Expr

  // ----- numbers of arguments -----

  /** The decimal text of a number. */
  function Decimal(k: nat): string {
    if k < 10 then ["0123456789"[k]] else Decimal(k / 10) + ["0123456789"[k % 10]]
  }

  function AsNumeral(k: nat): C.Numeral {
    C.Numeral("", "", "", Decimal(k))
  }

  lemma OneDigit(d: nat)
    requires d < 10
    ensures C.IsDigit("0123456789"[d], d) && E.DigitOf("0123456789"[d]) == d
    ensures IsPlainName(["0123456789"[d]])
  {
    assert "0123456789abcdef"[d] == "0123456789"[d];
    C.DigitsAreDigits("0123456789"[d], d);
  }

  lemma {:induction false} DecimalCounts(k: nat)
    ensures C.Positional(Decimal(k), 10) == k && Decimal(k) != ""
  {
    var s := Decimal(k);
    OneDigit(k % 10);
    if k >= 10 {
      DecimalCounts(k / 10);
      assert s[..|s| - 1] == Decimal(k / 10) && s[|s| - 1] == "0123456789"[k % 10];
    } else {
      assert s[..0] == "" && C.Positional("", 10) == 0;
    }
  }

  lemma {:induction false} DecimalDigits(k: nat)
    ensures IsPlainName(Decimal(k)) && forall c <- Decimal(k) :: exists d: nat :: d < 10 && C.IsDigit(c, d)
  {
    OneDigit(k % 10);
    if k >= 10 {
      DecimalDigits(k / 10);
    }
    hide C.IsDigit;
  }

  lemma DecimalIsNumeral(k: nat)
    ensures C.IsNumeral(AsNumeral(k), 10) && C.NumeralValue(AsNumeral(k), 10) == k && C.Spelled(AsNumeral(k)) == Decimal(k)
  {
    DecimalCounts(k);
    DecimalDigits(k);
    hide C.IsDigit, C.Positional, Decimal;
  }

  /** The clause is a decimal numeral that strtoul, which reduces modulo 2^64, reads as i. */
  ghost predicate Reads(clause: string, i: nat) {
    exists n ::
      C.IsNumeral(n, 10) && C.Spelled(n) == clause && -E.TWO64 < C.NumeralValue(n, 10) < E.TWO64 &&
      C.NumeralValue(n, 10) % E.TWO64 == i
  }

  /** A reference stands for an argument exactly if it reads as the number of one, counted from 1. */
  lemma ArgumentsAreNumbered(clause: string, args: seq<string>, i: nat)
    ensures ArgumentOf(clause, args) == Some(i) <==> i < |args| && i + 1 < E.TWO64 && Reads(clause, i + 1)
  {
    if Reads(clause, i + 1) {
      var n :| C.IsNumeral(n, 10) && C.Spelled(n) == clause && -E.TWO64 < C.NumeralValue(n, 10) < E.TWO64 &&
        C.NumeralValue(n, 10) % E.TWO64 == i + 1;
      C.NumeralParses(n, 10, true);
    }
    if !E.ParseNumber(clause, 10, true).Text? {
      var n := C.ParsedIsNumeral(clause, 10, true);
      C.NumeralParses(n, 10, true);
    }
    hide E.ParseNumber, C.NumeralValue, C.IsNumeral, C.Spelled;
  }

  // A reference is the value of what stands between its parentheses.
  lemma ReferenceIsClause(w: World, counts: Counts, clause: string, args: seq<string>, rest: string)
    requires |counts| == |w.vars| && Balanced(clause)
    ensures var s := "$(" + clause + ")" + rest;
      s[0] == '$' && Dollar(w, counts, s[1..], args) ==
        (match EvalClause(w, counts, clause, args) case Failed(e) => Failed(e) case Done(t) => Done((t, rest)))
  {
    var t, u := ("$(" + clause + ")" + rest)[1..], clause + ")" + rest;
    assert t[0] == '(' && t[1..] == u;
    assert u[..|clause|] == clause && u[|clause| + 1..] == rest;
    ReferenceEnds(u, |clause|);
    hide EvalClause;
  }

  /** So $(k) is the argument number k. */
  lemma {:induction false} ArgumentReference(w: World, counts: Counts, k: nat, args: seq<string>, rest: string)
    requires |counts| == |w.vars| && 1 <= k <= |args| && k < E.TWO64
    ensures var s := "$(" + Decimal(k) + ")" + rest;
      s[0] == '$' && Dollar(w, counts, s[1..], args) == Done((args[k - 1], rest))
  {
    var name := Decimal(k);
    DecimalReads(k);
    DecimalDigits(k);
    hide Reads, Decimal, Dollar;
    ArgumentsAreNumbered(name, args, k - 1);
    PlainDepth(name, 0);
    ReferenceIsClause(w, counts, name, args, rest);
    hide ArgumentOf, Split, ExpandAll, Resolve;
  }

  lemma DecimalReads(k: nat)
    requires k < E.TWO64
    ensures Reads(Decimal(k), k)
  {
    DecimalIsNumeral(k);
    hide C.IsNumeral, C.Spelled, C.NumeralValue;
  }

  // ----- calls -----

  lemma {:induction false} PlainPieces(w: World, counts: Counts, pieces: seq<string>, args: seq<string>, bound: nat)
    requires |counts| == |w.vars| && (forall p <- pieces :: IsPlainName(p) && |p| <= bound)
    ensures ExpandAll(w, counts, pieces, args, bound) == Done(pieces)
    decreases |pieces|
  {
    if pieces != [] {
      assert pieces[0] in pieces;
      PlainText(w, counts, pieces[0], args);
      PlainPieces(w, counts, pieces[1..], args, bound);
      assert pieces == [pieces[0]] + pieces[1..];
    }
  }

  // Text without characters of the macro language makes a piece.
  lemma PlainIsPiece(p: string)
    requires IsPlainName(p)
    ensures IsPiece(p)
  {
    PlainDepth(p, 0);
  }

  lemma {:induction false} JoinIsBalanced(pieces: seq<string>)
    requires pieces != [] && forall p <- pieces :: IsPlainName(p)
    ensures Balanced(Join(pieces))
    decreases |pieces|
  {
    assert pieces[0] in pieces;
    PlainDepth(pieces[0], 0);
    if |pieces| > 1 {
      JoinIsBalanced(pieces[1..]);
      var tail := "," + Join(pieces[1..]);
      assert tail[1..] == Join(pieces[1..]);
      DepthAppend(pieces[0], tail, 0);
      assert Join(pieces) == pieces[0] + tail;
    }
  }

  lemma {:induction false} JoinIsLonger(pieces: seq<string>)
    ensures forall p <- pieces :: |p| <= |Join(pieces)|
    decreases |pieces|
  {
    if |pieces| > 1 {
      JoinIsLonger(pieces[1..]);
      assert forall p <- pieces :: p == pieces[0] || p in pieces[1..];
    }
  }

  /** A call of something by its name with up to 15 plain arguments is what the name means for these
      arguments. The call stands outside of functions, so that no part of it can be an argument. */
  lemma {:induction false} CallExpands(w: World, counts: Counts, name: string, args: seq<string>, rest: string)
    requires |counts| == |w.vars| && IsPlainName(name) && (forall a <- args :: IsPlainName(a)) && |args| < MAX_ARGS
    ensures var s := "$(" + Join([name] + args) + ")" + rest;
      s[0] == '$' && Dollar(w, counts, s[1..], []) ==
        (match Resolve(w, counts, name, args) case Failed(e) => Failed(e) case Done(t) => Done((t, rest)))
  {
    var pieces := [name] + args;
    var clause := Join(pieces);
    assert forall p <- pieces :: IsPlainName(p);
    JoinIsBalanced(pieces);
    JoinIsLonger(pieces);
    ReferenceIsClause(w, counts, clause, [], rest);
    forall p | p in pieces ensures IsPiece(p) {
      PlainIsPiece(p);
    }
    SplitOfJoin(pieces);
    PlainPieces(w, counts, pieces, [], |clause|);
    assert ArgumentOf(clause, []).None?;
    assert pieces[0] == name && pieces[1..] == args;
    hide Split, ExpandAll, Resolve, Join, Dollar, ArgumentOf;
    assert EvalClause(w, counts, clause, []) == Resolve(w, counts, name, args);
  }

  /** The name means the first variable of that name, or else what the built-in function of that name
      gives, or else, without arguments, the environment variable, or nothing. */
  lemma NameMeans(w: World, counts: Counts, name: string, args: seq<string>)
    requires |counts| == |w.vars|
    ensures forall i :: 0 <= i < |w.vars| && w.vars[i].name == name && (forall j | 0 <= j < i :: w.vars[j].name != name) ==>
      Resolve(w, counts, name, args) == ExpandVariable(w, counts, i, args)
    ensures (forall v <- w.vars :: v.name != name) && w.builtin(name, args) == Done(None) ==>
      Resolve(w, counts, name, args) == Done(if args == [] && w.env(name).Some? then w.env(name).value else "")
    ensures forall t :: (forall v <- w.vars :: v.name != name) && w.builtin(name, args) == Done(Some(t)) ==>
      Resolve(w, counts, name, args) == Done(t)
    ensures forall e :: (forall v <- w.vars :: v.name != name) && w.builtin(name, args) == Failed(e) ==>
      Resolve(w, counts, name, args) == Failed(e)
  {
    FirstOfName(w.vars, name);
    hide ExpandVariable, Lookup;
  }

  lemma {:induction false} FirstOfName(vars: seq<Variable>, name: string)
    ensures var r := Lookup(vars, name); r.Some? ==> forall j | 0 <= j < r.value :: vars[j].name != name
  {
    if vars != [] && vars[0].name != name {
      FirstOfName(vars[1..], name);
    }
  }

  /** A call of a function whose value is $(k) is its argument number k. */
  lemma {:induction false} FunctionCall(w: World, counts: Counts, i: nat, args: seq<string>, k: nat, rest: string)
    requires |counts| == |w.vars| && i < |w.vars| && counts[i] <= MAX_DEPTH
    requires w.vars[i].flavor.Recursive? && w.vars[i].value == "$(" + Decimal(k) + ")"
    requires IsPlainName(w.vars[i].name) && forall j | 0 <= j < i :: w.vars[j].name != w.vars[i].name
    requires (forall a <- args :: IsPlainName(a)) && |args| < MAX_ARGS && 1 <= k <= |args|
    ensures var s := "$(" + Join([w.vars[i].name] + args) + ")" + rest;
      s[0] == '$' && Dollar(w, counts, s[1..], []) == Done((args[k - 1], rest))
  {
    var name := w.vars[i].name;
    CallExpands(w, counts, name, args, rest);
    NameMeans(w, counts, name, args);
    var counts' := counts[i := counts[i] + 1];
    ArgumentReference(w, counts', k, args, "");
    var value := "$(" + Decimal(k) + ")";
    assert value + "" == value;
    hide Dollar, Decimal, Resolve;
    assert Expand(w, counts', "", args, false) == Done(("", ""));
    assert args[k - 1] + "" == args[k - 1];
    assert Expand(w, counts', value, args, false) == Done((args[k - 1], ""));
  }

  lemma UpperCase(c: char)
    ensures 'A' <= c <= 'Z' <==> c in "ABCDEFGHIJKLM" || c in "NOPQRSTUVWXYZ"
  {
    if 'A' <= c <= 'M' {
      assert "ABCDEFGHIJKLM"[c as int - 'A' as int] == c;
    } else if 'N' <= c <= 'Z' {
      assert "NOPQRSTUVWXYZ"[c as int - 'N' as int] == c;
    }
  }

  lemma LowerCase(c: char)
    ensures 'a' <= c <= 'z' <==> c in "abcdefghijklm" || c in "nopqrstuvwxyz"
  {
    if 'a' <= c <= 'm' {
      assert "abcdefghijklm"[c as int - 'a' as int] == c;
    } else if 'n' <= c <= 'z' {
      assert "nopqrstuvwxyz"[c as int - 'n' as int] == c;
    }
  }

  /** A token ends at a character other than letters, digits, and four more. */
  lemma TokenCharacters(c: char)
    ensures !IsEndOfToken(c) <==>
            c in "ABCDEFGHIJKLM" || c in "NOPQRSTUVWXYZ" || c in "abcdefghijklm" || c in "nopqrstuvwxyz" ||
            c in "0123456789" || c in "_-./"
  {
    UpperCase(c);
    LowerCase(c);
    if '0' <= c <= '9' {
      assert "0123456789"[c as int - '0' as int] == c;
    }
  }
}
