// Macro expansion as the program runs it: cursors over strings, commas overwritten in a buffer, and
// the counter exp_count of each variable raised and lowered around its expansion. Every method
// gives what the function of the same name gives, and leaves the counters as they were.
module Macros {
  import opened Tristate
  import opened Preprocess

  const NUL: char := '\0'

  // The C string t starts at place i of the buffer.
  predicate Placed(a: seq<char>, i: nat, t: string) {
    i + |t| < |a| && a[i..i + |t|] == t && a[i + |t|] == NUL && NUL !in t
  }

  // Reading a C string.
  method ReadString(a: array<char>, i: nat, ghost t: string) returns (s: string)
    requires Placed(a[..], i, t)
    ensures s == t && NUL !in s
  {
    var j := i;
    while a[j] != NUL
      invariant i <= j <= i + |t|
      invariant a[i..j] == t[..j - i]
      decreases a.Length - j
    {
      assert a[j] == t[j - i];
      j := j + 1;
    }
    s := a[i..j];
  }

  // The pieces found so far lie before prev, each ended by a NUL.
  predicate AllPlaced(a: seq<char>, argv: seq<nat>, pieces: seq<string>, prev: nat) {
    |argv| == |pieces| &&
    forall k | 0 <= k < |argv| :: argv[k] + |pieces[k]| < prev && Placed(a, argv[k], pieces[k])
  }

  // A NUL written at p ends the piece that starts at prev.
  lemma CutPiece(a: seq<char>, argv: seq<nat>, pieces: seq<string>, s: string, prev: nat, p: nat)
    requires AllPlaced(a, argv, pieces, prev) && prev <= p <= |s| && NUL !in s && |a| == |s| + 1
    requires forall k | prev <= k < p :: a[k] == s[k]
    ensures AllPlaced(a[p := NUL], argv + [prev], pieces + [s[prev..p]], p + 1)
  {
    var b := a[p := NUL];
    assert b[prev..p] == s[prev..p];
    forall k | 0 <= k < |argv| ensures Placed(b, argv[k], pieces[k]) {
      assert b[argv[k]..argv[k] + |pieces[k]|] == a[argv[k]..argv[k] + |pieces[k]|];
    }
  }

  lemma NonePlaced(a: seq<char>, argv: seq<nat>, pieces: seq<string>)
    requires argv == [] && pieces == []
    ensures AllPlaced(a, argv, pieces, 0)
  {
  }

  // The steps of the split at place p.
  lemma SplitAtComma(s: string, pieces: seq<string>, prev: nat, p: nat)
    requires prev <= p < |s| && s[p] == ','
    ensures pieces + SplitFrom(s[p..], 0, s[prev..p]) ==
      (pieces + [s[prev..p]]) + SplitFrom(s[p + 1..], 0, s[p + 1..p + 1])
  {
    assert s[p..][0] == s[p];
    assert s[p..][1..] == s[p + 1..];
    assert s[p + 1..p + 1] == "";
  }

  lemma SplitOnward(s: string, nest: int, prev: nat, p: nat)
    requires prev <= p < |s| && !(nest == 0 && s[p] == ',')
    ensures SplitFrom(s[p..], nest, s[prev..p]) == SplitFrom(s[p + 1..], Nested(s[p], nest), s[prev..p + 1])
  {
    assert s[p..][0] == s[p];
    assert s[p..][1..] == s[p + 1..];
    var a, b := s[prev..p] + [s[p]], s[prev..p + 1];
    forall k | 0 <= k < |b| ensures a[k] == b[k] {
    }
    assert a == b;
  }

  lemma SplitAtEnd(s: string, nest: int, prev: nat)
    requires prev <= |s|
    ensures SplitFrom(s[|s|..], nest, s[prev..|s|]) == [s[prev..|s|]]
  {
  }

  // The splitting loop of eval_clause: commas are overwritten, and argv receives the places where the
  // pieces start. At a comma the program looks whether there is a slot left, but not for the last
  // piece: that write is within argv exactly when the clause does not have 17 pieces.
  method SplitInPlace(tmp: array<char>, argv: array<nat>, ghost s: string) returns (r: Outcome<nat>)
    requires NUL !in s && tmp[..] == s + [NUL] && argv.Length == MAX_ARGS && (tmp as object) != (argv as object)
    modifies tmp, argv
    ensures r.Done? <==> |Split(s)| <= MAX_ARGS
    ensures r == Failed(ArgvOverrun) <==> |Split(s)| == MAX_ARGS + 1
    ensures r == Failed(TooManyArguments) <==> |Split(s)| > MAX_ARGS + 1
    ensures r.Done? ==> r.v == |Split(s)| && AllPlaced(tmp[..], argv[..r.v], Split(s), tmp.Length)
  {
    hide SplitFrom, Placed, AllPlaced;
    var argc := 0;
    ghost var pieces: seq<string> := [];
    var prev, p, nest := 0, 0, 0;
    assert s[0..] == s && s[0..0] == "";
    assert AllPlaced(tmp[..], argv[..0], pieces, 0) by {
      NonePlaced(tmp[..], argv[..0], pieces);
    }
    while tmp[p] != NUL
      invariant 0 <= prev <= p <= |s| && argc == |pieces| <= MAX_ARGS
      invariant forall k | prev <= k < tmp.Length :: tmp[k] == (s + [NUL])[k]
      invariant Split(s) == pieces + SplitFrom(s[p..], nest, s[prev..p])
      invariant AllPlaced(tmp[..], argv[..argc], pieces, prev)
      decreases |s| - p
    {
      assert tmp[p] == s[p];
      if nest == 0 && tmp[p] == ',' {
        CutPiece(tmp[..], argv[..argc], pieces, s, prev, p);
        SplitAtComma(s, pieces, prev, p);
        tmp[p] := NUL;
        if argc >= argv.Length {
          return Failed(TooManyArguments);
        }
        argv[argc] := prev;
        assert argv[..argc + 1] == argv[..argc] + [prev];
        argc, pieces := argc + 1, pieces + [s[prev..p]];
        prev := p + 1;
      } else {
        SplitOnward(s, nest, prev, p);
        nest := Nested(tmp[p], nest);
      }
      p := p + 1;
    }
    assert p == |s|;
    SplitAtEnd(s, nest, prev);
    if argc == argv.Length {
      // The unchecked write.
      return Failed(ArgvOverrun);
    }
    CutPiece(tmp[..], argv[..argc], pieces, s, prev, p);
    assert tmp[..][p := NUL] == tmp[..];
    argv[argc] := prev;
    assert argv[..argc + 1] == argv[..argc] + [prev];
    assert Split(s) == pieces + [s[prev..p]];
    r := Done(argc + 1);
  }

  class Preprocessor {
    const world: World
    const expCount: array<nat>

    constructor (world: World)
      requires forall v <- world.vars :: NUL !in v.value
      ensures this.world == world && fresh(expCount) && Valid() && forall n <- expCount[..] :: n == 0
    {
      this.world := world;
      expCount := new nat[|world.vars|](_ => 0);
    }

    predicate Valid()
      reads this
    {
      expCount.Length == |world.vars| && forall v <- world.vars :: NUL !in v.value
    }

    ghost function Remaining(): nat
      reads expCount
    {
      Budget(expCount[..])
    }

    /** __expand_string. */
    method ExpandString(str: string, args: seq<string>, token: bool) returns (r: Outcome<(string, string)>)
      requires Valid() && NUL !in str
      modifies expCount
      ensures r == Expand(world, old(expCount[..]), str, args, token)
      ensures r.Done? ==> expCount[..] == old(expCount[..])
      decreases Remaining(), |str|, 1, 0
    {
      hide Expand, Dollar, Prepend, IsEndOfToken;
      var out := "";
      var from, p := 0, 0;
      ghost var counts, all := expCount[..], Expand(world, expCount[..], str, args, token);
      assert str[0..] == str && "" + str[0..0] == "";
      PrependNothing(all);
      while p < |str|
        invariant 0 <= from <= p <= |str| && expCount[..] == counts
        invariant all == Prepend(out + str[from..p], Expand(world, counts, str[p..], args, token))
        decreases |str| - p
      {
        assert str[p..][0] == str[p] && str[p..][1..] == str[p + 1..];
        ExpandStep(world, counts, str[p..], args, token);
        if str[p] == '$' {
          DollarRest(world, counts, str[p + 1..], args);
          var d := ExpandDollar(str[p + 1..], args);
          if d.Failed? {
            FailedAll(out + str[from..p], d.error);
            return Failed(d.error);
          }
          PrependTwice(out + str[from..p], d.v.0, Expand(world, counts, d.v.1, args, token));
          out := out + str[from..p] + d.v.0;
          p := |str| - |d.v.1|;
          from := p;
          assert out + str[from..p] == out && str[p..] == d.v.1;
        } else {
          if token && IsEndOfToken(str[p]) {
            break;
          }
          PrependTwice(out + str[from..p], [str[p]], Expand(world, counts, str[p + 1..], args, token));
          assert out + str[from..p] + [str[p]] == out + str[from..p + 1];
          p := p + 1;
        }
      }
      ExpandStep(world, counts, str[p..], args, token);
      DoneAll(out + str[from..p], str[p..]);
      r := Done((out + str[from..p], str[p..]));
    }

    /** expand_dollar_with_args. */
    method ExpandDollar(str: string, args: seq<string>) returns (r: Outcome<(string, string)>)
      requires Valid() && NUL !in str
      modifies expCount
      ensures r == Dollar(world, old(expCount[..]), str, args)
      ensures r.Done? ==> expCount[..] == old(expCount[..])
      decreases Remaining(), |str|, 0, 0
    {
      if str == [] || str[0] != '(' {
        return Done(("$", str));
      }
      var p := str[1..];
      var q, nest := 0, 0;
      while q < |p| && !(p[q] == ')' && nest == 0)
        invariant 0 <= q <= |p| && nest >= 0
        invariant FindClose(p, 0) ==
          (match FindClose(p[q..], nest) case None => None case Some(k) => Some(q + k))
      {
        assert p[q..][0] == p[q] && p[q..][1..] == p[q + 1..];
        if p[q] == '(' {
          nest := nest + 1;
        } else if p[q] == ')' {
          nest := nest - 1;
        }
        q := q + 1;
      }
      if q == |p| {
        return Failed(Unterminated);
      }
      assert p[q..][0] == p[q];
      var t := EvalClause(p[..q], args);
      if t.Failed? {
        return Failed(t.error);
      }
      return Done((t.v, p[q + 1..]));
    }

    /** eval_clause. */
    method EvalClause(clause: string, args: seq<string>) returns (r: Outcome<string>)
      requires Valid() && NUL !in clause
      modifies expCount
      ensures r == Preprocess.EvalClause(world, old(expCount[..]), clause, args)
      ensures r.Done? ==> expCount[..] == old(expCount[..])
      decreases Remaining(), |clause|, 3, 0
    {
      var n := ArgumentOf(clause, args);
      if n.Some? {
        return Done(args[n.value]);
      }
      var tmp := new char[|clause| + 1](i requires i >= 0 => if i < |clause| then clause[i] else NUL);
      assert tmp[..] == clause + [NUL];
      var argv := new nat[MAX_ARGS](_ => 0);
      var argc := SplitInPlace(tmp, argv, clause);
      if argc.Failed? {
        return Failed(argc.error);
      }
      PiecesFit(clause, 0, "");
      var x := ExpandPieces(tmp, argv, argc.v, Split(clause), args, |clause|);
      if x.Failed? {
        return Failed(x.error);
      }
      r := Resolve(x.v[0], x.v[1..]);
    }

    // The loop of eval_clause that expands the name and the arguments.
    method ExpandPieces(tmp: array<char>, argv: array<nat>, argc: nat, ghost pieces: seq<string>, args: seq<string>,
                        ghost bound: nat)
      returns (r: Outcome<seq<string>>)
      requires Valid() && argc == |pieces| <= argv.Length && (tmp as object) != (expCount as object) && argv != expCount
      requires forall k | 0 <= k < argc :: Placed(tmp[..], argv[k], pieces[k]) && |pieces[k]| <= bound
      modifies expCount
      ensures r == ExpandAll(world, old(expCount[..]), pieces, args, bound)
      ensures r.Done? ==> expCount[..] == old(expCount[..])
      decreases Remaining(), bound, 2, |pieces|
    {
      hide ExpandAll, Expand, Placed;
      ghost var counts, all := expCount[..], ExpandAll(world, expCount[..], pieces, args, bound);
      var out: seq<string> := [];
      var i := 0;
      assert pieces[0..] == pieces;
      PrependAllNothing(all);
      while i < argc
        invariant 0 <= i <= argc && expCount[..] == counts
        invariant all == PrependAll(out, ExpandAll(world, counts, pieces[i..], args, bound))
      {
        ExpandAllStep(world, counts, pieces[i..], args, bound);
        assert pieces[i..][0] == pieces[i] && pieces[i..][1..] == pieces[i + 1..];
        var piece := ReadString(tmp, argv[i], pieces[i]);
        var x := ExpandString(piece, args, false);
        if x.Failed? {
          return Failed(x.error);
        }
        PrependAllTwice(out, [x.v.0], ExpandAll(world, counts, pieces[i + 1..], args, bound));
        out := out + [x.v.0];
        i := i + 1;
      }
      ExpandAllStep(world, counts, pieces[i..], args, bound);
      assert out + [] == out;
      r := Done(out);
    }

    // The search of eval_clause for what a name stands for.
    method Resolve(name: string, args: seq<string>) returns (r: Outcome<string>)
      requires Valid()
      modifies expCount
      ensures r == Preprocess.Resolve(world, old(expCount[..]), name, args)
      ensures r.Done? ==> expCount[..] == old(expCount[..])
      decreases Remaining(), 0, 0, 1
    {
      var i := VariableLookup(name);
      if i.Some? {
        r := ExpandVariable(i.value, args);
        return;
      }
      var f := world.builtin(name, args);
      if f.Failed? {
        return Failed(f.error);
      }
      if f.v.Some? {
        return Done(f.v.value);
      }
      if args == [] {
        var value := world.env(name);
        if value.Some? {
          return Done(value.value);
        }
      }
      return Done("");
    }

    /** variable_lookup. */
    method VariableLookup(name: string) returns (r: Option<nat>)
      ensures r == Lookup(world.vars, name)
    {
      var i := 0;
      assert world.vars[0..] == world.vars;
      while i < |world.vars|
        invariant 0 <= i <= |world.vars|
        invariant Lookup(world.vars, name) ==
          (match Lookup(world.vars[i..], name) case None => None case Some(k) => Some(i + k))
      {
        assert world.vars[i..][0] == world.vars[i] && world.vars[i..][1..] == world.vars[i + 1..];
        if world.vars[i].name == name {
          return Some(i);
        }
        i := i + 1;
      }
      return None;
    }

    /** variable_expand. */
    method ExpandVariable(i: nat, args: seq<string>) returns (r: Outcome<string>)
      requires Valid() && i < |world.vars|
      modifies expCount
      ensures r == Preprocess.ExpandVariable(world, old(expCount[..]), i, args)
      ensures r.Done? ==> expCount[..] == old(expCount[..])
      decreases Remaining(), 0, 0, 0
    {
      var v := world.vars[i];
      if |args| == 0 && expCount[i] != 0 {
        return Failed(SelfReference);
      }
      if expCount[i] > MAX_DEPTH {
        return Failed(TooDeep);
      }
      ghost var counts := expCount[..];
      BudgetShrinks(counts, i);
      expCount[i] := expCount[i] + 1;
      assert expCount[..] == counts[i := counts[i] + 1];
      if v.flavor.Recursive? {
        var x := ExpandString(v.value, args, false);
        if x.Failed? {
          return Failed(x.error);
        }
        r := Done(x.v.0);
      } else {
        r := Done(v.value);
      }
      expCount[i] := expCount[i] - 1;
      assert expCount[..] == counts;
    }
  }

  function Prepend(s: string, r: Outcome<(string, string)>): Outcome<(string, string)> {
    if r.Failed? then r else Done((s + r.v.0, r.v.1))
  }

  function PrependAll(s: seq<string>, r: Outcome<seq<string>>): Outcome<seq<string>> {
    if r.Failed? then r else Done(s + r.v)
  }

  lemma FailedAll(s: string, e: Error)
    ensures Prepend(s, Failed(e)) == Failed(e)
  {
  }

  lemma DoneAll(s: string, rest: string)
    ensures Prepend(s, Done(("", rest))) == Done((s, rest))
  {
    assert s + "" == s;
  }

  lemma PrependNothing(r: Outcome<(string, string)>)
    ensures Prepend("", r) == r
  {
    assert r.Done? ==> "" + r.v.0 == r.v.0;
  }

  lemma PrependTwice(a: string, b: string, r: Outcome<(string, string)>)
    ensures Prepend(a, Prepend(b, r)) == Prepend(a + b, r)
  {
    assert r.Done? ==> a + (b + r.v.0) == a + b + r.v.0;
  }

  // One step of the loop of __expand_string.
  lemma ExpandStep(w: World, counts: Counts, s: string, args: seq<string>, token: bool)
    requires |counts| == |w.vars|
    ensures var r := Expand(w, counts, s, args, token);
      if s == [] then r == Done(("", ""))
      else if s[0] == '$' then
        var d := Dollar(w, counts, s[1..], args);
        if d.Failed? then r == Failed(d.error) else r == Prepend(d.v.0, Expand(w, counts, d.v.1, args, token))
      else if token && IsEndOfToken(s[0]) then r == Done(("", s))
      else r == Prepend([s[0]], Expand(w, counts, s[1..], args, token))
  {
  }

  lemma PrependAllNothing(r: Outcome<seq<string>>)
    ensures PrependAll([], r) == r
  {
    assert r.Done? ==> [] + r.v == r.v;
  }

  lemma PrependAllTwice(a: seq<string>, b: seq<string>, r: Outcome<seq<string>>)
    ensures PrependAll(a, PrependAll(b, r)) == PrependAll(a + b, r)
  {
    assert r.Done? ==> a + (b + r.v) == a + b + r.v;
  }

  // One step of the loop that expands the pieces.
  lemma ExpandAllStep(w: World, counts: Counts, pieces: seq<string>, args: seq<string>, bound: nat)
    requires |counts| == |w.vars| && forall p <- pieces :: |p| <= bound
    ensures var r := ExpandAll(w, counts, pieces, args, bound);
      if pieces == [] then r == Done([])
      else
        var x := Expand(w, counts, pieces[0], args, false);
        if x.Failed? then r == Failed(x.error)
        else r == PrependAll([x.v.0], ExpandAll(w, counts, pieces[1..], args, bound))
  {
  }

  // What remains after a reference is the end of the string.
  lemma DollarRest(w: World, counts: Counts, s: string, args: seq<string>)
    requires |counts| == |w.vars|
    ensures var r := Dollar(w, counts, s, args);
      r.Done? ==> |r.v.1| <= |s| && r.v.1 == s[|s| - |r.v.1|..]
  {
  }
}
