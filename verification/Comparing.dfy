// What the comparisons of expr_calc_value and expr_parse_string (expr.c) mean: which texts are numbers,
// and in which order texts and numbers come.
module Comparing {
  import opened Tristate
  import opened Expr

  /** The relations, in terms of being less and being equal. */
  predicate Related(rel: Rel, less: bool, equal: bool) {
    match rel
    case Eq => equal
    case Ne => !equal
    case Lt => less
    case Le => less || equal
    case Gt => !less && !equal
    case Ge => !less
  }

  // ----- the order of texts -----

  /** a comes before b: at the first difference its character is the lower one, or it ends. */
  ghost predicate Precedes(a: string, b: string) {
    exists i :: DiffersAt(a, b, i)
  }

  ghost predicate DiffersAt(a: string, b: string, i: nat) {
    i <= |a| && i < |b| && a[..i] == b[..i] && (i == |a| || a[i] < b[i])
  }

  lemma DiffersLater(a: string, b: string, i: nat)
    requires a != [] && b != [] && a[0] == b[0]
    ensures DiffersAt(a, b, i + 1) <==> DiffersAt(a[1..], b[1..], i)
    ensures !DiffersAt(a, b, 0)
  {
    if i < |a| && i + 1 < |b| {
      assert a[..i + 1] == [a[0]] + a[1..][..i] && b[..i + 1] == [b[0]] + b[1..][..i];
    }
  }

  lemma {:induction false} PrecedesNext(a: string, b: string)
    requires a != [] && b != [] && a[0] == b[0]
    ensures Precedes(a, b) <==> Precedes(a[1..], b[1..])
  {
    if Precedes(a, b) {
      var i: nat :| DiffersAt(a, b, i);
      DiffersLater(a, b, if i == 0 then 0 else i - 1);
    }
    if Precedes(a[1..], b[1..]) {
      var i: nat :| DiffersAt(a[1..], b[1..], i);
      DiffersLater(a, b, i);
    }
  }

  /** strcmp is the lexicographic order. */
  lemma {:induction false} StrCmpOrders(a: string, b: string)
    ensures StrCmp(a, b) < 0 <==> Precedes(a, b)
    ensures StrCmp(a, b) == 0 <==> a == b
  {
    StrCmpEqual(a, b);
    if a != [] && b != [] && a[0] == b[0] {
      StrCmpOrders(a[1..], b[1..]);
      PrecedesNext(a, b);
    } else if a != [] && b != [] {
      assert DiffersAt(a, b, 0) <==> a[0] < b[0];
      assert forall i: nat :: DiffersAt(a, b, i) ==> i == 0 by {
        assert forall i: nat :: 0 < i <= |a| && i < |b| ==> a[..i][0] == a[0] && b[..i][0] == b[0];
      }
    } else {
      assert DiffersAt(a, b, 0) <==> a == [] && b != [];
    }
  }

  // ----- numerals -----

  /** A text that is a number: white space, a sign, a prefix and digits. */
  datatype Numeral = Numeral(space: string, sign: string, prefix: string, digits: string)

  function Spelled(n: Numeral): string {
    n.space + (n.sign + (n.prefix + n.digits))
  }

  predicate IsSpace(c: char) {
    c == ' ' || c == '\t' || c == '\n' || c == '\r' || c as int == 11 || c as int == 12
  }

  /** c is the digit d of the hexadecimal system. */
  predicate IsDigit(c: char, d: nat) {
    d < 16 && ("0123456789abcdef"[d] == c || "0123456789ABCDEF"[d] == c)
  }

  // The system in which a numeral is read, where base 0 leaves it to the numeral.
  function Radix(n: Numeral, base: nat): nat {
    if n.prefix != "" then 16
    else if base != 0 then base
    else if n.digits != "" && n.digits[0] == '0' then 8
    else 10
  }

  /** base is 10, 16, or 0 for any of them. */
  ghost predicate IsNumeral(n: Numeral, base: nat) {
    (forall c <- n.space :: IsSpace(c)) && n.sign in {"", "+", "-"} && n.digits != "" &&
    (n.prefix == "" || (n.prefix in {"0x", "0X"} && base != 10)) &&
    forall c <- n.digits :: exists d: nat :: d < Radix(n, base) && IsDigit(c, d)
  }

  /** The value of a row of digits, the last one being the units. */
  function Positional(s: string, radix: nat): nat {
    if s == "" then 0 else Positional(s[..|s| - 1], radix) * radix + DigitOf(s[|s| - 1])
  }

  function NumeralValue(n: Numeral, base: nat): int {
    var v: int := Positional(n.digits, Radix(n, base));
    if n.sign == "-" then -v else v
  }

  lemma DigitsAreDigits(c: char, d: nat)
    ensures IsDigit(c, d) <==> d < 16 && DigitOf(c) == d
  {
  }

  predicate AllDigits(s: string, radix: nat) {
    forall c <- s :: DigitOf(c) < radix
  }

  lemma DigitsBelow(s: string, radix: nat)
    requires radix <= 16
    ensures AllDigits(s, radix) <==> forall c <- s :: exists d: nat :: d < radix && IsDigit(c, d)
  {
    forall c | c in s ensures DigitOf(c) < radix <==> exists d: nat :: d < radix && IsDigit(c, d) {
      DigitsAreDigits(c, DigitOf(c));
      if d: nat :| d < radix && IsDigit(c, d) {
        DigitsAreDigits(c, d);
      }
    }
  }

  function Power(b: nat, n: nat): nat {
    if n == 0 then 1 else b * Power(b, n - 1)
  }

  // A row of digits read from the left.
  lemma {:induction false} PositionalFront(s: string, radix: nat)
    requires s != ""
    ensures Positional(s, radix) == DigitOf(s[0]) * Power(radix, |s| - 1) + Positional(s[1..], radix)
    decreases |s|
  {
    if |s| > 1 {
      var t := s[..|s| - 1];
      PositionalFront(t, radix);
      assert s[1..][..|s| - 2] == t[1..] && t[0] == s[0];
      Distribute(radix, DigitOf(s[0]), Power(radix, |s| - 2), Positional(t[1..], radix));
    } else {
      assert s[..0] == "" && s[1..] == "";
    }
  }

  lemma Distribute(r: nat, d: nat, p: nat, q: nat)
    ensures (d * p + q) * r == d * (r * p) + q * r
  {
  }

  /** strtoll reads digits from the left, and gives their value. */
  lemma {:induction false} DigitsRead(s: string, radix: nat, acc: nat)
    ensures Digits(s, radix, acc) ==
            if AllDigits(s, radix) then Some(acc * Power(radix, |s|) + Positional(s, radix)) else None
    decreases |s|
  {
    if s != "" {
      assert s == [s[0]] + s[1..];
      if DigitOf(s[0]) < radix {
        DigitsRead(s[1..], radix, acc * radix + DigitOf(s[0]));
        PositionalFront(s, radix);
        Regroup(acc, radix, DigitOf(s[0]), Power(radix, |s| - 1));
      } else {
        assert s[0] in s;
      }
    }
  }

  lemma Regroup(a: nat, r: nat, d: nat, p: nat)
    ensures (a * r + d) * p == a * (r * p) + d * p
  {
  }

  // ----- which texts are numbers -----

  lemma SpacesAreSpaces(c: char)
    ensures IsSpace(c) <==> c == ' ' || 9 <= c as int <= 13
  {
  }

  lemma {:induction false} SpaceSkipped(space: string, rest: string)
    requires (forall c <- space :: IsSpace(c)) && (rest == "" || !IsSpace(rest[0]))
    ensures SkipSpace(space + rest) == rest
  {
    if space != "" {
      SpacesAreSpaces(space[0]);
      assert (space + rest)[0] == space[0] && (space + rest)[1..] == space[1..] + rest;
      assert space[0] in space;
      SpaceSkipped(space[1..], rest);
    } else {
      assert space + rest == rest;
      if rest != "" {
        SpacesAreSpaces(rest[0]);
      }
    }
  }

  lemma {:induction false} SpaceSplits(s: string) returns (space: string)
    ensures s == space + SkipSpace(s) && forall c <- space :: IsSpace(c)
  {
    if s != "" && (s[0] == ' ' || 9 <= s[0] as int <= 13) {
      SpacesAreSpaces(s[0]);
      var more := SpaceSplits(s[1..]);
      space := [s[0]] + more;
      assert s == [s[0]] + s[1..];
    } else {
      space := "";
    }
  }

  // A sign or a digit is no white space.
  lemma NumeralStarts(n: Numeral, base: nat)
    requires IsNumeral(n, base)
    ensures var rest := n.sign + (n.prefix + n.digits); rest != "" && !IsSpace(rest[0])
    ensures var body := n.prefix + n.digits; body != "" && body[0] != '-' && body[0] != '+'
  {
    DigitIsOther(n.digits[0]);
    hide IsDigit, IsSpace, Radix;
    var body, rest := n.prefix + n.digits, n.sign + (n.prefix + n.digits);
    assert n.digits[0] in n.digits;
    assert body[0] == if n.prefix == "" then n.digits[0] else '0';
    assert rest[0] == if n.sign == "" then body[0] else n.sign[0];
    SignsAndZero();
  }

  lemma DigitIsOther(c: char)
    ensures (exists d: nat :: IsDigit(c, d)) ==> !IsSpace(c) && c != '-' && c != '+'
  {
    if d: nat :| IsDigit(c, d) {
      DigitsAreDigits(c, d);
    }
  }

  lemma SignsAndZero()
    ensures !IsSpace('+') && !IsSpace('-') && !IsSpace('0')
  {
  }

  lemma NumeralDigits(n: Numeral, base: nat)
    requires IsNumeral(n, base) && base in {0, 10, 16}
    ensures var radix := Radix(n, base);
      AllDigits(n.digits, radix) && Digits(n.digits, radix, 0) == Some(Positional(n.digits, radix)) && radix <= 16
  {
    DigitsBelow(n.digits, Radix(n, base));
    DigitsRead(n.digits, Radix(n, base), 0);
  }

  lemma NoHexPrefix(digits: string, radix: nat)
    requires AllDigits(digits, radix) && radix <= 16
    ensures !HasHexPrefix(digits)
  {
    if |digits| >= 2 {
      assert digits[1] in digits;
    }
  }

  lemma MagnitudeOfNumeral(n: Numeral, base: nat)
    requires IsNumeral(n, base) && base in {0, 10, 16}
    ensures Magnitude(n.prefix + n.digits, base) == Some(Positional(n.digits, Radix(n, base)))
  {
    NumeralDigits(n, base);
    if n.prefix == "" {
      assert n.prefix + n.digits == n.digits;
      NoHexPrefix(n.digits, Radix(n, base));
    } else {
      var s := n.prefix + n.digits;
      assert s[2..] == n.digits && s[2] == n.digits[0] && s[0] == n.prefix[0] && s[1] == n.prefix[1];
      assert n.digits[0] in n.digits;
      hide AllDigits, Positional, Digits;
    }
  }

  // What expr_parse_string makes of a number.
  function Entered(v: int, unsigned: bool): Parsed {
    if unsigned then (if -TWO64 < v < TWO64 then Unsigned(v % TWO64) else Text)
    else if -TWO63 <= v < TWO63 then Signed(v) else Text
  }

  /** A numeral enters comparisons with its value, unless the value is out of range. */
  lemma NumeralParses(n: Numeral, base: nat, unsigned: bool)
    requires IsNumeral(n, base) && base in {0, 10, 16}
    ensures ParseNumber(Spelled(n), base, unsigned) == Entered(NumeralValue(n, base), unsigned)
  {
    NumeralStarts(n, base);
    var body := n.prefix + n.digits;
    SpaceSkipped(n.space, n.sign + body);
    MagnitudeOfNumeral(n, base);
    hide Magnitude, SkipSpace, IsNumeral, Positional, Radix;
    SignedParses(Spelled(n), n.sign, body, base, unsigned, Positional(n.digits, Radix(n, base)));
  }

  lemma SignedParses(str: string, sign: string, body: string, base: nat, unsigned: bool, v: nat)
    requires sign in {"", "+", "-"} && body != "" && body[0] != '-' && body[0] != '+' && base in {0, 10, 16}
    requires SkipSpace(str) == sign + body && Magnitude(body, base) == Some(v)
    ensures ParseNumber(str, base, unsigned) == Entered(if sign == "-" then -(v as int) else v, unsigned)
  {
    hide Magnitude, SkipSpace;
    SignSplits(sign, body);
    Complement(v);
  }

  lemma Complement(v: int)
    ensures 0 <= v < TWO64 ==> v % TWO64 == v && (TWO64 - v) % TWO64 == -v % TWO64
  {
    if 0 < v < TWO64 {
      assert TWO64 - v == (TWO64 - v) % TWO64;
    }
  }

  lemma SignSplits(sign: string, body: string)
    requires sign in {"", "+", "-"} && body != "" && body[0] != '-' && body[0] != '+'
    ensures var t := sign + body;
      t != "" && (t[0] == '-' <==> sign == "-") && (t[0] == '+' <==> sign == "+") &&
      body == if t[0] == '-' || t[0] == '+' then t[1..] else t
  {
    assert sign == "" ==> sign + body == body;
  }

  lemma MagnitudeIsNumeral(space: string, sign: string, body: string, base: nat) returns (n: Numeral)
    requires base in {0, 10, 16} && Magnitude(body, base).Some? && sign in {"", "+", "-"} && forall c <- space :: IsSpace(c)
    ensures IsNumeral(n, base) && n.space == space && n.sign == sign && n.prefix + n.digits == body
  {
    if (base == 0 || base == 16) && HasHexPrefix(body) {
      n := Numeral(space, sign, body[..2], body[2..]);
      assert body[..2] == [body[0], body[1]];
      DigitsRead(n.digits, 16, 0);
      DigitsBelow(n.digits, 16);
    } else {
      n := Numeral(space, sign, "", body);
      DigitsRead(body, Radix(n, base), 0);
      DigitsBelow(body, Radix(n, base));
    }
  }

  /** What enters comparisons as a number is a numeral. */
  lemma ParsedIsNumeral(str: string, base: nat, unsigned: bool) returns (n: Numeral)
    requires base in {0, 10, 16} && !ParseNumber(str, base, unsigned).Text?
    ensures IsNumeral(n, base) && Spelled(n) == str
  {
    var space := SpaceSplits(str);
    var t := SkipSpace(str);
    if t != "" && (t[0] == '-' || t[0] == '+') {
      assert t[..1] == [t[0]] && t == t[..1] + t[1..];
      n := MagnitudeIsNumeral(space, t[..1], t[1..], base);
    } else {
      n := MagnitudeIsNumeral(space, "", t, base);
      assert "" + t == t;
    }
  }

  // ----- comparisons -----

  function BaseOf(typ: Type): nat {
    if typ.Int? then 10 else if typ.Hex? then 16 else 0
  }

  /** The text of a symbol of this type is worth v: a bool or tristate is worth its value, and other
      symbols the number they spell, if it is in the range of 64 bits. */
  ghost predicate Worth(typ: Type, str: string, v: int) {
    if typ.Boolean? || typ.Tri3? then 0 <= v <= 2 && str == Letter(v)
    else
      (if typ.Hex? then -TWO64 < v < TWO64 else -TWO63 <= v < TWO63) &&
      exists n :: IsNumeral(n, BaseOf(typ)) && Spelled(n) == str && NumeralValue(n, BaseOf(typ)) == v
  }

  lemma WorthParses(typ: Type, str: string, v: int)
    requires Worth(typ, str, v)
    ensures ParseString(str, typ) == if typ.Hex? then Unsigned(v % TWO64) else Signed(v)
  {
    if !typ.Boolean? && !typ.Tri3? {
      var n :| IsNumeral(n, BaseOf(typ)) && Spelled(n) == str && NumeralValue(n, BaseOf(typ)) == v;
      NumeralParses(n, BaseOf(typ), typ.Hex?);
    }
  }

  lemma ParsesWorth(typ: Type, str: string)
    requires !typ.Boolean? && !typ.Tri3? && !ParseString(str, typ).Text?
    ensures exists v :: Worth(typ, str, v)
  {
    var n := ParsedIsNumeral(str, BaseOf(typ), typ.Hex?);
    NumeralParses(n, BaseOf(typ), typ.Hex?);
    assert Worth(typ, str, NumeralValue(n, BaseOf(typ)));
  }

  // The text is not that of a number.
  ghost predicate Worthless(typ: Type, str: string) {
    !typ.Boolean? && !typ.Tri3? && forall v :: !Worth(typ, str, v)
  }

  /** Two strings, and texts of which one is not a number, compare in the lexicographic order. */
  lemma TextsCompare(env: Env, rel: Rel, a: Sym, b: Sym)
    requires var x, y := Lookup(env, a).str, Lookup(env, b).str;
      (TypeOf(a).String? && TypeOf(b).String?) || Worthless(TypeOf(a), x) || Worthless(TypeOf(b), y)
    ensures var x, y := Lookup(env, a).str, Lookup(env, b).str;
      Eval(Cmp(rel, a, b), env) == YES <==> Related(rel, Precedes(x, y), x == y)
  {
    var x, y := Lookup(env, a).str, Lookup(env, b).str;
    StrCmpOrders(x, y);
    if Worthless(TypeOf(a), x) && !ParseString(x, TypeOf(a)).Text? {
      ParsesWorth(TypeOf(a), x);
    }
    if Worthless(TypeOf(b), y) && !ParseString(y, TypeOf(b)).Text? {
      ParsesWorth(TypeOf(b), y);
    }
    hide ParseString, Worth, Precedes, StrCmp;
  }

  /** Two numbers, unless both symbols are strings, compare in the order of their values; with a hex
      symbol this is the order of the values modulo 2^64. */
  lemma NumbersCompare(env: Env, rel: Rel, a: Sym, b: Sym, v: int, w: int)
    requires !(TypeOf(a).String? && TypeOf(b).String?)
    requires Worth(TypeOf(a), Lookup(env, a).str, v) && Worth(TypeOf(b), Lookup(env, b).str, w)
    ensures Eval(Cmp(rel, a, b), env) == YES <==>
            if TypeOf(a).Hex? || TypeOf(b).Hex? then Related(rel, v % TWO64 < w % TWO64, v % TWO64 == w % TWO64)
            else Related(rel, v < w, v == w)
  {
    WorthParses(TypeOf(a), Lookup(env, a).str, v);
    WorthParses(TypeOf(b), Lookup(env, b).str, w);
    hide ParseString, Worth;
    Reduced(v);
    Reduced(w);
  }

  lemma Reduced(v: int)
    ensures v % TWO64 % TWO64 == v % TWO64
  {
  }

  /** So a string equals exactly its own text where one of the two is not a number. */
  lemma StringEquals(env: Env, s: Sym, text: string)
    requires TypeOf(s).String? && (Worthless(String, Lookup(env, s).str) || Worthless(Unknown, text))
    ensures Eval(Cmp(Eq, s, Const(text)), env) == YES <==> Lookup(env, s).str == text
    ensures Eval(Cmp(Ne, s, Const(text)), env) == YES <==> Lookup(env, s).str != text
  {
    TextsCompare(env, Eq, s, Const(text));
    TextsCompare(env, Ne, s, Const(text));
    hide Worth;
  }

  /** A word that names no symbol stands for itself, and a text symbol without a value for the empty text. */
  lemma UnsetTexts(env: Env, s: Sym)
    requires s.Var? && s !in env && !IsLogical(s)
    ensures Lookup(env, s).tri == NO && Lookup(env, s).str == if s.typ.Unknown? then s.name else ""
  {
  }

  /** So an unquoted word compares as the same text in quotes does. */
  lemma WordIsText(env: Env, rel: Rel, a: Sym, word: string)
    requires word != "y" && word != "m" && word != "n" && Var(word, Unknown) !in env
    ensures Eval(Cmp(rel, a, Var(word, Unknown)), env) == Eval(Cmp(rel, a, Const(word)), env)
  {
  }

  /** The empty text is not a number: a string is told from it in any case. */
  lemma EmptyIsText(typ: Type)
    requires !typ.Boolean? && !typ.Tri3?
    ensures Worthless(typ, "")
  {
    forall v ensures !Worth(typ, "", v) {
      if Worth(typ, "", v) {
        WorthParses(typ, "", v);
      }
    }
  }

  /** Two bools or tristates compare by value. */
  lemma LogicalsCompare(env: Env, rel: Rel, a: Sym, b: Sym)
    requires WellTyped(env) && IsLogical(a) && IsLogical(b)
    ensures Eval(Cmp(rel, a, b), env) == YES <==>
            Related(rel, Lookup(env, a).tri < Lookup(env, b).tri, Lookup(env, a).tri == Lookup(env, b).tri)
  {
    LookupTyped(env, a);
    LookupTyped(env, b);
    NumbersCompare(env, rel, a, b, Lookup(env, a).tri, Lookup(env, b).tri);
  }
}
