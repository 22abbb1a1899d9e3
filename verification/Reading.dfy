// Which lines and texts conf_read_simple accepts (confdata.c, with conf_set_sym_val and
// sym_string_valid), and how lines look.
module Reading {
  import opened Tristate
  import opened Expr
  import opened Text
  import opened Config
  import opened Confdata
  import opened Arguments
  import C = Comparing

  // ----- valid numbers -----

  lemma {:induction false} DecimalOfPositional(t: string)
    requires t != "" && (forall c <- t :: DigitOf(c) < 10) && (t[0] == '0' ==> |t| == 1)
    ensures Decimal(C.Positional(t, 10)) == t
    ensures t[0] != '0' ==> C.Positional(t, 10) > 0
    decreases |t|
  {
    var last := t[|t| - 1];
    assert last in t && t[0] in t;
    DigitCharacter(last);
    if |t| > 1 {
      var front := t[..|t| - 1];
      assert front[0] == t[0] && t == front + [last];
      assert C.Positional(t, 10) == C.Positional(front, 10) * 10 + DigitOf(last);
      hide C.Positional, DigitOf;
      DecimalOfPositional(front);
      DecimalNext(C.Positional(front, 10), DigitOf(last));
    } else {
      assert t[..0] == "" && t == [last];
    }
  }

  lemma DecimalNext(k: nat, d: nat)
    requires k > 0 && d < 10
    ensures Decimal(k * 10 + d) == Decimal(k) + ["0123456789"[d]]
  {
    assert (k * 10 + d) / 10 == k && (k * 10 + d) % 10 == d;
  }

  lemma DigitCharacter(c: char)
    requires DigitOf(c) < 10
    ensures "0123456789"[DigitOf(c)] == c
  {
  }

  lemma {:induction false} DecimalIsPlain(k: nat)
    ensures var t := Decimal(k);
      t != "" && (forall c <- t :: DigitOf(c) < 10) && (t[0] == '0' ==> |t| == 1) && (k > 0 ==> t[0] != '0') && t[0] != '-'
  {
    OneDigit(k % 10);
    if k >= 10 {
      DecimalIsPlain(k / 10);
    }
  }

  /** Valid for an int is the decimal text of a number, with a minus sign if need be. */
  lemma ValidInt(str: string)
    ensures ValidText(Int, str) <==> exists k: nat :: str == Decimal(k) || str == "-" + Decimal(k)
  {
    if ValidText(Int, str) {
      var t := if str != [] && str[0] == '-' then str[1..] else str;
      DecimalOfPositional(t);
      assert str == if str[0] == '-' then "-" + t else t;
    }
    if k: nat :| str == Decimal(k) || str == "-" + Decimal(k) {
      DecimalIsPlain(k);
      assert str[0] == '-' ==> str[1..] == Decimal(k);
    }
  }

  lemma HexIsNumeral(str: string) returns (n: C.Numeral)
    requires ValidText(Hex, str)
    ensures C.IsNumeral(n, 16) && n.space == "" && n.sign == "" && C.Spelled(n) == str
  {
    var hex := |str| >= 2 && str[0] == '0' && (str[1] == 'x' || str[1] == 'X');
    n := if hex then C.Numeral("", "", str[..2], str[2..]) else C.Numeral("", "", "", str);
    assert hex ==> str[..2] == [str[0], str[1]];
    C.DigitsBelow(n.digits, 16);
    hide C.IsDigit;
  }

  lemma NumeralIsHex(n: C.Numeral)
    requires C.IsNumeral(n, 16) && n.space == "" && n.sign == ""
    ensures ValidText(Hex, C.Spelled(n))
  {
    C.DigitsBelow(n.digits, 16);
    hide C.IsDigit;
    var str := C.Spelled(n);
    assert str == n.prefix + n.digits;
    if n.prefix == "" {
      assert str == n.digits;
      if |str| >= 2 {
        assert str[1] in n.digits;
      }
    } else {
      assert str[2..] == n.digits && str[..2] == n.prefix;
      assert str[0] == n.prefix[0] && str[1] == n.prefix[1];
    }
  }

  /** Valid for a hex symbol is a row of hexadecimal digits, with the prefix 0x or without. */
  lemma ValidHex(str: string)
    ensures ValidText(Hex, str) <==> exists n :: C.IsNumeral(n, 16) && n.space == "" && n.sign == "" && C.Spelled(n) == str
  {
    if ValidText(Hex, str) {
      var n := HexIsNumeral(str);
    }
    if n :| C.IsNumeral(n, 16) && n.space == "" && n.sign == "" && C.Spelled(n) == str {
      NumeralIsHex(n);
    }
    hide ValidText, C.IsNumeral, C.Spelled;
  }

  // ----- values -----

  // A value that ends where its line does.
  predicate OneLine(value: string) {
    '\n' !in value && (value != [] ==> value[|value| - 1] != '\r')
  }

  // The line that gives a symbol a value.
  function ValueLine(name: string, value: string): string {
    "CONFIG_" + name + "=" + value + "\n"
  }

  /** The first character of the value of a bool or tristate decides: y, n, or for a tristate m. Any other
      value is refused, and nothing changes. */
  lemma {:induction false} LogicalValue(c: Config, table: Table, st: State, s: Sym, value: string)
    requires Known(c, table, s) && IsLogical(s) && OneLine(value)
    ensures var st' := ReadLine(c, table, st, ValueLine(s.name, value));
      var u := At(st, s).user.(has := true);
      st' == if value != "" && value[0] == 'y' then SetUser(st, s, u.(tri := YES))
             else if value != "" && value[0] == 'm' && s.typ.Tri3? then SetUser(st, s, u.(tri := MOD))
             else if value != "" && value[0] == 'n' then SetUser(st, s, u.(tri := NO))
             else st
  {
    ReadValueLine(c, table, st, s, value);
    hide ReadLine;
  }

  /** A string must be quoted: without an opening quote its value stays, and without a closing one the line
      is refused. */
  lemma {:induction false} StringValueRead(c: Config, table: Table, st: State, s: Sym, value: string)
    requires Known(c, table, s) && s.typ.String? && OneLine(value)
    ensures var st' := ReadLine(c, table, st, ValueLine(s.name, value));
      forall t :: At(st', t) ==
        if t == s && value != "" && value[0] == '"' && Unescape(value[1..]).Some?
        then At(st, s).(user := At(st, s).user.(has := true, str := Unescape(value[1..]).value)) else At(st, t)
  {
    ReadValueLine(c, table, st, s, value);
    hide ReadLine, Unescape;
  }

  // ----- lines -----

  /** How the lines look that conf_write_symbol writes. */
  lemma LineFormat(s: Sym, value: string)
    requires s.Var?
    ensures s.typ.Unknown? ==> SymbolLine(s, value) == ""
    ensures IsLogical(s) && value == "n" ==> SymbolLine(s, value) == "# CONFIG_" + s.name + " is not set\n"
    ensures IsLogical(s) && (value == "y" || value == "m") ==> SymbolLine(s, value) == "CONFIG_" + s.name + "=" + value + "\n"
    ensures s.typ.Int? || s.typ.Hex? ==> SymbolLine(s, value) == "CONFIG_" + s.name + "=" + value + "\n"
    ensures s.typ.String? ==> SymbolLine(s, value) == "CONFIG_" + s.name + "=" + Escape(value) + "\n"
  {
  }

  // The parts of a line that ends in a carriage return and a newline.
  lemma {:induction false} SplitCarriage(name: string, value: string)
    requires NameOk(name) && OneLine(value)
    ensures var line := "CONFIG_" + name + "=" + value + "\r\n";
      line[0] != '#' && StartsWith(line, CONFIG_PREFIX) &&
      var t := line[|CONFIG_PREFIX|..];
      Find(t, '=') == |name| < |t| && t[..|name|] == name && StripEnd(t[|name| + 1..]) == value
  {
    var line := "CONFIG_" + name + "=" + value + "\r\n";
    var t, rest := line[|CONFIG_PREFIX|..], value + "\r\n";
    assert line[..|CONFIG_PREFIX|] == CONFIG_PREFIX;
    assert t == name + ['='] + rest;
    FindAfter(name, '=', rest);
    assert t[..|name|] == name && t[|name| + 1..] == rest;
    assert rest == (value + "\r") + ['\n'] + [];
    assert '\n' !in value + "\r";
    FindAfter(value + "\r", '\n', []);
    assert rest[|value|] == '\r' && rest[..|value|] == value;
  }

  // What a line with a value does whose parts are known.
  function ValueEffect(c: Config, table: Table, st: State, name: string, value: string): State {
    match FindSym(table, name)
    case None => st
    case Some(s) =>
      match SetSymVal(TypeOf(s), At(st, s).user, value)
      case None => st
      case Some(u) => NoteMember(c, SetUser(st, s, u), s)
  }

  lemma ValueRead(c: Config, table: Table, st: State, line: string, name: string, value: string)
    requires line != "" && line[0] != '#' && StartsWith(line, CONFIG_PREFIX)
    requires var t := line[|CONFIG_PREFIX|..];
      Find(t, '=') == |name| < |t| && t[..|name|] == name && StripEnd(t[|name| + 1..]) == value
    ensures ReadLine(c, table, st, line) == ValueEffect(c, table, st, name, value)
  {
    hide Find, SetSymVal, StripEnd, StartsWith, NoteMember, FindSym;
  }

  /** A carriage return before the end of the line does not matter. */
  lemma {:induction false} CarriageReturn(c: Config, table: Table, st: State, name: string, value: string)
    requires NameOk(name) && OneLine(value)
    ensures ReadLine(c, table, st, "CONFIG_" + name + "=" + value + "\r\n") == ReadLine(c, table, st, ValueLine(name, value))
  {
    SplitValueLine(name, value);
    SplitCarriage(name, value);
    hide ReadLine, Find, StripEnd, StartsWith, ValueEffect;
    ValueRead(c, table, st, ValueLine(name, value), name, value);
    ValueRead(c, table, st, "CONFIG_" + name + "=" + value + "\r\n", name, value);
  }

  /** Lines that do not begin with CONFIG_, or with # and CONFIG_ at the third place, change nothing. */
  lemma OtherLines(c: Config, table: Table, st: State, line: string)
    requires !("CONFIG_" <= line) && !(|line| >= 2 && line[0] == '#' && "CONFIG_" <= line[2..])
    ensures ReadLine(c, table, st, line) == st
  {
  }

  // The parts of a comment about a name.
  lemma {:induction false} CommentParts(name: string, rest: string)
    requires IsWord(name) && rest != "" && rest[0] == ' '
    ensures var line := "# CONFIG_" + name + rest;
      |line| >= 2 && line[0] == '#' && StartsWith(line[2..], CONFIG_PREFIX) &&
      var t := line[2 + |CONFIG_PREFIX|..];
      Find(t, ' ') == |name| < |t| && t[..|name|] == name && t[|name| + 1..] == rest[1..]
  {
    var line := "# CONFIG_" + name + rest;
    var t := line[2 + |CONFIG_PREFIX|..];
    assert line[2..][..|CONFIG_PREFIX|] == CONFIG_PREFIX;
    assert rest == [' '] + rest[1..];
    FindAfter(name, ' ', rest[1..]);
    assert t == name + [' '] + rest[1..];
    assert t[..|name|] == name && t[|name| + 1..] == rest[1..];
  }

  // What a comment does whose parts are known.
  lemma {:induction false} CommentRead(c: Config, table: Table, st: State, name: string, rest: string)
    requires IsWord(name) && rest != "" && rest[0] == ' '
    ensures ReadLine(c, table, st, "# CONFIG_" + name + rest) ==
      if !StartsWith(rest[1..], NOT_SET) then st
      else match FindSym(table, name)
           case None => st
           case Some(s) =>
             if IsLogical(s) then NoteMember(c, SetUser(st, s, At(st, s).user.(has := true, tri := NO)), s)
             else NoteMember(c, st, s)
  {
    CommentParts(name, rest);
    hide Find, StartsWith, FindSym, NoteMember;
  }

  /** Lines about a name that is not known change nothing. */
  lemma {:induction false} UnknownName(c: Config, table: Table, st: State, name: string, value: string)
    requires NameOk(name) && name !in table && OneLine(value)
    ensures ReadLine(c, table, st, ValueLine(name, value)) == st
    ensures ReadLine(c, table, st, "# CONFIG_" + name + " is not set\n") == st
  {
    CommentRead(c, table, st, name, " is not set\n");
    UnknownValue(c, table, st, name, value);
    hide ReadLine, StartsWith;
  }

  lemma {:induction false} UnknownValue(c: Config, table: Table, st: State, name: string, value: string)
    requires NameOk(name) && name !in table && OneLine(value)
    ensures ReadLine(c, table, st, ValueLine(name, value)) == st
  {
    SplitValueLine(name, value);
    hide Find, SetSymVal, StripEnd, StartsWith;
  }

  /** A comment about a name that does not say that it is not set changes nothing. */
  lemma {:induction false} OtherComments(c: Config, table: Table, st: State, name: string, rest: string)
    requires IsWord(name) && (rest == "" || rest == "\n" || rest[0] == ' ') && !(" is not set" <= rest)
    ensures ReadLine(c, table, st, "# CONFIG_" + name + rest) == st
  {
    if rest != "" && rest[0] == ' ' {
      CommentRead(c, table, st, name, rest);
      NotSetLater(rest);
      hide ReadLine, StartsWith;
    } else {
      BareComment(c, table, st, name, rest);
    }
  }

  lemma NotSetLater(rest: string)
    requires rest != "" && rest[0] == ' '
    ensures StartsWith(rest[1..], NOT_SET) <==> " is not set" <= rest
  {
    assert rest == [' '] + rest[1..] && " is not set" == [' '] + NOT_SET;
  }

  lemma {:induction false} BareComment(c: Config, table: Table, st: State, name: string, rest: string)
    requires IsWord(name) && (rest == "" || rest == "\n")
    ensures ReadLine(c, table, st, "# CONFIG_" + name + rest) == st
  {
    var line := "# CONFIG_" + name + rest;
    var t := line[2 + |CONFIG_PREFIX|..];
    assert line[2..][..|CONFIG_PREFIX|] == CONFIG_PREFIX;
    assert t == name + rest;
    FindNone(t, ' ');
    hide Find, StartsWith;
  }

  lemma {:induction false} FindNone(s: string, ch: char)
    requires ch !in s
    ensures Find(s, ch) == |s|
  {
    if s != [] {
      FindNone(s[1..], ch);
    }
  }

  /** The constants y, m and n cannot be set, whatever the table of symbols holds. */
  lemma {:induction false} ConstantsStay(c: Config, table: Table, st: State, name: string, value: string)
    requires name in {"y", "m", "n"} && OneLine(value) && Const(name) !in c.decls
    ensures forall t :: At(ReadLine(c, table, st, ValueLine(name, value)), t) == At(st, t)
  {
    SplitValueLine(name, value);
    hide Find, StripEnd, StartsWith;
  }

  /** A bool or tristate is set to n by the line that says it is not set; other symbols keep their value. */
  lemma {:induction false} UnsetLine(c: Config, table: Table, st: State, s: Sym)
    requires Known(c, table, s)
    ensures ReadLine(c, table, st, "# CONFIG_" + s.name + " is not set\n") ==
            if IsLogical(s) then SetUser(st, s, At(st, s).user.(has := true, tri := NO)) else st
  {
    CommentRead(c, table, st, s.name, " is not set\n");
    NotSetLater(" is not set\n");
    hide ReadLine, StartsWith;
  }
}
