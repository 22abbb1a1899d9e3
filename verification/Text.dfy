// Quoting of string values and its removal in place (sym_escape_string_value of symbol.c, the
// string case of conf_set_sym_val of confdata.c), and the splitting of a file into lines.
module Text {
  import opened Tristate

  predicate Special(ch: char) {
    ch == '"' || ch == '\\'
  }

  // ----- escaping -----

  /** The characters of a value with a backslash before every quote and backslash. */
  function EscapeBody(s: string): string {
    if s == [] then []
    else if Special(s[0]) then ['\\', s[0]] + EscapeBody(s[1..])
    else [s[0]] + EscapeBody(s[1..])
  }

  function Escape(s: string): string {
    "\"" + EscapeBody(s) + "\""
  }

  lemma {:induction false} EscapePlainPrefix(s: string, n: nat)
    requires n <= |s| && forall k :: 0 <= k < n ==> !Special(s[k])
    ensures EscapeBody(s) == s[..n] + EscapeBody(s[n..])
  {
    if n > 0 {
      EscapePlainPrefix(s[1..], n - 1);
      assert s[..n] == [s[0]] + s[1..][..n - 1] && s[1..][n - 1..] == s[n..];
    } else {
      assert s[..0] == [] && s[0..] == s;
    }
  }

  /** strcspn(s + p, "\"\\") */
  method PlainSpan(s: string, p: nat) returns (l: nat)
    requires p <= |s|
    ensures p + l <= |s| && (forall k :: p <= k < p + l ==> !Special(s[k]))
    ensures p + l < |s| ==> Special(s[p + l])
  {
    l := 0;
    while p + l < |s| && !Special(s[p + l])
      invariant p + l <= |s| && forall k :: p <= k < p + l ==> !Special(s[k])
    {
      l := l + 1;
    }
  }

  /** sym_escape_string_value. The buffer size computed first is the size needed, with one byte
      for the end of the string. */
  method EscapeStringValue(s: string) returns (res: string, reslen: nat)
    ensures res == Escape(s) && reslen == |res| + 1
  {
    reslen := |s| + 2 + 1;
    var p := 0;
    while true
      invariant p <= |s|
      invariant reslen + |EscapeBody(s[p..])| - |s[p..]| == |EscapeBody(s)| + 3
      decreases |s| - p
    {
      var l := PlainSpan(s, p);
      EscapePlainPrefix(s[p..], l);
      assert s[p..][l..] == s[p + l..];
      p := p + l;
      if p == |s| {
        break;
      }
      assert s[p..][1..] == s[p + 1..];
      reslen := reslen + 1;
      p := p + 1;
    }
    res := "\"";
    p := 0;
    while true
      invariant p <= |s|
      invariant res + EscapeBody(s[p..]) == "\"" + EscapeBody(s)
      decreases |s| - p
    {
      var l := PlainSpan(s, p);
      EscapePlainPrefix(s[p..], l);
      assert s[p..][l..] == s[p + l..] && s[p..][..l] == s[p..p + l];
      res := res + s[p..p + l];
      p := p + l;
      if p == |s| {
        break;
      }
      assert s[p..][1..] == s[p + 1..];
      res := res + "\\" + [s[p]];
      p := p + 1;
    }
    res := res + "\"";
  }

  // ----- unescaping -----

  /** The text up to the first quote that is not escaped, without the escaping backslashes; None
      when there is no such quote. */
  function Unescape(s: string): Option<string> {
    if s == [] then None
    else if s[0] == '"' then Some([])
    else if s[0] == '\\' then
      if |s| == 1 then None else Prepend([s[1]], Unescape(s[2..]))
    else Prepend([s[0]], Unescape(s[1..]))
  }

  function Prepend(a: string, r: Option<string>): Option<string> {
    if r.None? then None else Some(a + r.value)
  }

  /** Unescaping what was escaped gives it back, whatever follows the closing quote. */
  lemma {:induction false} UnescapeEscape(s: string, rest: string)
    ensures Unescape(EscapeBody(s) + "\"" + rest) == Some(s)
  {
    var t := EscapeBody(s) + "\"" + rest;
    if s != [] {
      var more := EscapeBody(s[1..]) + "\"" + rest;
      UnescapeEscape(s[1..], rest);
      if Special(s[0]) {
        assert t == ['\\', s[0]] + more;
        assert t[2..] == more;
      } else {
        assert t == [s[0]] + more;
        assert t[1..] == more;
      }
      assert s == [s[0]] + s[1..];
    }
  }

  /** The C string that starts a buffer. */
  function CString(b: seq<char>): string {
    if b == [] || b[0] == '\0' then [] else [b[0]] + CString(b[1..])
  }

  predicate Terminated(b: seq<char>) {
    exists k :: 0 <= k < |b| && b[k] == '\0'
  }

  lemma {:induction false} CStringIs(b: seq<char>, n: nat)
    requires n < |b| && b[n] == '\0' && forall k :: 0 <= k < n ==> b[k] != '\0'
    ensures CString(b) == b[..n]
  {
    if n > 0 {
      CStringIs(b[1..], n - 1);
      assert b[..n] == [b[0]] + b[1..][..n - 1];
    }
  }

  lemma {:induction false} CStringLength(b: seq<char>)
    requires Terminated(b)
    ensures var n := |CString(b)|;
      n < |b| && b[n] == '\0' && b[..n] == CString(b) && forall k :: 0 <= k < n ==> b[k] != '\0'
  {
    if b[0] != '\0' {
      var k :| 0 <= k < |b| && b[k] == '\0';
      assert b[1..][k - 1] == '\0';
      CStringLength(b[1..]);
      var n := |CString(b[1..])|;
      forall k | 0 <= k < n + 1 ensures b[k] != '\0' {
        assert k > 0 ==> b[k] == b[1..][k - 1];
      }
    }
  }

  lemma {:induction false} UnescapePlainPrefix(s: string, n: nat)
    requires n <= |s| && forall k :: 0 <= k < n ==> !Special(s[k])
    ensures Unescape(s) == Prepend(s[..n], Unescape(s[n..]))
  {
    if n > 0 {
      UnescapePlainPrefix(s[1..], n - 1);
      assert s[..n] == [s[0]] + s[1..][..n - 1] && s[1..][n - 1..] == s[n..];
      assert s == [s[0]] + s[1..];
      if Unescape(s[n..]).Some? {
        var t := Unescape(s[n..]).value;
        assert s[..n] + t == [s[0]] + (s[1..][..n - 1] + t);
      }
    } else {
      assert s[..0] == [] && s[0..] == s;
      if Unescape(s).Some? {
        assert [] + Unescape(s).value == Unescape(s).value;
      }
    }
  }

  /** strpbrk(b + p, "\"\\"): the first special character before the end of the string. */
  method FindSpecial(b: array<char>, p: nat) returns (q: nat, found: bool)
    requires p <= b.Length && Terminated(b[p..])
    ensures p <= q < b.Length && (forall k :: p <= k < q ==> b[k] != '\0' && !Special(b[k]))
    ensures if found then Special(b[q]) else b[q] == '\0'
  {
    ghost var z :| 0 <= z < |b[p..]| && b[p..][z] == '\0';
    assert b[p + z] == '\0';
    q := p;
    while b[q] != '\0' && !Special(b[q])
      invariant p <= q <= p + z < b.Length
      invariant forall k :: p <= k < q ==> b[k] != '\0' && !Special(b[k])
      decreases b.Length - q
    {
      q := q + 1;
    }
    found := b[q] != '\0';
  }

  /** memmove(b + q, b + q + 1, strlen(b + q)): the string loses its first character. */
  method DropFirst(b: array<char>, q: nat)
    requires q < b.Length && b[q] != '\0' && Terminated(b[q..])
    modifies b
    ensures b[..q] == old(b[..q]) && q + 1 < b.Length
    ensures CString(b[q..]) == old(CString(b[q..]))[1..]
    ensures b[q] == old(b[q + 1]) && b[q] == '\0' ==> b[q + 1] == '\0'
    ensures b[q] == old(b[q + 1]) && Terminated(b[q + 1..])
    ensures b[q] == '\0' ==> CString(b[q + 1..]) == []
  {
    CStringLength(b[q..]);
    ghost var n := |CString(b[q..])|;
    ghost var s := CString(b[q..]);
    ghost var before := b[..];
    assert b[q + n] == '\0' && forall k :: q <= k < q + n ==> b[k] != '\0' by {
      assert b[q..][n] == b[q + n];
      forall k | q <= k < q + n ensures b[k] != '\0' {
        assert b[q..][k - q] == b[k];
      }
    }
    assert n >= 1;
    var len := q;
    while b[len] != '\0'
      invariant q <= len <= q + n < b.Length
      decreases b.Length - len
    {
      len := len + 1;
    }
    var i := q;
    while i < len
      invariant q <= i <= len == q + n
      invariant forall k :: 0 <= k < q ==> b[k] == before[k]
      invariant forall k :: q <= k < i ==> b[k] == before[k + 1]
      invariant forall k :: i <= k < b.Length ==> b[k] == before[k]
    {
      b[i] := b[i + 1];
      i := i + 1;
    }
    assert b[..q] == before[..q];
    Shifted(before, b[..], q, n);
  }

  // The C string at q after its first character was overwritten by the following ones.
  lemma Shifted(before: seq<char>, after: seq<char>, q: nat, n: nat)
    requires 0 < n && q + n < |before| && |after| == |before|
    requires before[q + n] == '\0' && forall k :: q <= k < q + n ==> before[k] != '\0'
    requires forall k :: q <= k < q + n ==> after[k] == before[k + 1]
    requires forall k :: q + n <= k < |after| ==> after[k] == before[k]
    ensures CString(after[q..]) == CString(before[q..])[1..]
    ensures Terminated(after[q + 1..]) && (after[q] == '\0' ==> CString(after[q + 1..]) == [])
  {
    var s, t := before[q..], after[q..];
    forall k | 0 <= k < n ensures s[k] != '\0' {
      assert s[k] == before[q + k];
    }
    CStringIs(s, n);
    forall k | 0 <= k < n - 1 ensures t[k] != '\0' && t[k] == s[1..n][k] {
      assert t[k] == after[q + k] == before[q + k + 1] == s[k + 1];
    }
    assert t[n - 1] == after[q + n - 1];
    CStringIs(t, n - 1);
    assert t[..n - 1] == s[1..n];
    assert s[..n][1..] == s[1..n];
    assert after[q + 1..][n - 1] == after[q + n];
    if after[q] == '\0' {
      assert after[q + 1..][0] == after[q + 1];
    }
  }

  /** The string case of conf_set_sym_val, after the opening quote: the buffer is unescaped in place
      and cut at the closing quote. Without a closing quote the value is refused. */
  method UnescapeInPlace(b: array<char>, p: nat) returns (ok: bool)
    requires p <= b.Length && Terminated(b[p..])
    modifies b
    ensures ok == old(Unescape(CString(b[p..]))).Some?
    ensures ok ==> Terminated(b[p..]) && Some(CString(b[p..])) == old(Unescape(CString(b[p..])))
    ensures b[..p] == old(b[..p])
  {
    ghost var goal := Unescape(CString(b[p..]));
    var p2 := p;
    assert Remains(b[..], p, p, goal) by {
      assert b[p..p] == [];
      assert goal.Some? ==> [] + goal.value == goal.value;
    }
    while true
      invariant p <= p2 <= b.Length && Remains(b[..], p, p2, goal) && b[..p] == old(b[..p])
      decreases b.Length - p2
    {
      var q, found := FindSpecial(b, p2);
      AdvanceToSpecial(b[..], p, p2, q, goal);
      if !found {
        return false;
      }
      if b[q] == '"' {
        CloseString(b, p, q, goal);
        return true;
      }
      DropAndSkip(b, p, q, goal);
      p2 := q + 1;
    }
  }

  // The characters from p to p2 are final, and the value is what they and the rest give.
  ghost predicate Remains(b: seq<char>, p: nat, p2: nat, goal: Option<string>)
    requires p <= p2 <= |b|
  {
    Terminated(b[p2..]) && goal == Prepend(b[p..p2], Unescape(CString(b[p2..]))) &&
    (Unescape(CString(b[p2..])).Some? ==> '\0' !in b[p..p2])
  }

  // The closing quote ends the value.
  method CloseString(b: array<char>, p: nat, q: nat, ghost goal: Option<string>)
    requires p <= q < b.Length && b[q] == '"' && Remains(b[..], p, q, goal)
    modifies b
    ensures Terminated(b[p..]) && Some(CString(b[p..])) == goal && b[..p] == old(b[..p])
  {
    ghost var before := b[..];
    assert CString(before[q..]) == ['"'] + CString(before[q..][1..]);
    assert before[p..q] + [] == before[p..q];
    CutHere(before, p, q);
    b[q] := '\0';
    assert b[..] == before[q := '\0'];
  }

  lemma {:induction false} AdvanceToSpecial(b: seq<char>, p: nat, p2: nat, q: nat, goal: Option<string>)
    requires p <= p2 <= q < |b| && Remains(b, p, p2, goal)
    requires forall k :: p2 <= k < q ==> b[k] != '\0' && !Special(b[k])
    ensures Remains(b, p, q, goal)
    ensures b[q] == '\0' ==> goal.None?
    ensures b[q] == '"' ==> goal == Some(b[p..q])
  {
    SkipPlain(b, p, p2, q, goal);
    AtSpecial(b, p, q, goal);
    hide *;
  }

  // Characters that are not special stay as they are.
  lemma {:induction false} SkipPlain(b: seq<char>, p: nat, p2: nat, q: nat, goal: Option<string>)
    requires p <= p2 <= q < |b| && Remains(b, p, p2, goal)
    requires forall k :: p2 <= k < q ==> b[k] != '\0' && !Special(b[k])
    ensures Remains(b, p, q, goal)
  {
    var s := CString(b[p2..]);
    SpanOfCString(b, p2, q);
    hide CString, Terminated;
    forall k | 0 <= k < q - p2 ensures !Special(s[k]) {
      assert s[k] == s[..q - p2][k] == b[p2..q][k];
    }
    UnescapePlainPrefix(s, q - p2);
    hide Unescape, Special;
    var r := Unescape(CString(b[q..]));
    assert b[p..q] == b[p..p2] + b[p2..q];
    PrependTwice(b[p..p2], b[p2..q], r);
    hide Prepend;
  }

  lemma PrependTwice(a: string, b: string, r: Option<string>)
    ensures Prepend(a, Prepend(b, r)) == Prepend(a + b, r)
    ensures Prepend(a, r).Some? <==> r.Some?
  {
    if r.Some? {
      assert a + (b + r.value) == (a + b) + r.value;
    }
  }

  // What a quote or the end of the string means for the result.
  lemma {:induction false} AtSpecial(b: seq<char>, p: nat, q: nat, goal: Option<string>)
    requires p <= q < |b| && Remains(b, p, q, goal)
    ensures b[q] == '\0' ==> goal.None?
    ensures b[q] == '"' ==> goal == Some(b[p..q])
  {
    var t := b[q..];
    assert t[0] == b[q];
    assert CString(t) == if b[q] == '\0' then [] else [b[q]] + CString(t[1..]);
    hide CString, Terminated;
    assert b[p..q] + [] == b[p..q];
  }

  lemma CutHere(b: seq<char>, p: nat, q: nat)
    requires p <= q < |b| && '\0' !in b[p..q]
    ensures var c := b[q := '\0'];
      CString(c[p..]) == b[p..q] && Terminated(c[p..]) && c[..p] == b[..p]
  {
    var c := b[q := '\0'];
    assert c[p..][q - p] == '\0';
    forall k | 0 <= k < q - p ensures c[p..][k] != '\0' {
      assert c[p..][k] == b[p..q][k];
    }
    CStringIs(c[p..], q - p);
    assert c[p..][..q - p] == b[p..q];
  }

  // The part of a C string before a position is the part of the buffer.
  lemma {:induction false} SpanOfCString(b: seq<char>, p: nat, q: nat)
    requires p <= q < |b| && Terminated(b[p..]) && forall k :: p <= k < q ==> b[k] != '\0'
    ensures q - p <= |CString(b[p..])| && CString(b[p..])[..q - p] == b[p..q]
    ensures CString(b[p..])[q - p..] == CString(b[q..]) && Terminated(b[q..])
    decreases q - p
  {
    if p < q {
      var k :| 0 <= k < |b[p..]| && b[p..][k] == '\0';
      assert b[p + 1..][k - 1] == '\0';
      SpanOfCString(b, p + 1, q);
      assert b[p..][1..] == b[p + 1..];
      assert CString(b[p..]) == [b[p]] + CString(b[p + 1..]);
      assert b[p..q] == [b[p]] + b[p + 1..q];
    }
  }

  // One escaped character: the backslash at q is removed and the character after it is kept.
  method DropAndSkip(b: array<char>, ghost p: nat, q: nat, ghost goal: Option<string>)
    requires p <= q < b.Length && b[q] == '\\' && Remains(b[..], p, q, goal)
    modifies b
    ensures q + 1 <= b.Length && Remains(b[..], p, q + 1, goal) && b[..p] == old(b[..p])
  {
    ghost var s := CString(b[q..]);
    ghost var before := b[..];
    assert before[q..] == b[q..] && s == ['\\'] + CString(b[q..][1..]);
    DropFirst(b, q);
    ghost var now := b[..];
    assert now[..q] == b[..q] == before[..q] && now[q..] == b[q..] && now[q + 1..] == b[q + 1..];
    assert now[p..q] == now[..q][p..] == before[..q][p..] == before[p..q];
    assert now[..p] == now[..q][..p] == before[..q][..p] == before[..p];
    SkipKept(before, now, p, q, goal);
  }

  lemma {:induction false} SkipKept(before: seq<char>, now: seq<char>, p: nat, q: nat, goal: Option<string>)
    requires p <= q && q + 1 < |now| && |before| == |now| && before[q] == '\\' && Remains(before, p, q, goal)
    requires now[p..q] == before[p..q] && CString(now[q..]) == CString(before[q..])[1..]
    requires Terminated(now[q + 1..]) && (now[q] == '\0' ==> CString(now[q + 1..]) == [])
    ensures Remains(now, p, q + 1, goal)
  {
    var s, t := CString(before[q..]), CString(now[q..]);
    assert s == ['\\'] + CString(before[q..][1..]);
    assert now[p..q + 1] == now[p..q] + [now[q]];
    if now[q] != '\0' {
      assert now[q..][1..] == now[q + 1..];
      assert t == [now[q]] + CString(now[q + 1..]);
      assert s[1] == now[q] && s[2..] == t[1..] == CString(now[q + 1..]);
      var r := Unescape(CString(now[q + 1..]));
      if r.Some? {
        assert now[p..q] + ([now[q]] + r.value) == now[p..q] + [now[q]] + r.value;
      }
    } else {
      assert |s| == 1;
    }
  }

  // ----- lines -----

  /** The length of the first line of a text, including its newline if there is one. */
  function FirstLine(text: string): (n: nat)
    requires text != []
    ensures 1 <= n <= |text|
  {
    if text[0] == '\n' || |text| == 1 then 1 else 1 + FirstLine(text[1..])
  }

  /** A text is read line by line until nothing is left. */
  function Lines(text: string): seq<string> {
    if text == [] then []
    else [text[..FirstLine(text)]] + Lines(text[FirstLine(text)..])
  }

  predicate IsLine(line: string) {
    line != [] && line[|line| - 1] == '\n' && forall k :: 0 <= k < |line| - 1 ==> line[k] != '\n'
  }

  lemma {:induction false} FirstLineIs(line: string, rest: string)
    requires IsLine(line)
    ensures FirstLine(line + rest) == |line|
  {
    if |line| > 1 {
      assert (line + rest)[1..] == line[1..] + rest;
      FirstLineIs(line[1..], rest);
    }
  }

  lemma LinesOfLine(line: string, rest: string)
    requires IsLine(line)
    ensures Lines(line + rest) == [line] + Lines(rest)
  {
    FirstLineIs(line, rest);
    assert (line + rest)[..|line|] == line && (line + rest)[|line|..] == rest;
  }
}
