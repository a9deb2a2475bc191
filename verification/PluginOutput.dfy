/** Strings of plugin output: escaping of newlines (`parse_check_output`, base/checks.c) and
    stripping of blanks (`strip`, common/shared.c). Strings are NUL-terminated and rewritten in place. */
module PluginOutput {

  const NUL := '\0'
  const NEWLINE := '\n'
  const BACKSLASH := '\\'

  /** The buffer holds the string `s`. */
  ghost predicate Holds(buf: array<char>, s: string)
    reads buf
  {
    |s| < buf.Length && buf[..|s|] == s && buf[|s|] == NUL && NUL !in s
  }

  // ---------- escaping ----------

  function Escaped(c: char): string {
    if c == NEWLINE then [BACKSLASH, 'n'] else if c == BACKSLASH then [BACKSLASH, BACKSLASH] else [c]
  }

  function Escape(s: string): string {
    if s == [] then [] else Escaped(s[0]) + Escape(s[1..])
  }

  /** How many characters stand for the first one, and that character. */
  function Unit(s: string): (len: nat)
    requires s != []
    ensures 1 <= len <= |s|
  {
    if |s| > 1 && s[0] == BACKSLASH && (s[1] == BACKSLASH || s[1] == 'n') then 2 else 1
  }

  function Meaning(s: string): char
    requires s != []
  {
    if Unit(s) == 1 then s[0] else if s[1] == 'n' then NEWLINE else BACKSLASH
  }

  function Unescape(s: string): string {
    if s == [] then [] else [Meaning(s)] + Unescape(s[Unit(s)..])
  }

  lemma {:induction false} UnescapeEscape(s: string)
    ensures Unescape(Escape(s)) == s
    decreases |s|
  {
    if s != [] {
      UnescapeEscape(s[1..]);
      var e := Escape(s);
      assert e == Escaped(s[0]) + Escape(s[1..]);
      assert e[Unit(e)..] == Escape(s[1..]);
    }
  }

  /** How single characters are escaped, and that nothing else matters. */
  lemma {:induction false} EscapeByCharacter(a: string, b: string)
    ensures Escape("\n") == "\\n" && Escape("\\") == "\\\\"
    ensures |a| == 1 && a[0] != '\n' && a[0] != '\\' ==> Escape(a) == a
    ensures Escape(a + b) == Escape(a) + Escape(b)
    decreases |a|
  {
    assert Escape([]) == [];
    EscapeOne(NEWLINE);
    EscapeOne(BACKSLASH);
    if a == [] {
      assert a + b == b;
    } else {
      EscapeOne(a[0]);
      EscapeByCharacter(a[1..], b);
      assert (a + b)[1..] == a[1..] + b;
      assert |a| == 1 ==> a == [a[0]];
      assert Escaped(a[0]) + (Escape(a[1..]) + Escape(b)) == Escaped(a[0]) + Escape(a[1..]) + Escape(b);
    }
  }

  lemma EscapeOne(c: char)
    ensures Escape([c]) == Escaped(c)
  {
    assert [c][1..] == [];
    assert Escape([c]) == Escaped(c) + [];
  }

  /** What the pairs stand for; anything else stands for itself. */
  lemma UnescapeByPair(s: string)
    ensures Unescape("\\n" + s) == "\n" + Unescape(s)
    ensures Unescape("\\\\" + s) == "\\" + Unescape(s)
  {
    hide Unescape;
    FirstUnit("\\n" + s);
    FirstUnit("\\\\" + s);
    assert ("\\n" + s)[2..] == s && ("\\\\" + s)[2..] == s;
  }

  lemma FirstUnit(s: string)
    requires s != []
    ensures Unescape(s) == [Meaning(s)] + Unescape(s[Unit(s)..])
  {
  }

  lemma UnescapeOther(s: string)
    ensures s != [] && (s[0] != '\\' || |s| == 1 || (s[1] != 'n' && s[1] != '\\')) ==>
      Unescape(s) == [s[0]] + Unescape(s[1..])
  {
  }

  /** A string in which every newline and every backslash is escaped. */
  predicate WellEscaped(s: string) {
    s == [] || (s[0] != NEWLINE && (s[0] == BACKSLASH ==> Unit(s) == 2) && WellEscaped(s[Unit(s)..]))
  }

  /** The other way round only such strings come back. */
  lemma {:induction false} EscapeUnescape(s: string)
    ensures Escape(Unescape(s)) == s <==> WellEscaped(s)
    decreases |s|
  {
    if s != [] {
      var u := Unit(s);
      EscapeUnescape(s[u..]);
      var t := Unescape(s);
      assert t[0] == Meaning(s) && t[1..] == Unescape(s[u..]);
      var e := Escape(t);
      assert e == Escaped(t[0]) + Escape(t[1..]);
      assert s == s[..u] + s[u..];
      if e == s {
        assert e[0] == s[0];
        assert Escaped(t[0]) == s[..u];
        assert e[u..] == Escape(t[1..]);
      }
    }
  }

  lemma {:induction false} EscapeFits(s: string)
    ensures |s| <= |Escape(s)| <= 2 * |s|
    ensures NUL !in s ==> NUL !in Escape(s)
    ensures NEWLINE !in Escape(s)
    decreases |s|
  {
    if s != [] {
      EscapeFits(s[1..]);
    }
  }

  lemma {:induction false} UnescapeFits(s: string)
    ensures |Unescape(s)| <= |s|
    ensures NUL !in s ==> NUL !in Unescape(s)
    decreases |s|
  {
    if s != [] {
      UnescapeFits(s[Unit(s)..]);
    }
  }

  method StringLength(buf: array<char>, ghost s: string) returns (len: nat)
    requires Holds(buf, s)
    ensures len == |s|
  {
    len := 0;
    while buf[len] != NUL
      invariant 0 <= len <= |s|
      decreases |s| - len
    {
      len := len + 1;
    }
  }

  lemma UnescapeUnfold(s: string)
    requires s != []
    ensures Unescape(s) == [Meaning(s)] + Unescape(s[Unit(s)..])
  {
  }

  lemma UnitAt(s: string, x: nat)
    requires x < |s|
    ensures var rest := s[x..];
      && Unit(rest) == (if s[x] == BACKSLASH && x + 1 < |s| && (s[x + 1] == BACKSLASH || s[x + 1] == 'n') then 2 else 1)
      && Meaning(rest) == (if Unit(rest) == 1 then s[x] else if s[x + 1] == 'n' then NEWLINE else BACKSLASH)
  {
    var rest := s[x..];
    assert rest[0] == s[x] && (|rest| > 1 ==> rest[1] == s[x + 1]);
  }

  lemma Associative(a: string, b: string, c: string)
    ensures a + (b + c) == (a + b) + c
  {
  }

  /** One turn: the next unit of the text, and what it means. */
  lemma UnescapeStep(s: string, x: nat, done: string)
    requires x < |s| && Unescape(s) == done + Unescape(s[x..])
    ensures var rest := s[x..];
      && Unit(rest) == (if s[x] == BACKSLASH && x + 1 < |s| && (s[x + 1] == BACKSLASH || s[x + 1] == 'n') then 2 else 1)
      && Meaning(rest) == (if Unit(rest) == 1 then s[x] else if s[x + 1] == 'n' then NEWLINE else BACKSLASH)
      && Unescape(s) == done + [Meaning(rest)] + Unescape(s[x + Unit(rest)..])
  {
    hide Unescape, Unit, Meaning;
    var rest := s[x..];
    var u, c := Unit(rest), Meaning(rest);
    UnitAt(s, x);
    UnescapeUnfold(rest);
    assert rest[u..] == s[x + u..];
    Associative(done, [c], Unescape(s[x + u..]));
  }

  lemma UnescapeStart(s: string)
    ensures Unescape(s) == [] + Unescape(s[0..])
  {
    assert s[0..] == s;
  }

  lemma UnescapeEnd(s: string, done: string)
    requires Unescape(s) == done + Unescape(s[|s|..])
    ensures Unescape(s) == done
  {
    assert s[|s|..] == [];
  }

  /** Unescapes a buffer in place: `y`, where the text goes, never overtakes `x`, where it comes from. */
  method UnescapeInPlace(buf: array<char>, ghost s: string)
    requires Holds(buf, s)
    modifies buf
    ensures Holds(buf, Unescape(s))
  {
    hide Unescape, Unit, Meaning;
    var x, y := 0, 0;
    ghost var done: string := [];
    UnescapeFits(s);
    UnescapeStart(s);
    while buf[x] != NUL
      invariant 0 <= y <= x <= |s| && |done| == y
      invariant forall j :: x <= j < |s| ==> buf[j] == s[j]
      invariant forall j :: 0 <= j < y ==> buf[j] == done[j]
      invariant buf[|s|] == NUL
      invariant Unescape(s) == done + Unescape(s[x..])
      decreases |s| - x
    {
      UnescapeStep(s, x, done);
      done := done + [Meaning(s[x..])];
      if buf[x] == BACKSLASH && buf[x + 1] == BACKSLASH {
        x := x + 1;
        buf[y] := buf[x];
      } else if buf[x] == BACKSLASH && buf[x + 1] == 'n' {
        x := x + 1;
        buf[y] := NEWLINE;
      } else {
        buf[y] := buf[x];
      }
      y := y + 1;
      x := x + 1;
    }
    UnescapeEnd(s, done);
    buf[y] := NUL;
  }

  lemma EscapeStep(s: string, x: nat, done: string)
    requires x <= |s| && Escape(s) == done + Escape(s[x..])
    ensures if x == |s| then Escape(s) == done else Escape(s) == done + Escaped(s[x]) + Escape(s[x + 1..])
  {
    if x < |s| {
      assert s[x..][0] == s[x] && s[x..][1..] == s[x + 1..];
      assert done + (Escaped(s[x]) + Escape(s[x + 1..])) == done + Escaped(s[x]) + Escape(s[x + 1..]);
    } else {
      assert s[x..] == [];
    }
  }

  /** Writes the escaped form into a new buffer of twice the length and one more. */
  method EscapeNewlines(text: array<char>, ghost s: string) returns (tempbuf: array<char>)
    requires Holds(text, s)
    ensures fresh(tempbuf) && tempbuf.Length == 2 * |s| + 1 && Holds(tempbuf, Escape(s))
  {
    hide Escape;
    var len := StringLength(text, s);
    tempbuf := new char[2 * len + 1](i => NUL);
    EscapeFits(s);
    assert s[0..] == s;
    var x, y := 0, 0;
    ghost var done: string := [];
    while text[x] != NUL
      invariant 0 <= x <= |s| && |done| == y <= 2 * x
      invariant Escape(s) == done + Escape(s[x..])
      invariant forall j :: 0 <= j < y ==> tempbuf[j] == done[j]
      decreases |s| - x
    {
      EscapeStep(s, x, done);
      done := done + Escaped(s[x]);
      if text[x] == NEWLINE {
        tempbuf[y] := BACKSLASH;
        tempbuf[y + 1] := 'n';
        y := y + 2;
      } else if text[x] == BACKSLASH {
        tempbuf[y] := BACKSLASH;
        tempbuf[y + 1] := BACKSLASH;
        y := y + 2;
      } else {
        tempbuf[y] := text[x];
        y := y + 1;
      }
      x := x + 1;
    }
    EscapeStep(s, x, done);
    tempbuf[y] := NUL;
  }

  // ---------- stripping ----------

  predicate Blank(c: char) {
    c == ' ' || c == '\n' || c == '\r' || c == '\t'
  }

  /** `r` is `s` without blanks at either end. */
  ghost predicate IsStripped(s: string, r: string) {
    exists i, j :: 0 <= i <= j <= |s| && r == s[i..j] && AllBlank(s[..i]) && AllBlank(s[j..])
      && (r != [] ==> !Blank(r[0]) && !Blank(r[|r| - 1]))
  }

  ghost predicate AllBlank(s: string) {
    forall i :: 0 <= i < |s| ==> Blank(s[i])
  }

  function TrimEnd(s: string): (r: string)
    ensures |r| <= |s| && r == s[..|r|] && AllBlank(s[|r|..])
    ensures r != [] ==> !Blank(r[|r| - 1])
  {
    if s != [] && Blank(s[|s| - 1]) then TrimEnd(s[..|s| - 1]) else s
  }

  function TrimStart(s: string): (r: string)
    ensures |r| <= |s| && r == s[|s| - |r|..] && AllBlank(s[..|s| - |r|])
    ensures r != [] ==> !Blank(r[0])
  {
    if s != [] && Blank(s[0]) then TrimStart(s[1..]) else s
  }

  function Trim(s: string): string {
    TrimStart(TrimEnd(s))
  }

  /** The blanks are these four characters. */
  lemma BlanksAre(c: char)
    ensures Blank(c) <==> c == ' ' || c == '\n' || c == '\r' || c == '\t'
  {
  }

  lemma TrimStrips(s: string)
    ensures IsStripped(s, Trim(s))
  {
    var e := TrimEnd(s);
    var r := TrimStart(e);
    var i, j := |e| - |r|, |e|;
    assert r == s[i..j] && s[..i] == e[..i];
  }

  lemma TrimEndStep(s: string, n: nat)
    requires n <= |s|
    ensures TrimEnd(s[..n]) == if n > 0 && Blank(s[n - 1]) then TrimEnd(s[..n - 1]) else s[..n]
  {
    if n > 0 {
      assert s[..n][..n - 1] == s[..n - 1];
    }
  }

  /** Where the first character from `x` on stands that stays. */
  function FirstKept(s: string, x: nat): (k: nat)
    requires x <= |s|
    ensures x <= k <= |s|
    decreases |s| - x
  {
    if x < |s| && Blank(s[x]) then FirstKept(s, x + 1) else x
  }

  lemma {:induction false} TrimStartFrom(s: string, x: nat)
    requires x <= |s|
    ensures TrimStart(s[x..]) == s[FirstKept(s, x)..]
    decreases |s| - x
  {
    if x < |s| && Blank(s[x]) {
      assert s[x..][1..] == s[x + 1..];
      TrimStartFrom(s, x + 1);
    }
  }

  /** Cuts off the end; `x` is the position of the last character left. */
  method StripEnd(buffer: array<char>, ghost s: string) returns (x: int)
    requires Holds(buffer, s) && s != []
    modifies buffer
    ensures Holds(buffer, TrimEnd(s)) && x == |TrimEnd(s)| - 1
  {
    hide TrimEnd;
    var len := StringLength(buffer, s);
    x := len - 1;
    assert s[..len] == s;
    TrimEndStep(s, x + 1);
    while x >= 0 && Blank(buffer[x])
      invariant -1 <= x < |s| && TrimEnd(s) == TrimEnd(s[..x + 1])
      invariant forall j :: 0 <= j <= x ==> buffer[j] == s[j]
      invariant buffer[x + 1] == NUL
    {
      TrimEndStep(s, x + 1);
      buffer[x] := NUL;
      x := x - 1;
    }
    TrimEndStep(s, x + 1);
  }

  /** `strip`. */
  method Strip(buffer: array<char>, ghost s: string)
    requires Holds(buffer, s)
    modifies buffer
    ensures Holds(buffer, Trim(s))
  {
    if buffer[0] == NUL {
      return;
    }
    var z := StripEnd(buffer, s);
    ghost var e := TrimEnd(s);
    hide TrimStart, TrimEnd;
    assert e[0..] == e;
    if z == 0 {
      StripOne(s, e);
      return;
    }
    var x := SkipBlanks(buffer, e);
    if x > 0 && z > 0 {
      ShiftLeft(buffer, e, x);
    }
  }

  /** The position of the first character that stays. */
  method SkipBlanks(buffer: array<char>, ghost e: string) returns (x: nat)
    requires Holds(buffer, e)
    ensures x <= |e| && TrimStart(e) == e[x..]
  {
    hide TrimStart, Holds;
    x := 0;
    TrimStartFrom(e, 0);
    assert e[0..] == e;
    CharAt(buffer, e, x);
    while Blank(buffer[x])
      invariant x <= |e| < buffer.Length && FirstKept(e, x) == FirstKept(e, 0)
      invariant buffer[x] == if x < |e| then e[x] else NUL
      decreases |e| - x
    {
      x := x + 1;
      CharAt(buffer, e, x);
    }
  }

  lemma CharAt(buffer: array<char>, e: string, x: nat)
    requires Holds(buffer, e) && x <= |e|
    ensures |e| < buffer.Length && buffer[x] == if x < |e| then e[x] else NUL
  {
    assert x < |e| ==> buffer[..|e|][x] == e[x];
  }

  /** A single character left over is not blank. */
  lemma StripOne(s: string, e: string)
    requires e == TrimEnd(s) && |e| == 1
    ensures TrimStart(e) == e
  {
  }

  method ShiftLeft(buffer: array<char>, ghost e: string, x: nat)
    requires Holds(buffer, e) && x <= |e|
    modifies buffer
    ensures Holds(buffer, e[x..])
  {
    var len := StringLength(buffer, e);
    var z := x;
    while z < len
      invariant x <= z <= len
      invariant forall j :: 0 <= j < z - x ==> buffer[j] == e[x + j]
      invariant forall j :: z <= j < len ==> buffer[j] == e[j]
    {
      buffer[z - x] := buffer[z];
      z := z + 1;
    }
    buffer[len - x] := NUL;
    assert buffer[..len - x] == e[x..];
  }
}
