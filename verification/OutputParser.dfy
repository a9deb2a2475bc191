/** The split of plugin output into short output, long output and performance data
    (`parse_check_output`, base/checks.c; `my_strtok`, common/shared.c). */
module OutputParser {
  import opened Common
  import opened PluginOutput

  const BAR := '|'

  // ---------- lines ----------

  /** How long the line end at position `i` is, 0 if there is none. With escaped newlines a
      backslash and an n end a line as well, even after unescaping. */
  function LineEnd(s: string, i: nat, escaped: bool): (len: nat)
    requires i < |s|
    ensures i + len <= |s|
  {
    if s[i] == NEWLINE then 1
    else if escaped && s[i] == BACKSLASH && i + 1 < |s| && s[i + 1] == 'n' then 2
    else 0
  }

  /** The lines of a text, of whose first line `i` characters have been seen already. */
  function LinesFrom(s: string, i: nat, escaped: bool): (r: seq<string>)
    requires i <= |s|
    ensures r != [] && |r[0]| >= i
    decreases |s|, |s| - i
  {
    if i == |s| then [s]
    else if LineEnd(s, i, escaped) > 0 then [s[..i]] + LinesFrom(s[i + LineEnd(s, i, escaped)..], 0, escaped)
    else LinesFrom(s, i + 1, escaped)
  }

  function Lines(s: string, escaped: bool): (r: seq<string>)
    ensures r != []
  {
    LinesFrom(s, 0, escaped)
  }

  function Join(lines: seq<string>): string {
    if lines == [] then []
    else if |lines| == 1 then lines[0]
    else Join(lines[..|lines| - 1]) + [NEWLINE] + lines[|lines| - 1]
  }

  lemma {:induction false} JoinFirst(line: string, lines: seq<string>)
    requires lines != []
    ensures Join([line] + lines) == line + [NEWLINE] + Join(lines)
    decreases |lines|
  {
    var all, n := [line] + lines, |lines| - 1;
    assert all[..|all| - 1] == [line] + lines[..n];
    if n == 0 {
      assert all[..1] == [line];
    } else {
      JoinFirst(line, lines[..n]);
      Associate(line + [NEWLINE], Join(lines[..n]), [NEWLINE] + lines[n]);
      assert Join(lines[..n]) + ([NEWLINE] + lines[n]) == Join(lines);
      assert (line + [NEWLINE] + Join(lines[..n])) + ([NEWLINE] + lines[n]) == Join(all);
    }
  }

  lemma Associate(a: string, b: string, c: string)
    ensures a + (b + c) == (a + b) + c
  {
  }

  /** Splitting at newlines loses nothing, and no newline is left. */
  lemma {:induction false} LinesJoin(s: string, i: nat)
    requires i <= |s| && NEWLINE !in s[..i]
    ensures Join(LinesFrom(s, i, false)) == s
    ensures forall k :: 0 <= k < |LinesFrom(s, i, false)| ==> NEWLINE !in LinesFrom(s, i, false)[k]
    decreases |s|, |s| - i
  {
    if i == |s| {
      assert s[..i] == s;
    } else if s[i] == NEWLINE {
      LinesJoin(s[i + 1..], 0);
      JoinFirst(s[..i], LinesFrom(s[i + 1..], 0, false));
      assert s == s[..i] + [NEWLINE] + s[i + 1..];
    } else {
      LinesJoin(s, i + 1);
    }
  }

  predicate HasBackslashN(s: string, from: nat) {
    exists i {:trigger s[i]} :: from <= i < |s| - 1 && s[i] == BACKSLASH && s[i + 1] == 'n'
  }

  /** Looking for backslash-n as well makes a difference exactly when there is one. */
  lemma {:induction false} BackslashNMatters(s: string, i: nat)
    requires i <= |s|
    ensures LinesFrom(s, i, true) == LinesFrom(s, i, false) <==> !HasBackslashN(s, i)
    decreases |s|, |s| - i
  {
    if i < |s| {
      if s[i] == NEWLINE {
        var t := s[i + 1..];
        BackslashNMatters(t, 0);
        SameTails(s[..i], LinesFrom(t, 0, true), LinesFrom(t, 0, false));
        BackslashNBehind(s, i);
      } else if LineEnd(s, i, true) == 0 {
        BackslashNMatters(s, i + 1);
      } else {
        assert LinesFrom(s, i, true)[0] == s[..i];
        assert |LinesFrom(s, i + 1, false)[0]| >= i + 1;
      }
    }
  }

  lemma BackslashNBehind(s: string, i: nat)
    requires i < |s| && s[i] == NEWLINE
    ensures HasBackslashN(s, i) <==> HasBackslashN(s[i + 1..], 0)
  {
    var t := s[i + 1..];
    if HasBackslashN(s, i) {
      var k :| i <= k < |s| - 1 && s[k] == BACKSLASH && s[k + 1] == 'n';
      assert t[k - i - 1] == BACKSLASH && t[k - i - 1 + 1] == 'n';
    }
    if HasBackslashN(t, 0) {
      var k :| 0 <= k < |t| - 1 && t[k] == BACKSLASH && t[k + 1] == 'n';
      assert s[k + i + 1] == BACKSLASH && s[k + i + 1 + 1] == 'n';
    }
  }

  lemma SameTails(line: string, a: seq<string>, b: seq<string>)
    ensures [line] + a == [line] + b <==> a == b
  {
    assert ([line] + a)[1..] == a && ([line] + b)[1..] == b;
  }

  /** Where a text goes on with a line end, its own line ends stay what they were. */
  lemma LineEndKept(a: string, i: nat, end: string, b: string, escaped: bool)
    requires i < |a| && (end == [NEWLINE] || (escaped && end == [BACKSLASH, 'n']))
    ensures LineEnd(a + end + b, i, escaped) == LineEnd(a, i, escaped)
  {
    var s := a + end + b;
    assert s[i] == a[i] && s[i + 1] == if i + 1 < |a| then a[i + 1] else end[0];
  }

  lemma LineEndHere(a: string, end: string, b: string, escaped: bool)
    requires end == [NEWLINE] || (escaped && end == [BACKSLASH, 'n'])
    ensures LinesFrom(a + end + b, |a|, escaped) == [a] + Lines(b, escaped)
  {
    var s := a + end + b;
    assert LineEnd(s, |a|, escaped) == |end|;
    assert s[..|a|] == a && s[|a| + |end|..] == b;
  }

  lemma LineEndBefore(a: string, i: nat, end: string, b: string, escaped: bool)
    requires i < |a| && (end == [NEWLINE] || (escaped && end == [BACKSLASH, 'n']))
    ensures var s, len := a + end + b, LineEnd(a, i, escaped);
      LinesFrom(s, i, escaped) ==
      if len == 0 then LinesFrom(s, i + 1, escaped)
      else [a[..i]] + LinesFrom(a[i + len..] + end + b, 0, escaped)
  {
    var s, len := a + end + b, LineEnd(a, i, escaped);
    LineEndKept(a, i, end, b, escaped);
    assert s[i + len..] == a[i + len..] + end + b && s[..i] == a[..i];
  }

  /** A newline, and with escaped newlines a backslash-n, is where one line ends and the next begins. */
  lemma {:induction false} LinesSplit(a: string, i: nat, end: string, b: string, escaped: bool)
    requires i <= |a| && (end == [NEWLINE] || (escaped && end == [BACKSLASH, 'n']))
    ensures LinesFrom(a + end + b, i, escaped) == LinesFrom(a, i, escaped) + Lines(b, escaped)
    decreases |a|, |a| - i
  {
    hide LinesFrom, LineEnd;
    ScanStep(a, i, escaped);
    if i == |a| {
      LineEndHere(a, end, b, escaped);
    } else {
      var len := LineEnd(a, i, escaped);
      LineEndBefore(a, i, end, b, escaped);
      if len == 0 {
        LinesSplit(a, i + 1, end, b, escaped);
      } else {
        LinesSplit(a[i + len..], 0, end, b, escaped);
      }
    }
  }

  /** Text without either is one line. */
  lemma {:induction false} OneLineExactly(s: string, i: nat, escaped: bool)
    requires i <= |s|
    ensures LinesFrom(s, i, escaped) == [s] <==> NEWLINE !in s[i..] && !(escaped && HasBackslashN(s, i))
    decreases |s| - i
  {
    if i < |s| {
      assert s[i..] == [s[i]] + s[i + 1..];
      var len := LineEnd(s, i, escaped);
      if len == 0 {
        OneLineExactly(s, i + 1, escaped);
        assert s[i] != NEWLINE;
      } else {
        assert |LinesFrom(s, i, escaped)| > 1;
        assert len == 2 ==> s[i] == BACKSLASH && s[i + 1] == 'n';
      }
    }
  }

  /** Output that is escaped on the way arrives as the lines it had, unless it holds a backslash
      and an n of its own: these end a line too. */
  lemma EscapedOutputKeepsLines(s: string)
    ensures Lines(Unescape(Escape(s)), true) == Lines(s, false) <==> !HasBackslashN(s, 0)
  {
    UnescapeEscape(s);
    BackslashNMatters(s, 0);
  }

  // ---------- tokens ----------

  /** The first position of `c` from `i` on, the length if there is none. */
  function Find(s: string, c: char, i: nat): (k: nat)
    requires i <= |s|
    ensures i <= k <= |s| && c !in s[i..k] && (k < |s| ==> s[k] == c)
    decreases |s| - i
  {
    if i == |s| || s[i] == c then i else Find(s, c, i + 1)
  }

  /** The first position from `i` on that holds anything but `c`. */
  function Skip(s: string, c: char, i: nat): (k: nat)
    requires i <= |s|
    ensures i <= k <= |s| && (forall j :: i <= j < k ==> s[j] == c) && (k < |s| ==> s[k] != c)
    decreases |s| - i
  {
    if i == |s| || s[i] != c then i else Skip(s, c, i + 1)
  }

  datatype Token = Token(token: string, rest: string)

  function Cut(s: string, c: char, from: nat): Token
    requires from <= |s|
  {
    var k := Find(s, c, from);
    Token(s[from..k], if k < |s| then s[k + 1..] else [])
  }

  /** `strtok`: delimiters in front are passed over. */
  function Strtok(s: string, c: char): Option<Token> {
    var from := Skip(s, c, 0);
    if from == |s| then None else Some(Cut(s, c, from))
  }

  /** `my_strtok`: a delimiter in front ends an empty token. */
  function MyStrtok(s: string, c: char): Option<Token> {
    if s == [] then None else Some(Cut(s, c, 0))
  }

  lemma OneToken(s: string, c: char)
    requires c !in s
    ensures Strtok(s, c) == (if s == [] then None else Some(Token(s, [])))
    ensures MyStrtok(s, c) == (if s == [] then None else Some(Token(s, [])))
  {
    if s != [] {
      assert Skip(s, c, 0) == 0;
      var k := Find(s, c, 0);
      assert s[0..|s|] == s;
    }
  }

  // ---------- what the lines mean ----------

  /** The text of a line in front of its first bar, and the text behind. */
  function Before(line: string): string {
    line[..Find(line, BAR, 0)]
  }

  function After(line: string): string {
    var k := Find(line, BAR, 0);
    if k < |line| then line[k + 1..] else []
  }

  /** The first line without bars in front; of a line of nothing but bars there is nothing. */
  function FirstLine(line: string): string {
    line[Skip(line, BAR, 0)..]
  }

  /** The additional line in which performance data starts. */
  function BarLine(lines: seq<string>): (k: nat)
    requires lines != []
    ensures 1 <= k <= |lines|
    ensures forall j :: 1 <= j < k ==> BAR !in lines[j]
    ensures k < |lines| ==> BAR in lines[k]
  {
    var n := |lines| - 1;
    if n == 0 then 1
    else
      var k := BarLine(lines[..n]);
      if k < n then k else if BAR in lines[n] then n else n + 1
  }

  function ShortText(lines: seq<string>): Option<string>
    requires lines != []
  {
    if FirstLine(lines[0]) == [] then None else Some(Before(FirstLine(lines[0])))
  }

  function LongLines(lines: seq<string>): seq<string>
    requires lines != []
  {
    var k := BarLine(lines);
    if k < |lines| then lines[1..k] + [Before(lines[k])] else lines[1..]
  }

  /** Long output: the additional lines up to the first bar. */
  function LongText(lines: seq<string>): string
    requires lines != []
  {
    Join(LongLines(lines))
  }

  function Spaced(lines: seq<string>): string {
    if lines == [] then [] else Spaced(lines[..|lines| - 1]) + lines[|lines| - 1] + " "
  }

  /** Performance data: what is behind the bar in the first line, behind the bar in the additional
      lines, and all lines after that. */
  function PerfText(lines: seq<string>): string
    requires lines != []
  {
    var k := BarLine(lines);
    After(FirstLine(lines[0])) +
    if k == |lines| then []
    else (if After(lines[k]) == [] then [] else After(lines[k]) + " ") + Spaced(lines[k + 1..])
  }

  // ---------- line by line ----------

  datatype Parsed = Parsed(currentLine: nat, inPerfData: bool, shortOutput: Option<string>, db1: string, db2: string)

  /** What has been gathered from these lines. */
  ghost predicate Gathered(lines: seq<string>, p: Parsed) {
    && p.currentLine == |lines|
    && if lines == [] then p == Parsed(0, false, None, [], [])
       else
         && p.shortOutput == ShortText(lines) && p.db1 == LongText(lines) && p.db2 == PerfText(lines)
         && (p.inPerfData <==> BarLine(lines) < |lines|)
  }

  predicate Clean(p: Parsed) {
    NUL !in p.db1 && NUL !in p.db2 && (p.shortOutput.Some? ==> NUL !in p.shortOutput.value)
  }

  lemma FirstLineParsed(line: string)
    requires NEWLINE !in line
    ensures Strtok(line, BAR) ==
      if FirstLine(line) == [] then None else Some(Token(Before(FirstLine(line)), After(FirstLine(line))))
    ensures NEWLINE !in After(FirstLine(line))
    ensures LongText([line]) == [] && BarLine([line]) == 1
    ensures PerfText([line]) == After(FirstLine(line))
  {
    hide Strtok, FirstLine, Before, After, BarLine, LongText, PerfText;
    FirstLineTokens(line);
    OneLineTexts(line);
    NoNewlineBehind(line);
  }

  lemma NoNewlineBehind(line: string)
    requires NEWLINE !in line
    ensures NEWLINE !in After(FirstLine(line))
  {
  }

  lemma OneLineTexts(line: string)
    ensures LongText([line]) == [] && BarLine([line]) == 1
    ensures PerfText([line]) == After(FirstLine(line))
  {
    hide After, FirstLine;
    assert [line][1..] == [] && After(FirstLine(line)) + [] == After(FirstLine(line));
  }

  lemma FirstLineTokens(line: string)
    ensures Strtok(line, BAR) ==
      if FirstLine(line) == [] then None else Some(Token(Before(FirstLine(line)), After(FirstLine(line))))
  {
    CutShift(line, Skip(line, BAR, 0));
  }

  lemma CutShift(line: string, from: nat)
    requires from <= |line|
    ensures Cut(line, BAR, from) == Token(Before(line[from..]), After(line[from..]))
  {
    FindShift(line, BAR, from, from);
    SlicesOfRest(line, from, Find(line, BAR, from));
  }

  lemma SlicesOfRest(s: string, from: nat, k: nat)
    requires from <= k <= |s|
    ensures s[from..k] == s[from..][..k - from] && (k < |s| ==> s[k + 1..] == s[from..][k - from + 1..])
  {
  }

  lemma {:induction false} FindShift(s: string, c: char, from: nat, i: nat)
    requires from <= i <= |s|
    ensures Find(s, c, i) == from + Find(s[from..], c, i - from)
    decreases |s| - i
  {
    if i < |s| && s[i] != c {
      FindShift(s, c, from, i + 1);
    }
  }

  /** One more line. */
  lemma LineAdded(lines: seq<string>, line: string)
    requires lines != []
    ensures var all, k := lines + [line], BarLine(lines);
      && BarLine(all) == (if k < |lines| || BAR in line then k else k + 1)
      && ShortText(all) == ShortText(lines)
      && LongText(all) == (if k < |lines| then LongText(lines)
                           else LongText(lines) + (if |lines| > 1 then [NEWLINE] else []) + Before(line))
      && PerfText(all) == PerfText(lines) + PerfAdded(lines, line)
  {
    hide ShortText, LongText, PerfText;
    var all, k := lines + [line], BarLine(lines);
    assert all[..|lines|] == lines;
    ShortTextAdded(lines, line);
    LongTextAdded(lines, line);
    PerfTextAdded(lines, line);
  }

  lemma BarLineAdded(lines: seq<string>, line: string)
    requires lines != []
    ensures var k := BarLine(lines); BarLine(lines + [line]) == if k < |lines| || BAR in line then k else k + 1
  {
    assert (lines + [line])[..|lines|] == lines;
  }

  lemma ShortTextAdded(lines: seq<string>, line: string)
    requires lines != []
    ensures ShortText(lines + [line]) == ShortText(lines)
  {
  }

  lemma LongTextAdded(lines: seq<string>, line: string)
    requires lines != []
    ensures LongText(lines + [line]) == if BarLine(lines) < |lines| then LongText(lines)
                                       else LongText(lines) + (if |lines| > 1 then [NEWLINE] else []) + Before(line)
  {
    hide LongLines, Join, Before, BarLine;
    LongLinesAdded(lines, line);
    var ls, before := LongLines(lines), Before(line);
    JoinStep(ls, before);
  }

  lemma LongLinesAdded(lines: seq<string>, line: string)
    requires lines != []
    ensures BarLine(lines) < |lines| ==> LongLines(lines + [line]) == LongLines(lines)
    ensures BarLine(lines) == |lines| ==> LongLines(lines + [line]) == LongLines(lines) + [Before(line)]
    ensures BarLine(lines) == |lines| ==> |LongLines(lines)| == |lines| - 1
  {
    hide BarLine, Before;
    BarLineAdded(lines, line);
    NoBarWhole(line);
    SlicesAppended<string>(lines, line, BarLine(lines));
  }

  lemma SlicesAppended<T>(s: seq<T>, e: T, k: nat)
    requires 1 <= k <= |s|
    ensures var all := s + [e];
      && |all| == |s| + 1 && all[|s|] == e && all[1..] == s[1..] + [e] && all[1..k] == s[1..k]
      && (k < |s| ==> all[k] == s[k]) && (k == |s| ==> s[1..k] == s[1..])
  {
  }

  /** What a line behind the first one adds to the performance data. */
  function PerfAdded(lines: seq<string>, line: string): string
    requires lines != []
  {
    if BarLine(lines) < |lines| then line + " "
    else if BAR in line && After(line) != [] then After(line) + " "
    else []
  }

  lemma PerfTextAdded(lines: seq<string>, line: string)
    requires lines != []
    ensures PerfText(lines + [line]) == PerfText(lines) + PerfAdded(lines, line)
  {
    hide BarLine, After, Spaced;
    var all, k := lines + [line], BarLine(lines);
    BarLineAdded(lines, line);
    SpacedStep([], line);
    if k < |lines| {
      assert all[k] == lines[k] && all[k + 1..] == lines[k + 1..] + [line];
      SpacedStep(lines[k + 1..], line);
      var front := if After(lines[k]) == [] then [] else After(lines[k]) + " ";
      Regroup(After(FirstLine(lines[0])), front, Spaced(lines[k + 1..]), line + " ");
      assert Spaced(lines[k + 1..]) + line + " " == Spaced(lines[k + 1..]) + (line + " ");
    } else if BAR in line {
      assert all[k] == line && all[k + 1..] == [];
      SpacedNone();
    }
  }

  lemma SpacedNone()
    ensures Spaced([]) == []
  {
  }

  lemma Regroup(a: string, b: string, c: string, d: string)
    ensures a + (b + (c + d)) == a + (b + c) + d
  {
  }

  lemma NoBarWhole(line: string)
    ensures BAR !in line ==> Before(line) == line && After(line) == []
  {
  }

  lemma SpacedStep(lines: seq<string>, line: string)
    ensures Spaced(lines + [line]) == Spaced(lines) + line + " "
  {
    assert (lines + [line])[..|lines|] == lines;
  }

  lemma JoinStep(lines: seq<string>, line: string)
    ensures Join(lines + [line]) == Join(lines) + (if lines != [] then [NEWLINE] else []) + line
  {
    assert (lines + [line])[..|lines|] == lines;
  }

  /** Deals with one line of output. */
  method HandleLine(p: Parsed, tempbuf: string, ghost lines: seq<string>) returns (r: Parsed)
    requires Gathered(lines, p) && Clean(p) && NUL !in tempbuf && NEWLINE !in tempbuf
    ensures Gathered(lines + [tempbuf], r) && Clean(r)
  {
    hide ShortText, LongText, PerfText, BarLine, Strtok, Find, Skip, After, Before, FirstLine;
    r := p.(currentLine := p.currentLine + 1);
    if r.currentLine == 1 {
      FirstLineParsed(tempbuf);
      assert lines + [tempbuf] == [tempbuf];
      r := HandleFirstLine(r, tempbuf);
    } else {
      LineAdded(lines, tempbuf);
      if p.inPerfData {
        r := r.(db2 := r.db2 + tempbuf + " ");
      } else {
        r := HandleLongOutput(r, tempbuf);
      }
    }
  }

  lemma FirstLineClean(line: string)
    requires NUL !in line
    ensures NUL !in Before(FirstLine(line)) && NUL !in After(FirstLine(line))
    ensures ShortText([line]) == if FirstLine(line) == [] then None else Some(Before(FirstLine(line)))
  {
  }

  method HandleFirstLine(p: Parsed, tempbuf: string) returns (r: Parsed)
    requires p == Parsed(1, false, None, [], []) && NUL !in tempbuf && NEWLINE !in tempbuf
    ensures r == Parsed(1, false, ShortText([tempbuf]), [], After(FirstLine(tempbuf))) && Clean(r)
  {
    hide Strtok, Find, Skip, BarLine, LongText, PerfText;
    FirstLineParsed(tempbuf);
    FirstLineClean(tempbuf);
    hide After, Before, FirstLine;
    r := p;
    var ptr := Strtok(tempbuf, BAR);
    if ptr.Some? {
      r := r.(shortOutput := Some(ptr.value.token));
      OneToken(ptr.value.rest, NEWLINE);
      var perf := Strtok(ptr.value.rest, NEWLINE);
      if perf.Some? {
        r := r.(db2 := r.db2 + perf.value.token);
      }
    }
  }

  /** An additional line before any performance data. */
  method HandleLongOutput(p: Parsed, tempbuf: string) returns (r: Parsed)
    requires p.currentLine > 1 && !p.inPerfData && Clean(p) && NUL !in tempbuf && NEWLINE !in tempbuf
    ensures r == p.(inPerfData := BAR in tempbuf,
                    db1 := p.db1 + (if p.currentLine > 2 then [NEWLINE] else []) + Before(tempbuf),
                    db2 := p.db2 + (if BAR in tempbuf && After(tempbuf) != [] then After(tempbuf) + " " else []))
    ensures Clean(r)
  {
    hide MyStrtok, Before, After;
    var db1, db2 := p.db1, p.db2;
    NoBarWhole(tempbuf);
    SplitAtBar(tempbuf);
    if BAR in tempbuf {
      var ptr := MyStrtok(tempbuf, BAR);
      if ptr.Some? {
        if p.currentLine > 2 {
          db1 := db1 + [NEWLINE];
        }
        db1 := db1 + ptr.value.token;
        OneToken(ptr.value.rest, NEWLINE);
        var perf := MyStrtok(ptr.value.rest, NEWLINE);
        if perf.Some? {
          db2 := db2 + (perf.value.token + " ");
        }
      }
    } else {
      if p.currentLine > 2 {
        db1 := db1 + [NEWLINE];
      }
      db1 := db1 + tempbuf;
    }
    r := p.(inPerfData := BAR in tempbuf, db1 := db1, db2 := db2);
  }

  lemma SplitAtBar(line: string)
    ensures line != [] ==> MyStrtok(line, BAR) == Some(Token(Before(line), After(line)))
    ensures NUL !in line ==> NUL !in Before(line) && NUL !in After(line)
    ensures NEWLINE !in line ==> NEWLINE !in After(line)
  {
  }

  // ---------- the loop ----------

  /** A copy of the string in a buffer. */
  method ReadString(buf: array<char>, ghost s: string) returns (r: string)
    requires Holds(buf, s)
    ensures r == s
  {
    var len := StringLength(buf, s);
    r := buf[..len];
  }

  /** `strdup`. */
  method Duplicate(s: string) returns (buf: array<char>)
    requires NUL !in s
    ensures fresh(buf) && Holds(buf, s)
  {
    buf := new char[|s| + 1](i requires 0 <= i <= |s| => if i < |s| then s[i] else NUL);
    assert buf[..|s|] == s;
  }

  /** `memmove` to the front of the buffer. */
  method MoveToFront(buf: array<char>, from: nat, count: nat)
    requires from + count <= buf.Length
    modifies buf
    ensures forall j :: 0 <= j < count ==> buf[j] == old(buf[from + j])
  {
    for i := 0 to count
      invariant forall j :: 0 <= j < i ==> buf[j] == old(buf[from + j])
      invariant forall j :: from + i <= j < from + count ==> buf[j] == old(buf[j])
    {
      buf[i] := buf[from + i];
    }
  }

  /** The end of a line has been found behind `e` characters, and is `len` long; at the very end of
      the text it is the NUL. Takes the line out and shifts the rest of the buffer to the front,
      with all that may be behind the text: `usedBuf` was taken before the text was unescaped. */
  method TakeLine(buf: array<char>, e: nat, len: nat, ghost t: string, usedBuf: nat) returns (line: string)
    requires Holds(buf, t) && e <= |t| && 1 <= len && e + len <= |t| + 1 <= usedBuf <= buf.Length
    modifies buf
    ensures line == t[..e]
    ensures e + len <= |t| ==> Holds(buf, t[e + len..])
  {
    assert forall j :: 0 <= j < |t| ==> buf[j] == t[j];
    assert buf[|t|] == NUL;
    buf[e] := NUL;
    buf[e + len - 1] := NUL;
    assert t[..e] == buf[..e];
    line := ReadString(buf, t[..e]);
    ShiftRest(buf, e + len, t, usedBuf);
  }

  method ShiftRest(buf: array<char>, from: nat, ghost t: string, usedBuf: nat)
    requires from <= |t| + 1 <= usedBuf <= buf.Length && 1 <= from && NUL !in t
    requires forall j :: from <= j <= |t| ==> buf[j] == if j < |t| then t[j] else NUL
    modifies buf
    ensures from <= |t| ==> Holds(buf, t[from..])
  {
    MoveToFront(buf, from, usedBuf - from);
    buf[usedBuf - from] := NUL;
    if from <= |t| {
      ghost var rest := t[from..];
      assert buf[|rest|] == NUL;
      assert buf[..|rest|] == rest;
    }
  }

  /** One step of the scan. */
  lemma ScanStep(t: string, x: nat, escaped: bool)
    requires x <= |t|
    ensures x == |t| ==> LinesFrom(t, x, escaped) == [t]
    ensures x < |t| && LineEnd(t, x, escaped) == 0 ==> LinesFrom(t, x, escaped) == LinesFrom(t, x + 1, escaped)
    ensures x < |t| && LineEnd(t, x, escaped) > 0 ==>
      LinesFrom(t, x, escaped) == [t[..x]] + LinesFrom(t[x + LineEnd(t, x, escaped)..], 0, escaped)
  {
  }

  /** How many characters end a line at `x`, counting the NUL at the end of the text. */
  method FindLineEnd(buf: array<char>, x: nat, escaped: bool, ghost t: string) returns (len: nat, eof: bool)
    requires Holds(buf, t) && x <= |t|
    ensures eof <==> x == |t|
    ensures len == if x == |t| then 1 else LineEnd(t, x, escaped)
  {
    len, eof := 0, false;
    assert forall j :: 0 <= j < |t| ==> buf[j] == t[j];
    assert buf[|t|] == NUL;
    if buf[x] == NEWLINE {
      len := 1;
    } else if buf[x] == BACKSLASH && buf[x + 1] == 'n' && escaped {
      len := 2;
    } else if buf[x] == NUL {
      len, eof := 1, true;
    }
  }

  /** Takes the text apart line by line; the text shrinks towards the front of the buffer. */
  method GatherLines(buf: array<char>, used: nat, escaped: bool, ghost s: string) returns (p: Parsed)
    requires Holds(buf, s) && |s| + 1 <= used <= buf.Length
    modifies buf
    ensures Gathered(Lines(s, escaped), p) && Clean(p)
  {
    hide Gathered, Clean, LinesFrom, Holds, LineEnd;
    var usedBuf := used;
    var eof, x := false, 0;
    ghost var t, lines: seq<string> := s, [];
    p := Parsed(0, false, None, [], []);
    NothingGathered();
    NoNewlineYet(t);
    while !eof
      invariant eof ==> lines == Lines(s, escaped)
      invariant !eof ==> Holds(buf, t) && |t| + 1 <= usedBuf <= buf.Length && 0 <= x <= |t| && NEWLINE !in t[..x]
      invariant !eof ==> Lines(s, escaped) == lines + LinesFrom(t, x, escaped)
      invariant Gathered(lines, p) && Clean(p)
      decreases !eof, |t|, |t| - x
    {
      var len;
      len, eof := FindLineEnd(buf, x, escaped, t);
      ScanStep(t, x, escaped);
      if len > 0 {
        HoldsBounds(buf, t, x, len);
        var tempbuf := TakeLine(buf, x, len, t, usedBuf);
        p := HandleLine(p, tempbuf, lines);
        lines := lines + [t[..x]];
        usedBuf := usedBuf - x - len;
        if !eof {
          t := t[x + len..];
        } else {
          assert t[..x] == t;
        }
        x := 0;
      } else {
        NewlineStep(t, x, escaped);
        x := x + 1;
      }
    }
  }

  lemma NothingGathered()
    ensures Gathered([], Parsed(0, false, None, [], [])) && Clean(Parsed(0, false, None, [], []))
  {
  }

  lemma NoNewlineYet(t: string)
    ensures NEWLINE !in t[..0]
  {
  }

  lemma HoldsBounds(buf: array<char>, t: string, x: nat, len: nat)
    requires Holds(buf, t) && x <= |t|
    ensures NUL !in t[..x]
  {
  }

  lemma NewlineStep(t: string, x: nat, escaped: bool)
    requires x < |t| && NEWLINE !in t[..x] && LineEnd(t, x, escaped) == 0
    ensures NEWLINE !in t[..x + 1]
  {
  }

  // ---------- the whole parser ----------

  datatype Output = Output(shortOutput: Option<string>, longOutput: Option<string>, perfData: Option<string>)

  /** What these lines of output are parsed to. */
  function OutputOf(lines: seq<string>, escapeNewlines: bool): Output
    requires lines != []
  {
    var long, perf := LongText(lines), PerfText(lines);
    Output(if ShortText(lines).Some? then Some(Trim(ShortText(lines).value)) else None,
           if long == [] then None else Some(if escapeNewlines then Escape(long) else long),
           if perf == [] then None else Some(Trim(perf)))
  }

  // ---------- what the output is, in terms of the text ----------

  predicate AllBars(s: string) {
    forall j :: 0 <= j < |s| ==> s[j] == '|'
  }

  lemma FindIs(s: string, c: char, i: nat, k: nat)
    requires i <= k <= |s| && (forall j :: i <= j < k ==> s[j] != c) && (k < |s| ==> s[k] == c)
    ensures Find(s, c, i) == k
    decreases k - i
  {
    if i < k {
      FindIs(s, c, i + 1, k);
    }
  }

  lemma SkipIs(s: string, c: char, k: nat)
    requires k <= |s| && (forall j :: 0 <= j < k ==> s[j] == c) && (k < |s| ==> s[k] != c)
    ensures Skip(s, c, 0) == k
  {
  }

  /** A line that has a bar, taken apart at the first one. */
  lemma TakenApart(b: string, q: string)
    requires BAR !in b
    ensures Before(b + "|" + q) == b && After(b + "|" + q) == q
    ensures Before(b) == b && After(b) == []
  {
    var line := b + "|" + q;
    assert line[0..|b|] == b;
    FindIs(line, BAR, 0, |b|);
    assert line[|b| + 1..] == q;
    assert b[0..|b|] == b;
    FindIs(b, BAR, 0, |b|);
  }

  lemma BarsSkipped(bars: string, rest: string)
    requires AllBars(bars) && (rest != [] ==> rest[0] != BAR)
    ensures FirstLine(bars + rest) == rest
  {
    SkipIs(bars + rest, BAR, |bars|);
  }

  /** The first line: bars, then text without a bar, then perhaps a bar and performance data. The text,
      without blanks around it, is the short output. A line of nothing but bars has none. */
  lemma ShortOutputIs(bars: string, text: string, tail: string, more: seq<string>, escapeNewlines: bool)
    requires AllBars(bars) && text != [] && '|' !in text && (tail == [] || tail[0] == '|')
    ensures var r := OutputOf([bars + text + tail] + more, escapeNewlines).shortOutput;
      r.Some? && IsStripped(text, r.value)
    ensures OutputOf([bars] + more, escapeNewlines).shortOutput == None
  {
    hide Trim, LongText, PerfText;
    FirstLineTexts(bars, text, tail);
    TrimStrips(text);
    BarsSkipped(bars, []);
    assert bars + [] == bars;
  }

  lemma FirstLineTexts(bars: string, text: string, tail: string)
    requires AllBars(bars) && text != [] && BAR !in text && (tail == [] || tail[0] == BAR)
    ensures var first := FirstLine(bars + text + tail);
      first == text + tail && Before(first) == text && After(first) == if tail == [] then [] else tail[1..]
  {
    assert bars + text + tail == bars + (text + tail);
    BarsSkipped(bars, text + tail);
    if tail == [] {
      assert text + tail == text;
      TakenApart(text, []);
    } else {
      assert text + tail == text + "|" + tail[1..];
      TakenApart(text, tail[1..]);
    }
  }

  predicate NoBars(lines: seq<string>) {
    forall j :: 0 <= j < |lines| ==> '|' !in lines[j]
  }

  /** Output whose additional lines have no bar: they are the long output, and performance data is only
      what the first line has behind its bar. */
  lemma OutputWithoutBars(bars: string, text: string, tail: string, front: seq<string>, escapeNewlines: bool)
    requires AllBars(bars) && text != [] && '|' !in text && (tail == [] || tail[0] == '|') && NoBars(front)
    ensures var r := OutputOf([bars + text + tail] + front, escapeNewlines);
      && (r.perfData.Some? <==> |tail| > 1)
      && (r.perfData.Some? ==> IsStripped(tail[1..], r.perfData.value))
      && (r.longOutput.Some? <==> Join(front) != [])
      && (r.longOutput.Some? ==> r.longOutput.value == if escapeNewlines then Escape(Join(front)) else Join(front))
  {
    hide Trim, Join, Escape, Before, After, FirstLine, Spaced;
    var lines := [bars + text + tail] + front;
    FirstLineTexts(bars, text, tail);
    BarLineIs(lines, |lines|);
    assert lines[1..] == front;
    var perf := if tail == [] then [] else tail[1..];
    assert PerfText(lines) == perf + [] == perf;
    TrimStrips(perf);
  }

  /** Output with a bar in an additional line: what is in front of it is long output, what is behind it is
      performance data, line by line and a blank behind each, and the lines never go to both. */
  lemma OutputWithBar(bars: string, text: string, tail: string, front: seq<string>, b: string, q: string,
                      behind: seq<string>, escapeNewlines: bool)
    requires AllBars(bars) && text != [] && '|' !in text && (tail == [] || tail[0] == '|') && NoBars(front) && '|' !in b
    ensures var r := OutputOf([bars + text + tail] + front + [b + "|" + q] + behind, escapeNewlines);
      var long := Join(front + [b]);
      var perf := (if tail == [] then [] else tail[1..]) + (if q == [] then [] else q + " ") + Spaced(behind);
      && (r.perfData.Some? <==> perf != []) && (r.perfData.Some? ==> IsStripped(perf, r.perfData.value))
      && (r.longOutput.Some? <==> long != [])
      && (r.longOutput.Some? ==> r.longOutput.value == if escapeNewlines then Escape(long) else long)
  {
    hide Trim, Join, Escape, Before, After, FirstLine, Spaced;
    var line, k := b + "|" + q, |front| + 1;
    var lines := [bars + text + tail] + front + [line] + behind;
    FirstLineTexts(bars, text, tail);
    TakenApart(b, q);
    assert lines[k] == line && line[|b|] == BAR;
    BarLineIs(lines, k);
    assert lines[1..k] == front && lines[k + 1..] == behind;
    var first, own := if tail == [] then [] else tail[1..], if q == [] then [] else q + " ";
    Associate(first, own, Spaced(behind));
    assert PerfText(lines) == first + own + Spaced(behind);
    TrimStrips(first + own + Spaced(behind));
  }

  lemma BarLineIs(lines: seq<string>, k: nat)
    requires 1 <= k <= |lines| && (forall j :: 1 <= j < k ==> BAR !in lines[j]) && (k < |lines| ==> BAR in lines[k])
    ensures BarLine(lines) == k
  {
  }

  /** Performance data of additional lines is put together with a blank behind every line. */
  lemma SpacedLines(lines: seq<string>, line: string)
    ensures Spaced([]) == [] && Spaced(lines + [line]) == Spaced(lines) + line + " "
  {
    assert (lines + [line])[..|lines|] == lines;
  }

  /** The first line is bars, then text without a bar, then nothing or a bar and performance data. */
  ghost predicate FirstLineIs(lines: seq<string>, bars: string, text: string, tail: string) {
    && lines != [] && lines[0] == bars + text + tail
    && AllBars(bars) && text != [] && '|' !in text && (tail == [] || tail[0] == '|')
  }

  /** The text of the first line is the short output, and with no further line the performance data is
      what the bar has behind it. */
  ghost predicate TellsFirstLine(r: Output, lines: seq<string>) {
    forall bars, text, tail :: FirstLineIs(lines, bars, text, tail) ==>
      && r.shortOutput.Some? && IsStripped(text, r.shortOutput.value)
      && (|lines| == 1 ==> r.longOutput == None && (r.perfData.Some? <==> |tail| > 1))
      && (|lines| == 1 && |tail| > 1 ==> IsStripped(tail[1..], r.perfData.value))
  }

  lemma OutputTellsFirstLine(lines: seq<string>, escapeNewlines: bool)
    requires lines != []
    ensures TellsFirstLine(OutputOf(lines, escapeNewlines), lines)
  {
    hide OutputOf, IsStripped;
    forall bars, text, tail | FirstLineIs(lines, bars, text, tail)
      ensures var r := OutputOf(lines, escapeNewlines);
        && r.shortOutput.Some? && IsStripped(text, r.shortOutput.value)
        && (|lines| == 1 ==> r.longOutput == None && (r.perfData.Some? <==> |tail| > 1))
        && (|lines| == 1 && |tail| > 1 ==> IsStripped(tail[1..], r.perfData.value))
    {
      assert lines == [bars + text + tail] + lines[1..];
      ShortOutputIs(bars, text, tail, lines[1..], escapeNewlines);
      if |lines| == 1 {
        assert lines[1..] == [];
        OutputWithoutBars(bars, text, tail, [], escapeNewlines);
      }
    }
  }

  method Stripped(text: string) returns (r: string)
    requires NUL !in text
    ensures r == Trim(text)
  {
    var buf := Duplicate(text);
    Strip(buf, text);
    r := ReadString(buf, Trim(text));
  }

  method WithEscapes(text: string) returns (r: string)
    requires NUL !in text
    ensures r == Escape(text)
  {
    var buf := Duplicate(text);
    var tempbuf := EscapeNewlines(buf, text);
    r := ReadString(tempbuf, Escape(text));
  }

  /** `parse_check_output`. */
  method ParseCheckOutput(buf: array<char>, escapeNewlinesPlease: bool, newlinesAreEscaped: bool, ghost s: string)
        returns (r: Output)
    requires Holds(buf, s)
    modifies buf
    ensures r == if s == [] then Output(None, None, None)
                 else OutputOf(Lines(if newlinesAreEscaped then Unescape(s) else s, newlinesAreEscaped),
                               escapeNewlinesPlease)
    ensures s != [] ==> TellsFirstLine(r, Lines(if newlinesAreEscaped then Unescape(s) else s, newlinesAreEscaped))
  {
    hide TellsFirstLine, Unescape, Escape, Trim, ShortText, LongText, PerfText, LinesFrom;
    r := Output(None, None, None);
    if buf[0] == NUL {
      return;
    }
    ghost var text := s;
    var length := StringLength(buf, s);
    if newlinesAreEscaped {
      UnescapeFits(s);
      UnescapeInPlace(buf, s);
      text := Unescape(s);
    }
    OutputTellsFirstLine(Lines(text, newlinesAreEscaped), escapeNewlinesPlease);
    var p := GatherLines(buf, length + 1, newlinesAreEscaped, text);
    if p.db1 != [] {
      if escapeNewlinesPlease {
        var escaped := WithEscapes(p.db1);
        r := r.(longOutput := Some(escaped));
      } else {
        r := r.(longOutput := Some(p.db1));
      }
    }
    if p.shortOutput.Some? {
      var short := Stripped(p.shortOutput.value);
      r := r.(shortOutput := Some(short));
    }
    if p.db2 != [] {
      var perf := Stripped(p.db2);
      r := r.(perfData := Some(perf));
    }
  }

  /** What is saved of the long output can be read back. */
  lemma LongOutputReadBack(lines: seq<string>)
    requires lines != [] && OutputOf(lines, true).longOutput.Some?
    ensures Unescape(OutputOf(lines, true).longOutput.value) == LongText(lines)
  {
    UnescapeEscape(LongText(lines));
  }

  // ---------- what becomes of backslashes ----------

  function Backslashes(s: string): nat {
    multiset(s)[BACKSLASH]
  }

  lemma BackslashesJoined(a: string, b: string)
    ensures Backslashes(a + b) == Backslashes(a) + Backslashes(b)
  {
  }

  lemma BackslashesSplit(s: string, i: nat)
    requires i <= |s|
    ensures Backslashes(s) == Backslashes(s[..i]) + Backslashes(s[i..])
  {
    assert s == s[..i] + s[i..];
  }

  lemma NoBackslashes(s: string)
    requires BACKSLASH !in s
    ensures Backslashes(s) == 0
  {
  }

  function BackslashesIn(lines: seq<string>): nat {
    if lines == [] then 0 else BackslashesIn(lines[..|lines| - 1]) + Backslashes(lines[|lines| - 1])
  }

  lemma {:induction false} BackslashesInFront(line: string, lines: seq<string>)
    ensures BackslashesIn([line] + lines) == Backslashes(line) + BackslashesIn(lines)
    decreases |lines|
  {
    var all := [line] + lines;
    if lines == [] {
      assert all[..0] == [];
    } else {
      BackslashesInFront(line, lines[..|lines| - 1]);
      assert all[..|all| - 1] == [line] + lines[..|lines| - 1];
    }
  }

  /** Splitting at newlines drops no backslash, splitting at backslash-n drops one every time. */
  lemma {:induction false} LinesBackslashes(s: string, i: nat, escaped: bool)
    requires i <= |s|
    ensures BackslashesIn(LinesFrom(s, i, escaped)) <= Backslashes(s)
    ensures !escaped ==> BackslashesIn(LinesFrom(s, i, escaped)) == Backslashes(s)
    ensures escaped && HasBackslashN(s, i) ==> BackslashesIn(LinesFrom(s, i, escaped)) < Backslashes(s)
    decreases |s|, |s| - i
  {
    hide Backslashes, BackslashesIn;
    if i == |s| {
      OneLine(s);
    } else {
      var len := LineEnd(s, i, escaped);
      if len == 0 {
        LinesBackslashes(s, i + 1, escaped);
      } else {
        var rest := s[i + len..];
        LinesBackslashes(rest, 0, escaped);
        BackslashesInFront(s[..i], LinesFrom(rest, 0, escaped));
        LineEndBackslashes(s, i, escaped);
        if len == 1 { BackslashNBehind(s, i); }
      }
    }
  }

  lemma OneLine(s: string)
    ensures BackslashesIn([s]) == Backslashes(s)
  {
    assert [s][..0] == [];
  }

  lemma LineEndBackslashes(s: string, i: nat, escaped: bool)
    requires i < |s| && LineEnd(s, i, escaped) > 0
    ensures var len := LineEnd(s, i, escaped);
      Backslashes(s) == Backslashes(s[..i]) + (if len == 2 then 1 else 0) + Backslashes(s[i + len..])
  {
    var len := LineEnd(s, i, escaped);
    assert s == s[..i] + s[i..i + len] + s[i + len..];
    assert s[i..i + len] == if len == 1 then [NEWLINE] else [BACKSLASH, 'n'];
  }

  function TextOf(text: Option<string>): string {
    if text.Some? then text.value else []
  }

  lemma BarSplits(line: string)
    ensures Backslashes(Before(line)) + Backslashes(After(line)) == Backslashes(line)
    ensures Backslashes(FirstLine(line)) == Backslashes(line)
  {
    var k, from := Find(line, BAR, 0), Skip(line, BAR, 0);
    if k < |line| {
      assert line == line[..k] + [BAR] + line[k + 1..];
    } else {
      assert line[..k] == line;
    }
    BackslashesSplit(line, from);
    NoBackslashes(line[..from]);
  }

  /** No backslash of a line gets lost between the three texts. */
  lemma {:induction false} TextsKeepBackslashes(lines: seq<string>)
    requires lines != []
    ensures Backslashes(TextOf(ShortText(lines))) + Backslashes(LongText(lines)) + Backslashes(PerfText(lines))
      == BackslashesIn(lines)
    decreases |lines|
  {
    hide Backslashes, BackslashesIn, ShortText, LongText, PerfText, BarLine, Before, After, FirstLine;
    var n := |lines| - 1;
    var front, line := lines[..n], lines[n];
    assert lines == front + [line];
    BarSplits(line);
    if n == 0 {
      assert lines == [line];
      FirstTexts(line);
      OneLine(line);
    } else {
      TextsKeepBackslashes(front);
      LineAdded(front, line);
      LastLineBackslashes(lines);
      LongTextGrows(LongText(front), |front| > 1, Before(line));
      PerfTextGrows(front, line);
    }
  }

  lemma LastLineBackslashes(lines: seq<string>)
    requires lines != []
    ensures BackslashesIn(lines) == BackslashesIn(lines[..|lines| - 1]) + Backslashes(lines[|lines| - 1])
  {
  }

  lemma FirstTexts(line: string)
    ensures Backslashes(TextOf(ShortText([line]))) + Backslashes(LongText([line])) + Backslashes(PerfText([line]))
      == Backslashes(line)
  {
    hide Backslashes, FirstLine, Before, After, LongText, PerfText;
    BarSplits(line);
    var r := FirstLine(line);
    BarSplits(r);
    NoBackslashes([]);
    OneLineTexts(line);
    assert r == [] ==> Before(r) == [] by { hide *; TakenApart([], []); }
    assert TextOf(ShortText([line])) == Before(r);
  }

  lemma LongTextGrows(text: string, newline: bool, added: string)
    ensures Backslashes(text + (if newline then [NEWLINE] else []) + added) == Backslashes(text) + Backslashes(added)
  {
  }

  lemma PerfTextGrows(lines: seq<string>, line: string)
    requires lines != []
    ensures Backslashes(PerfText(lines) + PerfAdded(lines, line)) == Backslashes(PerfText(lines)) +
      Backslashes(if BarLine(lines) < |lines| then line else After(line))
  {
    hide PerfText, BarLine, After;
    NoBarWhole(line);
    BackslashesJoined(PerfText(lines), PerfAdded(lines, line));
    BackslashesJoined(line, " ");
    BackslashesJoined(After(line), " ");
  }

  lemma {:induction false} TrimEndKeepsBackslashes(s: string)
    ensures Backslashes(TrimEnd(s)) == Backslashes(s)
    decreases |s|
  {
    if s != [] && Blank(s[|s| - 1]) {
      TrimEndKeepsBackslashes(s[..|s| - 1]);
      assert s == s[..|s| - 1] + [s[|s| - 1]];
    }
  }

  lemma {:induction false} TrimStartKeepsBackslashes(s: string)
    ensures Backslashes(TrimStart(s)) == Backslashes(s)
    decreases |s|
  {
    if s != [] && Blank(s[0]) {
      TrimStartKeepsBackslashes(s[1..]);
      assert s == [s[0]] + s[1..];
    }
  }

  lemma TrimKeepsBackslashes(s: string)
    ensures Backslashes(Trim(s)) == Backslashes(s)
  {
    hide Backslashes, TrimEnd, TrimStart;
    TrimEndKeepsBackslashes(s);
    TrimStartKeepsBackslashes(TrimEnd(s));
  }

  /** The same output stands for the same number of backslashes. */
  lemma OutputTellsBackslashes(a: seq<string>, b: seq<string>, escapeNewlines: bool)
    requires a != [] && b != [] && OutputOf(a, escapeNewlines) == OutputOf(b, escapeNewlines)
    ensures BackslashesIn(a) == BackslashesIn(b)
  {
    hide Backslashes, BackslashesIn, ShortText, LongText, PerfText, Trim, Escape, Unescape;
    TextsKeepBackslashes(a);
    TextsKeepBackslashes(b);
    NoBackslashes([]);
    TrimKeepsBackslashes(TextOf(ShortText(a)));
    TrimKeepsBackslashes(TextOf(ShortText(b)));
    TrimKeepsBackslashes(PerfText(a));
    TrimKeepsBackslashes(PerfText(b));
    UnescapeEscape(LongText(a));
    UnescapeEscape(LongText(b));
  }

  /** Output that was escaped on its way is parsed to the same as the output itself if and only if it
      has no backslash-n of its own. */
  lemma EscapedOutputParsedAlike(s: string, escapeNewlines: bool)
    ensures OutputOf(Lines(Unescape(Escape(s)), true), escapeNewlines) == OutputOf(Lines(s, false), escapeNewlines)
      <==> !HasBackslashN(s, 0)
  {
    hide OutputOf, LinesFrom, BackslashesIn, Backslashes;
    EscapedOutputKeepsLines(s);
    UnescapeEscape(s);
    if OutputOf(Lines(Unescape(Escape(s)), true), escapeNewlines) == OutputOf(Lines(s, false), escapeNewlines) {
      OutputTellsBackslashes(Lines(s, true), Lines(s, false), escapeNewlines);
      LinesBackslashes(s, 0, true);
      LinesBackslashes(s, 0, false);
    }
  }
}
