/** The Python string operations the prompt ledger relies on. */
module PyText {

  // ----- Character classes -----

  /** str.isspace: the characters str.strip() removes. */
  predicate IsSpace(c: char) {
    var u := c as int;
    || 0x09 <= u <= 0x0D || 0x1C <= u <= 0x20 || u == 0x85 || u == 0xA0 || u == 0x1680
    || 0x2000 <= u <= 0x200A || u == 0x2028 || u == 0x2029 || u == 0x202F || u == 0x205F || u == 0x3000
  }

  /** The line boundaries of str.splitlines(). */
  predicate IsLineBreak(c: char) {
    var u := c as int;
    0x0A <= u <= 0x0D || 0x1C <= u <= 0x1E || u == 0x85 || u == 0x2028 || u == 0x2029
  }

  predicate IsBar(c: char) { c == '|' }

  predicate OneLine(s: string) {
    forall c :: c in s ==> !IsLineBreak(c)
  }

  // ----- strip -----

  function TrimLeft(s: string, drop: char -> bool): string {
    if s != "" && drop(s[0]) then TrimLeft(s[1..], drop) else s
  }

  function TrimRight(s: string, drop: char -> bool): string {
    if s != "" && drop(s[|s| - 1]) then TrimRight(s[..|s| - 1], drop) else s
  }

  function StripChars(s: string, drop: char -> bool): string {
    TrimRight(TrimLeft(s, drop), drop)
  }

  function Strip(s: string): string { StripChars(s, IsSpace) }

  /** Neither end is a droppable character, so stripping changes nothing. */
  predicate Trimmed(s: string, drop: char -> bool) {
    s == "" || (!drop(s[0]) && !drop(s[|s| - 1]))
  }

  lemma {:induction false} TrimRightFacts(s: string, drop: char -> bool)
    ensures TrimRight(s, drop) <= s
    ensures TrimRight(s, drop) == "" || !drop(TrimRight(s, drop)[|TrimRight(s, drop)| - 1])
  {
    if s != "" && drop(s[|s| - 1]) {
      TrimRightFacts(s[..|s| - 1], drop);
    }
  }

  lemma {:induction false} TrimLeftFacts(s: string, drop: char -> bool)
    ensures TrimLeft(s, drop) == "" || !drop(TrimLeft(s, drop)[0])
    ensures forall c :: c in TrimLeft(s, drop) ==> c in s
    ensures forall c :: c in s && !drop(c) ==> c in TrimLeft(s, drop)
  {
    if s != "" && drop(s[0]) {
      TrimLeftFacts(s[1..], drop);
    }
  }

  lemma {:induction false} TrimRightKeeps(s: string, drop: char -> bool)
    ensures forall c :: c in s && !drop(c) ==> c in TrimRight(s, drop)
  {
    if s != "" && drop(s[|s| - 1]) {
      TrimRightKeeps(s[..|s| - 1], drop);
    }
  }

  /** Stripping yields a trimmed string, keeps every other character and adds none. */
  lemma StripFacts(s: string, drop: char -> bool)
    ensures Trimmed(StripChars(s, drop), drop)
    ensures forall c :: c in StripChars(s, drop) ==> c in s
    ensures forall c :: c in s && !drop(c) ==> c in StripChars(s, drop)
    ensures Trimmed(s, drop) ==> StripChars(s, drop) == s
  {
    TrimLeftFacts(s, drop);
    TrimRightFacts(TrimLeft(s, drop), drop);
    TrimRightKeeps(TrimLeft(s, drop), drop);
  }

  lemma {:induction false} TrimLeftPadded(s: string, c: char, drop: char -> bool)
    requires drop(c)
    ensures TrimLeft(s + [c], drop) == if TrimLeft(s, drop) == "" then "" else TrimLeft(s, drop) + [c]
  {
    if s == "" {
      assert s + [c] == [c];
    } else if drop(s[0]) {
      assert (s + [c])[1..] == s[1..] + [c];
      TrimLeftPadded(s[1..], c, drop);
    }
  }

  /** Padding with droppable characters does not change what strip returns. */
  lemma StripPadded(s: string, a: char, b: char, drop: char -> bool)
    requires drop(a) && drop(b)
    ensures StripChars([a] + s + [b], drop) == StripChars(s, drop)
  {
    assert ([a] + s + [b])[1..] == s + [b];
    TrimLeftPadded(s, b, drop);
    var t := TrimLeft(s, drop);
    assert (t + [b])[..|t|] == t;
  }

  // ----- split("|") and join -----

  function Split(s: string): (parts: seq<string>)
    ensures |parts| >= 1
  {
    if s == "" then [""]
    else
      var rest := Split(s[1..]);
      if s[0] == '|' then [""] + rest else [[s[0]] + rest[0]] + rest[1..]
  }

  function Join(sep: string, parts: seq<string>): string {
    if parts == [] then ""
    else if |parts| == 1 then parts[0]
    else parts[0] + sep + Join(sep, parts[1..])
  }

  lemma {:induction false} SplitNoBar(s: string)
    requires '|' !in s
    ensures Split(s) == [s]
  {
    if s != "" {
      SplitNoBar(s[1..]);
      assert s == [s[0]] + s[1..];
    }
  }

  /** Pieces hold no bar and only characters of the text; a bar makes a second piece. */
  lemma {:induction false} SplitPieces(s: string)
    ensures forall p :: p in Split(s) ==> '|' !in p
    ensures forall p, c :: p in Split(s) && c in p ==> c in s
    ensures '|' in s ==> |Split(s)| >= 2
  {
    if s != "" {
      SplitPieces(s[1..]);
    }
  }

  lemma {:induction false} SplitConcat(a: string, b: string)
    ensures Split(a + "|" + b) == Split(a) + Split(b)
  {
    var s := a + "|" + b;
    if a == "" {
      assert s[1..] == b;
    } else {
      assert s[1..] == a[1..] + "|" + b;
      SplitConcat(a[1..], b);
    }
  }

  /** The pieces of several fields laid end to end. */
  function SplitAll(parts: seq<string>): seq<string> {
    if parts == [] then [] else Split(parts[0]) + SplitAll(parts[1..])
  }

  lemma {:induction false} SplitJoin(parts: seq<string>)
    requires parts != []
    ensures Split(Join("|", parts)) == SplitAll(parts)
  {
    if |parts| == 1 {
      assert SplitAll(parts[1..]) == [];
    } else {
      SplitJoin(parts[1..]);
      SplitConcat(parts[0], Join("|", parts[1..]));
    }
  }

  predicate NoBars(parts: seq<string>) {
    forall p :: p in parts ==> '|' !in p
  }

  /** Splitting recovers the fields exactly when none holds a bar; otherwise there are more pieces. */
  lemma {:induction false} SplitAllExact(parts: seq<string>)
    ensures |SplitAll(parts)| >= |parts|
    ensures NoBars(parts) ==> SplitAll(parts) == parts
    ensures !NoBars(parts) ==> |SplitAll(parts)| > |parts|
  {
    if parts != [] {
      SplitAllExact(parts[1..]);
      assert parts == [parts[0]] + parts[1..];
      SplitPieces(parts[0]);
      if '|' !in parts[0] {
        SplitNoBar(parts[0]);
        assert NoBars(parts) <==> NoBars(parts[1..]);
      }
    }
  }

  // ----- splitlines -----

  function FirstBreak(s: string): (i: nat)
    ensures i <= |s|
    ensures forall k :: 0 <= k < i ==> !IsLineBreak(s[k])
    ensures i < |s| ==> IsLineBreak(s[i])
  {
    if s == "" || IsLineBreak(s[0]) then 0 else 1 + FirstBreak(s[1..])
  }

  /** Where the line after the break at i starts: "\r\n" is one boundary. */
  function AfterBreak(s: string, i: nat): (j: nat)
    requires i < |s|
    ensures i < j <= |s|
  {
    if s[i] == '\r' && i + 1 < |s| && s[i + 1] == '\n' then i + 2 else i + 1
  }

  function SplitLines(s: string): seq<string>
    decreases |s|
  {
    if s == "" then []
    else
      var i := FirstBreak(s);
      if i == |s| then [s] else [s[..i]] + SplitLines(s[AfterBreak(s, i)..])
  }

  predicate EndsWithNewline(s: string) {
    s != "" && s[|s| - 1] == '\n'
  }

  lemma FirstBreakIs(s: string, i: nat)
    requires i <= |s| && (i < |s| ==> IsLineBreak(s[i]))
    requires forall k :: 0 <= k < i ==> !IsLineBreak(s[k])
    ensures FirstBreak(s) == i
  {
  }

  lemma {:induction false} LinesAreOneLine(s: string)
    ensures forall l :: l in SplitLines(s) ==> OneLine(l)
    decreases |s|
  {
    if s != "" {
      var i := FirstBreak(s);
      if i == |s| {
        assert s[..i] == s;
      } else {
        LinesAreOneLine(s[AfterBreak(s, i)..]);
      }
    }
  }

  /** Text after a newline starts a new line. */
  lemma LinesAt(s: string, i: nat)
    requires i < |s| && IsLineBreak(s[i]) && forall k :: 0 <= k < i ==> !IsLineBreak(s[k])
    ensures SplitLines(s) == [s[..i]] + SplitLines(s[AfterBreak(s, i)..])
  {
    FirstBreakIs(s, i);
  }

  lemma NewlineIsBreak(a: string)
    requires EndsWithNewline(a)
    ensures FirstBreak(a) < |a|
  {
    assert IsLineBreak(a[|a| - 1]);
  }

  /**
    Text that ends in a newline has a first break, and where the line after it starts does not depend on what comes
    later.
  */
  lemma BreakWithin(a: string, b: string, i: nat)
    requires i < |a| && EndsWithNewline(a)
    ensures AfterBreak(a + b, i) == AfterBreak(a, i)
  {
    assert (a + b)[i] == a[i];
    if i + 1 < |a| {
      assert (a + b)[i + 1] == a[i + 1];
    } else {
      assert a[i] == '\n';
    }
  }

  lemma CutBefore(a: string, b: string, i: nat, j: nat)
    requires i < j <= |a|
    ensures (a + b)[..i] == a[..i] && (a + b)[j..] == a[j..] + b
  {
  }

  lemma RestEnds(a: string, j: nat)
    requires EndsWithNewline(a) && j < |a|
    ensures EndsWithNewline(a[j..])
  {
  }

  lemma {:induction false} SplitLinesConcat(a: string, b: string)
    requires EndsWithNewline(a)
    ensures SplitLines(a + b) == SplitLines(a) + SplitLines(b)
    decreases |a|
  {
    hide SplitLines, AfterBreak, EndsWithNewline, IsLineBreak;
    NewlineIsBreak(a);
    var i := FirstBreak(a);
    var j := AfterBreak(a, i);
    BreakWithin(a, b, i);
    CutBefore(a, b, i, j);
    LinesAt(a, i);
    LinesAt(a + b, i);
    if j == |a| {
      NoLines();
      assert a[j..] == "" && "" + b == b;
    } else {
      RestEnds(a, j);
      SplitLinesConcat(a[j..], b);
    }
  }

  lemma NoLines()
    ensures SplitLines("") == []
  {
  }

  lemma SplitLinesOne(line: string)
    requires OneLine(line)
    ensures SplitLines(line + "\n") == [line]
  {
    hide SplitLines;
    var s := line + "\n";
    assert s[..|line|] == line;
    LinesAt(s, |line|);
    assert s[AfterBreak(s, |line|)..] == "";
    NoLines();
  }

  /** Appending one line to newline-terminated text appends exactly that line. */
  lemma AppendLine(text: string, line: string)
    requires EndsWithNewline(text) && OneLine(line)
    ensures SplitLines(text + (line + "\n")) == SplitLines(text) + [line]
  {
    SplitLinesConcat(text, line + "\n");
    SplitLinesOne(line);
  }

  /** "\n".join(lines) + "\n" */
  function Unlines(lines: seq<string>): string {
    Join("\n", lines) + "\n"
  }

  lemma UnlinesHead(lines: seq<string>)
    requires |lines| > 1
    ensures Unlines(lines) == (lines[0] + "\n") + Unlines(lines[1..])
  {
  }

  lemma UnlinesOne(line: string)
    ensures Unlines([line]) == line + "\n"
  {
  }

  lemma {:induction false} SplitUnlines(lines: seq<string>)
    requires lines != [] && forall l :: l in lines ==> OneLine(l)
    ensures SplitLines(Unlines(lines)) == lines
  {
    hide SplitLines, Unlines, OneLine;
    var first, rest := lines[0], lines[1..];
    assert lines == [first] + rest && first in lines;
    SplitLinesOne(first);
    if rest == [] {
      assert lines == [first];
      UnlinesOne(first);
    } else {
      SplitUnlines(rest);
      UnlinesHead(lines);
      SplitLinesConcat(first + "\n", Unlines(rest));
    }
  }
}
