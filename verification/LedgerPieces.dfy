/** What the row parser makes of parts of a line: pieces of prefixes, bar counts, and the lines of a broken text. */
module LedgerPieces {
  import opened PyText
  import opened LedgerRow

  // ----- Pieces of a prefix -----

  /** All pieces of a prefix but its last are pieces of the whole. */
  lemma {:induction false} PrefixPieces(q: string, t: string)
    requires q <= t
    ensures |Split(q)| <= |Split(t)|
    ensures forall k :: 0 <= k < |Split(q)| - 1 ==> Split(q)[k] == Split(t)[k]
  {
    if q != "" {
      PrefixPieces(q[1..], t[1..]);
    }
  }

  /** The character after a prefix lies in the piece the prefix ends in. */
  lemma {:induction false} PieceAfter(q: string, t: string)
    requires q < t && t[|q|] != '|'
    ensures |Split(q)| <= |Split(t)| && t[|q|] in Split(t)[|Split(q)| - 1]
  {
    if q == "" {
      assert t[0] in ([t[0]] + Split(t[1..])[0]);
    } else {
      PieceAfter(q[1..], t[1..]);
      assert t[1..][|q[1..]|] == t[|q|];
      PieceShift(q, t, t[|q|]);
    }
  }

  lemma PieceShift(q: string, t: string, c: char)
    requires q != "" && q <= t
    requires |Split(q[1..])| <= |Split(t[1..])| && c in Split(t[1..])[|Split(q[1..])| - 1]
    ensures |Split(q)| <= |Split(t)| && c in Split(t)[|Split(q)| - 1]
  {
    var a, b := Split(q[1..]), Split(t[1..]);
    SplitHead(q);
    SplitHead(t);
    hide Split;
    if q[0] == '|' {
      assert ([""] + b)[|a|] == b[|a| - 1];
    } else {
      HeadGrows(b, |a| - 1, t[0], c);
    }
  }

  lemma HeadGrows(pieces: seq<string>, k: nat, x: char, c: char)
    requires k < |pieces| && c in pieces[k]
    ensures c in ([[x] + pieces[0]] + pieces[1..])[k]
  {
    if k > 0 {
      assert ([[x] + pieces[0]] + pieces[1..])[k] == pieces[k];
    }
  }

  lemma SplitHead(s: string)
    requires s != ""
    ensures var rest := Split(s[1..]);
      Split(s) == if s[0] == '|' then [""] + rest else [[s[0]] + rest[0]] + rest[1..]
  {
    hide Bars, SplitLines;
  }

  lemma {:induction false} TrimRightStopsAt(s: string, p: string, drop: char -> bool)
    requires p <= s && p != "" && !drop(p[|p| - 1])
    ensures p <= TrimRight(s, drop)
  {
    if drop(s[|s| - 1]) {
      TrimRightStopsAt(s[..|s| - 1], p, drop);
    }
  }

  // ----- Bars -----

  function Bars(s: string): nat {
    if s == "" then 0 else (if s[0] == '|' then 1 else 0) + Bars(s[1..])
  }

  lemma {:induction false} BarsConcat(a: string, b: string)
    ensures Bars(a + b) == Bars(a) + Bars(b)
  {
    if a == "" {
      assert a + b == b;
    } else {
      BarsConcat(a[1..], b);
      assert (a + b)[1..] == a[1..] + b;
    }
  }

  lemma {:induction false} SplitCountsBars(s: string)
    ensures |Split(s)| == Bars(s) + 1
  {
    if s != "" {
      SplitCountsBars(s[1..]);
    }
  }

  lemma BarsOfPrefix(q: string, t: string)
    requires q <= t
    ensures Bars(q) <= Bars(t)
  {
    assert t == q + t[|q|..];
    BarsConcat(q, t[|q|..]);
  }

  lemma {:induction false} TrimLeftBars(s: string, drop: char -> bool)
    ensures Bars(TrimLeft(s, drop)) <= Bars(s)
    ensures s != "" && s[0] == '|' && drop('|') ==> Bars(TrimLeft(s, drop)) < Bars(s)
  {
    if s != "" && drop(s[0]) {
      TrimLeftBars(s[1..], drop);
    }
  }

  lemma {:induction false} TrimRightBars(s: string, drop: char -> bool)
    ensures Bars(TrimRight(s, drop)) <= Bars(s)
    ensures s != "" && s[|s| - 1] == '|' && drop('|') ==> Bars(TrimRight(s, drop)) < Bars(s)
  {
    TrimRightFacts(s, drop);
    BarsOfPrefix(TrimRight(s, drop), s);
    if s != "" && s[|s| - 1] == '|' && drop('|') {
      var front := s[..|s| - 1];
      assert s == front + ['|'];
      BarsConcat(front, ['|']);
      assert Bars(['|']) == 1;
      TrimRightFacts(front, drop);
      BarsOfPrefix(TrimRight(front, drop), front);
    }
  }

  /** The parser sees at most as many cells as the line has bars, and one fewer if a second bar ends it. */
  lemma CellsOfBars(line: string)
    requires "|" <= Strip(line)
    ensures |SplitRow(line)| <= Bars(line)
    ensures line[|line| - 1] == '|' && Bars(line) >= 2 ==> |SplitRow(line)| < Bars(line)
  {
    var s := Strip(line);
    TrimLeftBars(line, IsSpace);
    TrimRightBars(TrimLeft(line, IsSpace), IsSpace);
    var t := TrimLeft(s, IsBar);
    TrimLeftBars(s, IsBar);
    TrimRightBars(t, IsBar);
    SplitCountsBars(TrimRight(t, IsBar));
    if line[|line| - 1] == '|' && Bars(line) >= 2 {
      TrimLeftEnd(line, IsSpace);
      if t == "" {
        assert Bars(t) == 0;
      } else {
        TrimLeftEnd(s, IsBar);
      }
    }
  }

  lemma {:induction false} TrimLeftEnd(s: string, drop: char -> bool)
    ensures TrimLeft(s, drop) != "" ==> TrimLeft(s, drop)[|TrimLeft(s, drop)| - 1] == s[|s| - 1]
  {
    if s != "" && drop(s[0]) {
      TrimLeftEnd(s[1..], drop);
    }
  }

  // ----- The lines of a text -----

  /** Each line has at most the text's bars, and fewer unless it is the end of a text that ends in a bar. */
  lemma {:induction false} LineBars(s: string, x: string)
    requires x in SplitLines(s) && |s| >= 2 && s[|s| - 2] == '|' && s[|s| - 1] == '\n'
    ensures Bars(x) <= Bars(s)
    ensures Bars(x) < Bars(s) || (x != "" && x[|x| - 1] == '|')
    decreases |s|
  {
    var i := FirstBreak(s);
    assert i < |s|;
    var j := AfterBreak(s, i);
    var line, rest := s[..i], s[j..];
    assert s == line + s[i..j] + rest;
    BarsConcat(line + s[i..j], rest);
    BarsConcat(line, s[i..j]);
    if rest == "" {
      assert i == |s| - 1;
      assert SplitLines(rest) == [];
    } else {
      BreakBefore(s, i);
      assert rest[|rest| - 1] == '\n';
      assert |rest| != 1;
      EndingBar(rest);
      if x in SplitLines(rest) {
        LineBars(rest, x);
      }
    }
  }

  lemma BreakBefore(s: string, i: nat)
    requires i < |s| && IsLineBreak(s[i])
    ensures IsLineBreak(s[AfterBreak(s, i) - 1])
  {
  }

  lemma EndingBar(s: string)
    requires |s| >= 2 && s[|s| - 2] == '|'
    ensures Bars(s) >= 1
  {
    assert s == s[..|s| - 2] + ['|'] + s[|s| - 1..];
    BarsConcat(s[..|s| - 2] + ['|'], s[|s| - 1..]);
    BarsConcat(s[..|s| - 2], ['|']);
    assert Bars(['|']) == 1;
  }

  predicate EndsLine(text: string) {
    text == "" || IsLineBreak(text[|text| - 1])
  }

  /** The unterminated last line, if any. */
  function Lead(text: string): string {
    if EndsLine(text) then "" else SplitLines(text)[|SplitLines(text)| - 1]
  }

  function Terminated(text: string): seq<string> {
    if EndsLine(text) then SplitLines(text) else SplitLines(text)[..|SplitLines(text)| - 1]
  }

  lemma {:induction false} SplitLinesNonempty(text: string)
    ensures text != "" ==> SplitLines(text) != []
    ensures !EndsLine(text) ==> SplitLines(text) != [] && SplitLines(text)[|SplitLines(text)| - 1] != ""
    decreases |text|
  {
    if text != "" {
      var i := FirstBreak(text);
      if i < |text| {
        LinesAt(text, i);
        var rest := text[AfterBreak(text, i)..];
        SplitLinesNonempty(rest);
        if !EndsLine(text) {
          RestEndsLine(text, i);
        }
      }
    }
  }

  lemma RestEndsLine(text: string, i: nat)
    requires i < |text| && IsLineBreak(text[i]) && !EndsLine(text)
    ensures !EndsLine(text[AfterBreak(text, i)..])
  {
    hide SplitLines;
    assert IsLineBreak('\n');
    var j := AfterBreak(text, i);
    assert j < |text|;
    assert text[j..][|text[j..]| - 1] == text[|text| - 1];
  }

  /** Appended text continues the unterminated line and then makes lines of its own. */
  lemma {:induction false} AppendedLines(text: string, more: string)
    requires more != "" && more[0] != '\n'
    ensures SplitLines(text + more) == Terminated(text) + SplitLines(Lead(text) + more)
    decreases |text|
  {
    hide SplitLines, EndsLine, Lead, Terminated, FirstBreak;
    if text == "" {
      NoText();
      assert text + more == more && "" + more == more;
    } else {
      var i := FirstBreak(text);
      if i == |text| {
        OnlyLine(text);
      } else {
        var j := AfterBreak(text, i);
        AppendedLines(text[j..], more);
        RestOfLines(text, i, j);
        FirstLineStays(text, more, i, j);
        Regroup([text[..i]], Terminated(text[j..]), SplitLines(Lead(text[j..]) + more));
      }
    }
  }

  lemma Regroup<T>(a: seq<T>, b: seq<T>, c: seq<T>)
    ensures a + (b + c) == a + b + c
  {
  }

  lemma NoText()
    ensures Lead("") == "" && Terminated("") == []
  {
  }

  lemma OnlyLine(text: string)
    requires text != "" && FirstBreak(text) == |text|
    ensures !EndsLine(text) && SplitLines(text) == [text]
    ensures Lead(text) == text && Terminated(text) == []
  {
    assert !IsLineBreak(text[|text| - 1]);
    assert text[..|text|] == text;
  }

  lemma FirstLineStays(text: string, more: string, i: nat, j: nat)
    requires more != "" && more[0] != '\n'
    requires text != "" && i == FirstBreak(text) && i < |text| && j == AfterBreak(text, i)
    ensures SplitLines(text + more) == [text[..i]] + SplitLines(text[j..] + more)
  {
    hide FirstBreak;
    FirstBreakIs(text + more, i);
    assert AfterBreak(text + more, i) == j;
    assert (text + more)[..i] == text[..i] && (text + more)[j..] == text[j..] + more;
  }

  lemma EndsLineOfRest(text: string, i: nat)
    requires i < |text| && IsLineBreak(text[i])
    ensures EndsLine(text) <==> EndsLine(text[AfterBreak(text, i)..])
  {
    var j := AfterBreak(text, i);
    BreakBefore(text, i);
    if j < |text| {
      assert text[j..][|text[j..]| - 1] == text[|text| - 1];
    }
  }

  lemma RestOfLines(text: string, i: nat, j: nat)
    requires text != "" && i == FirstBreak(text) && i < |text| && j == AfterBreak(text, i)
    ensures Lead(text) == Lead(text[j..])
    ensures Terminated(text) == [text[..i]] + Terminated(text[j..])
  {
    hide FirstBreak, EndsLine;
    var rest := text[j..];
    SplitLinesNonempty(rest);
    EndsLineOfRest(text, i);
    EmptyEnds();
    assert SplitLines(text) == [text[..i]] + SplitLines(rest);
  }

  lemma EmptyEnds()
    ensures EndsLine("")
  {
  }

  /** The first line of a text and the lines after it. */
  function FirstLine(s: string): string { s[..FirstBreak(s)] }

  function LaterLines(s: string): seq<string> {
    var i := FirstBreak(s);
    if i == |s| then [] else SplitLines(s[AfterBreak(s, i)..])
  }

  lemma CutAt(t: string, i: nat)
    requires i < |t| && FirstBreak(t) == i
    ensures SplitLines(t) == [t[..i]] + SplitLines(t[AfterBreak(t, i)..])
  {
  }

  lemma LedBreak(lead: string, s: string)
    requires OneLine(lead)
    ensures FirstBreak(lead + s) == |lead| + FirstBreak(s)
  {
    var t, i := lead + s, FirstBreak(s);
    forall k | 0 <= k < |lead| + i ensures !IsLineBreak(t[k]) {
      if k < |lead| {
        assert t[k] in lead;
      } else {
        assert t[k] == s[k - |lead|];
      }
    }
    FirstBreakIs(t, |lead| + i);
  }

  lemma LinesOfLed(lead: string, s: string)
    requires OneLine(lead) && s != ""
    ensures SplitLines(lead + s) == [lead + FirstLine(s)] + LaterLines(s)
  {
    hide SplitLines, FirstBreak, OneLine;
    var t, i := lead + s, FirstBreak(s);
    LedBreak(lead, s);
    assert t[..|lead| + i] == lead + s[..i];
    if i < |s| {
      CutAt(t, |lead| + i);
      assert AfterBreak(t, |lead| + i) == |lead| + AfterBreak(s, i);
      assert t[|lead| + AfterBreak(s, i)..] == s[AfterBreak(s, i)..];
    } else {
      OnlyLine(t);
      assert lead + s[..i] == t;
    }
  }

  /** Blanks in front of a line change nothing the readers see. */
  lemma {:induction false} BlankLead(lead: string, s: string)
    requires Strip(lead) == ""
    ensures Strip(lead + s) == Strip(s)
  {
    AllDropped(lead, IsSpace);
    TrimLeftOver(lead, s, IsSpace);
  }

  lemma AllDropped(s: string, drop: char -> bool)
    requires StripChars(s, drop) == ""
    ensures forall c :: c in s ==> drop(c)
  {
    StripFacts(s, drop);
  }

  lemma {:induction false} TrimLeftOver(a: string, s: string, drop: char -> bool)
    ensures (forall c :: c in a ==> drop(c)) ==> TrimLeft(a + s, drop) == TrimLeft(s, drop)
    ensures TrimLeft(a, drop) != "" ==> TrimLeft(a + s, drop) == TrimLeft(a, drop) + s
  {
    if a == "" {
      assert a + s == s;
    } else if drop(a[0]) {
      TrimLeftOver(a[1..], s, drop);
      assert (a + s)[1..] == a[1..] + s;
    } else {
      assert a[0] in a;
    }
  }
}
