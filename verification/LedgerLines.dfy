/** The lines a printed row ends up as, when a field holds a line terminator that the printer leaves in. */
module LedgerLines {
  import opened PromptTypes
  import opened PyText
  import opened LedgerRow
  import opened LedgerFormat
  import opened LedgerChain
  import opened LedgerAppend
  import opened LedgerPieces

  // ----- The shape of a printed row -----

  function Inner(cells: seq<string>): string { Join("|", Padded(cells)) }

  lemma RowShape(cells: seq<string>)
    requires cells != []
    ensures RowText(cells) == ['|'] + Inner(cells) + ['|']
    ensures "| " <= RowText(cells)
    ensures SplitRow(RowText(cells)) == StripAll(Split(Inner(cells))) && Split(Inner(cells)) == SplitAll(Padded(cells))
    ensures Bars(RowText(cells)) == |SplitRow(RowText(cells))| + 1
  {
    PadJoin(cells);
    SplitPrintedRow(cells);
    SplitJoin(Padded(cells));
    SplitCountsBars(Inner(cells));
    BarsConcat(['|'] + Inner(cells), ['|']);
    BarsConcat(['|'], Inner(cells));
    assert Bars(['|']) == 1;
  }

  /** A line that starts like a printed row is split without its first bar and perhaps without its end. */
  lemma LeadingBar(line: string) returns (z: string)
    requires "| " <= line
    ensures z <= line[1..] && SplitRow(line) == StripAll(Split(z)) && "|" <= Strip(line)
  {
    assert TrimLeft(line, IsSpace) == line;
    TrimRightFacts(line, IsSpace);
    TrimRightStopsAt(line, "|", IsSpace);
    var t := TrimRight(line, IsSpace);
    assert TrimLeft(t, IsBar) == t[1..];
    TrimRightFacts(t[1..], IsBar);
    z := TrimRight(t[1..], IsBar);
  }

  function RowCount(hash: string -> string, r: Record, prev: string): nat {
    |SplitRow(FormatRow(hash, r, prev))|
  }

  /** The last two pieces of a printed row are its two hashes. */
  lemma HashPieces(base: seq<string>, prev: string, h: string)
    requires HashCell(prev) && HashCell(h)
    ensures SplitAll(Padded(base + [prev, h])) == SplitAll(Padded(base)) + [" " + prev + " ", " " + h + " "]
    ensures OneLine(" " + prev + " ") && OneLine(" " + h + " ")
  {
    hide SplitAll;
    assert Padded(base + [prev, h]) == Padded(base) + [" " + prev + " ", " " + h + " "];
    SplitAllConcat(Padded(base), [" " + prev + " ", " " + h + " "]);
    SplitAllExact([" " + prev + " ", " " + h + " "]);
    assert NoBars([" " + prev + " ", " " + h + " "]);
  }

  // ----- The first line of a broken row -----

  /** The first line of a broken row: all its cells but the last are the row's, and at least two are missing. */
  lemma CutRow(base: seq<string>, prev: string, h: string)
    requires HashCell(prev) && HashCell(h) && !OneLine(RowText(base + [prev, h]))
    ensures var row := RowText(base + [prev, h]);
      var first := FirstLine(row);
      && FirstBreak(row) < |row| - 1
      && "| " <= first && "|" <= Strip(first)
      && |SplitRow(first)| + 2 <= |SplitRow(row)|
      && (forall k :: 0 <= k < |SplitRow(first)| - 1 ==> SplitRow(first)[k] == SplitRow(row)[k])
  {
    hide SplitRow, Split, SplitAll, RowText, Inner, Padded, Strip;
    var cells := base + [prev, h];
    var row, inner := RowText(cells), Inner(cells);
    RowShape(cells);
    var i := BreakInside(row);
    var first, q := row[..i], inner[..i - 1];
    assert first[1..] == q;
    assert row[i] == inner[i - 1];
    PieceAfter(q, inner);
    HashPieces(base, prev, h);
    BreakNotInHash(base, prev, h, row[i], |Split(q)| - 1);
    var z := LeadingBar(first);
    PrefixPieces(z, q);
    PrefixPieces(q, inner);
    forall k | 0 <= k < |SplitRow(first)| - 1 ensures SplitRow(first)[k] == SplitRow(row)[k] {
      assert Split(z)[k] == Split(q)[k] == Split(inner)[k];
    }
  }

  lemma BreakInside(row: string) returns (i: nat)
    requires !OneLine(row) && "| " <= row && row[|row| - 1] == '|'
    ensures i == FirstBreak(row) && 2 <= i < |row| - 1 && IsLineBreak(row[i])
    ensures FirstLine(row) == row[..i] && "| " <= row[..i]
  {
    i := FirstBreak(row);
    assert !IsLineBreak('|') && !IsLineBreak(' ');
    UnbrokenIsOneLine(row);
  }

  lemma UnbrokenIsOneLine(s: string)
    ensures FirstBreak(s) == |s| <==> OneLine(s)
  {
    if FirstBreak(s) < |s| {
      assert s[FirstBreak(s)] in s;
    }
  }

  lemma BreakNotInHash(base: seq<string>, prev: string, h: string, c: char, m: nat)
    requires HashCell(prev) && HashCell(h) && IsLineBreak(c)
    requires m < |SplitAll(Padded(base + [prev, h]))| && c in SplitAll(Padded(base + [prev, h]))[m]
    ensures m + 2 < |SplitAll(Padded(base + [prev, h]))|
  {
    hide SplitAll, Padded;
    HashPieces(base, prev, h);
  }

  // ----- Telling a row from the table's fixed lines -----

  lemma FourCells(a: string, b: string, c: string, d: string, z: string)
    requires NoBars([a, b, c, d]) && a + "|" + b + "|" + c + "|" + d + "|" <= z
    ensures |Split(z)| >= 5 && Split(z)[0] == a && Split(z)[1] == b && Split(z)[2] == c && Split(z)[3] == d
  {
    var p := a + "|" + b + "|" + c + "|" + d;
    assert a in [a, b, c, d] && b in [a, b, c, d] && c in [a, b, c, d] && d in [a, b, c, d];
    var rest := z[|p| + 1..];
    assert z == p + "|" + rest;
    SplitConcat(p, rest);
    PayloadPieces(a, b, c, d);
    assert p == Payload(a, b, c, d);
    assert Split(z) == [a, b, c, d] + Split(rest);
  }

  /** The first four columns of the header's text, and of the divider's. */
  const HEADER_START := " Prompt ID " + "|" + " Subsystem " + "|" + " Execution Timestamp " + "|" +
    " Execution Status " + "|"
  const DIVIDER_START := "---" + "|" + "---" + "|" + "---" + "|" + "---" + "|"

  lemma StartOfHeader()
    ensures "|" + HEADER_START + " " <= TABLE_HEADER
  {
    HeaderPieces();
    StartParts(" Prompt ID ", " Subsystem ", " Execution Timestamp ", " Execution Status ",
               "| Rework Attempt Number ", RESULT_COLUMNS + CHAIN_COLUMNS);
    assert HEADER_PREFIX + RUN_COLUMNS + (RESULT_COLUMNS + CHAIN_COLUMNS) == TABLE_HEADER;
  }

  lemma HeaderPieces()
    ensures HEADER_PREFIX == "|" + " Prompt ID " + "|"
    ensures RUN_COLUMNS ==
      " Subsystem " + ("|" + " Execution Timestamp ") + ("|" + " Execution Status ") + "| Rework Attempt Number "
    ensures "| " <= "| Rework Attempt Number "
  {
    assert "| Execution Timestamp " == "|" + " Execution Timestamp ";
    assert "| Execution Status " == "|" + " Execution Status ";
  }

  lemma StartParts(a: string, b: string, c: string, d: string, e: string, rest: string)
    requires "| " <= e
    ensures "|" + (a + "|" + b + "|" + c + "|" + d + "|") + " " <=
      ("|" + a + "|") + (b + ("|" + c) + ("|" + d) + e) + rest
  {
    var p := "|" + a + "|" + b + "|" + c + "|" + d;
    assert e == "| " + e[2..];
    assert ("|" + a + "|") + (b + ("|" + c) + ("|" + d) + e) + rest == p + e + rest;
    assert p + e + rest == p + "| " + (e[2..] + rest);
    assert "|" + (a + "|" + b + "|" + c + "|" + d + "|") + " " == p + "| ";
  }

  lemma StartOfDivider()
    ensures "|" + DIVIDER_START + "-" <= TABLE_DIVIDER
  {
  }

  /** What is left of a line that starts with p once the parser has taken its outer bars off. */
  lemma StartKept(line: string, p: string, c: char) returns (z: string)
    requires "|" + p + [c] <= Strip(line) && p != "" && !IsBar(p[0]) && !IsBar(c)
    ensures p <= z && SplitRow(line) == StripAll(Split(z))
    ensures forall x :: x in z ==> x in Strip(line)
  {
    var s := Strip(line);
    var q := p + [c];
    assert s[1..][..|q|] == q && s[1] == p[0];
    assert TrimLeft(s, IsBar) == s[1..];
    z := TrimRight(s[1..], IsBar);
    TrimRightStopsAt(s[1..], q, IsBar);
    TrimRightFacts(s[1..], IsBar);
    assert p == q[..|p|];
  }

  /** A cell that no printed row has in the given column when all cells before it are free of backslashes. */
  predicate TitleCell(k: nat, cell: string) {
    '\\' !in cell && (k == 3 ==> 'x' in cell || '-' in cell)
  }

  predicate StartsLikeTitle(line: string) {
    |SplitRow(line)| >= 5 && forall k :: 0 <= k < 4 ==> TitleCell(k, SplitRow(line)[k])
  }

  lemma TitleFromStart(line: string, a: string, b: string, c: string, d: string, e: char)
    requires NoBars([a, b, c, d]) && a != "" && !IsBar(a[0]) && !IsBar(e)
    requires "|" + (a + "|" + b + "|" + c + "|" + d + "|") + [e] <= Strip(line)
    requires '\\' !in a && '\\' !in b && '\\' !in c && '\\' !in d && ('x' in d || '-' in d)
    ensures StartsLikeTitle(line)
  {
    var p := a + "|" + b + "|" + c + "|" + d + "|";
    var z := StartKept(line, p, e);
    FourCells(a, b, c, d, z);
    StripFacts(a, IsSpace);
    StripFacts(b, IsSpace);
    StripFacts(c, IsSpace);
    StripFacts(d, IsSpace);
    forall k | 0 <= k < 4 ensures TitleCell(k, SplitRow(line)[k]) {
      assert SplitRow(line)[k] == Strip(Split(z)[k]);
    }
  }

  /** A line that starts with the whole table header or divider. */
  lemma TitleCells(line: string)
    requires TABLE_HEADER <= Strip(line) || TABLE_DIVIDER <= Strip(line)
    ensures StartsLikeTitle(line)
  {
    hide Strip, SplitRow, TABLE_HEADER, TABLE_DIVIDER, StartsLikeTitle;
    if TABLE_HEADER <= Strip(line) {
      StartOfHeader();
      HeaderTitles();
      TitleFromStart(line, " Prompt ID ", " Subsystem ", " Execution Timestamp ", " Execution Status ", ' ');
    } else {
      StartOfDivider();
      DividerTitles();
      TitleFromStart(line, "---", "---", "---", "---", '-');
    }
  }

  lemma HeaderTitles()
    ensures NoBars([" Prompt ID ", " Subsystem ", " Execution Timestamp ", " Execution Status "])
    ensures '\\' !in " Prompt ID " && '\\' !in " Subsystem " && '\\' !in " Execution Timestamp " &&
      '\\' !in " Execution Status "
    ensures 'x' in " Execution Status "
  {
    assert " Execution Status "[2] == 'x';
  }

  lemma DividerTitles()
    ensures NoBars(["---", "---", "---", "---"]) && '\\' !in "---" && '-' in "---"
  {
    assert "---"[0] == '-';
  }

  // ----- The mark of a printed row -----

  /** Every bar comes right after a backslash. */
  predicate Escaped(s: string) {
    forall k :: 0 <= k < |s| && s[k] == '|' ==> k > 0 && s[k - 1] == '\\'
  }

  lemma {:induction false} EscapeCharsEscapes(s: string)
    ensures Escaped(EscapeChars(s))
  {
    if s != "" {
      EscapeCharsEscapes(s[1..]);
    }
  }

  lemma {:induction false} TrimLeftEscaped(s: string)
    requires Escaped(s)
    ensures Escaped(TrimLeft(s, IsSpace))
  {
    if s != "" && IsSpace(s[0]) {
      EscapedRest(s);
      TrimLeftEscaped(s[1..]);
    }
  }

  lemma EscapedRest(s: string)
    requires Escaped(s) && s != "" && s[0] != '\\'
    ensures Escaped(s[1..])
  {
    forall k | 0 <= k < |s[1..]| && s[1..][k] == '|' ensures k > 0 && s[1..][k - 1] == '\\' {
      assert s[k + 1] == '|';
    }
  }

  lemma EscapeEscapes(s: string)
    ensures Escaped(" " + Escape(s) + " ")
  {
    EscapeCharsEscapes(s);
    TrimLeftEscaped(EscapeChars(s));
    TrimRightFacts(TrimLeft(EscapeChars(s), IsSpace), IsSpace);
    var e := Escape(s);
    forall k | 0 <= k < |" " + e + " "| && (" " + e + " ")[k] == '|' ensures k > 0 && (" " + e + " ")[k - 1] == '\\' {
      assert 0 < k <= |e| && e[k - 1] == '|';
    }
  }

  /** A field with a bar leaves a backslash at the end of its first piece. */
  lemma {:induction false} BackslashLeft(s: string)
    requires Escaped(s) && '|' in s
    ensures '\\' in Split(s)[0]
  {
    assert s[0] != '|';
    if s[0] != '\\' {
      EscapedRest(s);
      BackslashLeft(s[1..]);
    } else {
      assert s[0] in ([s[0]] + Split(s[1..])[0]);
    }
  }

  lemma {:induction false} SplitAllAt(parts: seq<string>, k: nat)
    requires k < |parts| && NoBars(parts[..k])
    ensures k < |SplitAll(parts)| && SplitAll(parts)[k] == Split(parts[k])[0]
  {
    if k > 0 {
      assert parts[0] in parts[..k];
      SplitNoBar(parts[0]);
      assert parts[1..][..k - 1] == parts[..k][1..];
      SplitAllAt(parts[1..], k - 1);
    }
  }

  /** The cells up to the first text with a bar come out of the split one by one. */
  lemma CellAt(hash: string -> string, r: Record, prev: string, k: nat)
    requires k < 4 && NoBars(Padded(BaseCells(r) + [prev, RecordHash(hash, r, prev)])[..k])
    ensures k < RowCount(hash, r, prev)
    ensures SplitRow(FormatRow(hash, r, prev))[k]
         == Strip(Split(Padded(BaseCells(r) + [prev, RecordHash(hash, r, prev)])[k])[0])
  {
    var cells := BaseCells(r) + [prev, RecordHash(hash, r, prev)];
    RowShape(cells);
    SplitAllAt(Padded(cells), k);
  }

  lemma StatusCell(status: Status)
    ensures Strip(Split([' '] + StatusText(status) + [' '])[0]) == StatusText(status)
  {
    var text := StatusText(status);
    StatusTextParses(status);
    SplitNoBar([' '] + text + [' ']);
    StripPadded(text, ' ', ' ', IsSpace);
    StripFacts(text, IsSpace);
  }

  /** One of a printed row's first four cells holds a backslash, or the fourth is the status. */
  lemma RowMark(hash: string -> string, r: Record, prev: string) returns (k: nat)
    ensures k < 4 && k < RowCount(hash, r, prev)
    ensures var c := SplitRow(FormatRow(hash, r, prev))[k];
      '\\' in c || (k == 3 && c == StatusText(r.status))
  {
    var cells := BaseCells(r) + [prev, RecordHash(hash, r, prev)];
    var parts := Padded(cells);
    hide SplitRow, FormatRow, Split, RecordHash, StatusText;
    k := 0;
    while k < 3 && '|' !in parts[k]
      invariant k <= 3 && NoBars(parts[..k])
    {
      assert parts[..k + 1] == parts[..k] + [parts[k]];
      k := k + 1;
    }
    CellAt(hash, r, prev, k);
    StripFacts(Split(parts[k])[0], IsSpace);
    if k < 3 {
      EscapeEscapes(TextFields(r)[k]);
      BackslashLeft(parts[k]);
    } else {
      StatusCell(r.status);
    }
  }

  lemma StatusIsNoTitle(s: Status)
    ensures 'x' !in StatusText(s) && '-' !in StatusText(s)
  {
  }

  /** A line whose first cells are those of a printed row is not one of the table's fixed lines. */
  lemma NoTitle(hash: string -> string, r: Record, prev: string, line: string)
    requires StartsLikeTitle(line)
    ensures !SameStart(SplitRow(line), SplitRow(FormatRow(hash, r, prev)))
  {
    hide SplitRow, FormatRow;
    var k := RowMark(hash, r, prev);
    StatusIsNoTitle(r.status);
  }

  predicate SameStart(a: seq<string>, b: seq<string>) {
    forall k :: 0 <= k < 4 && k < |a| && k < |b| ==> a[k] == b[k]
  }

  // ----- The lines of an appended row -----

  /** The first line of the appended text is a data row; a broken one is shorter than the row that was printed. */
  lemma FirstLineIsRow(hash: string -> string, r: Record, prev: string)
    requires Digests(hash) && HashCell(prev)
    ensures var row := FormatRow(hash, r, prev);
      var first := FirstLine(row + "\n");
      && "| " <= first && IsRow(first)
      && (OneLine(row) ==> first == row && LaterLines(row + "\n") == [])
      && (!OneLine(row) ==>
            && |SplitRow(first)| + 2 <= |SplitRow(row)|
            && forall k :: 0 <= k < |SplitRow(first)| - 1 ==> SplitRow(first)[k] == SplitRow(row)[k])
  {
    var row := FormatRow(hash, r, prev);
    RowShape(BaseCells(r) + [prev, RecordHash(hash, r, prev)]);
    DigestClean(RecordHash(hash, r, prev));
    UnbrokenIsOneLine(row);
    LedEnd(row);
    if OneLine(row) {
      PrintedRowIsRow(BaseCells(r) + [prev, RecordHash(hash, r, prev)]);
    } else {
      CutRow(BaseCells(r), prev, RecordHash(hash, r, prev));
      BrokenIsNoTitle(hash, r, prev);
    }
  }

  lemma LedEnd(row: string)
    requires row != ""
    ensures OneLine(row) ==> FirstLine(row + "\n") == row && LaterLines(row + "\n") == []
    ensures !OneLine(row) ==>
      FirstBreak(row + "\n") == FirstBreak(row) < |row| && FirstLine(row + "\n") == FirstLine(row)
  {
    UnbrokenIsOneLine(row);
    var s := row + "\n";
    FirstBreakIs(s, FirstBreak(row));
  }

  lemma BrokenIsNoTitle(hash: string -> string, r: Record, prev: string)
    requires Digests(hash) && HashCell(prev) && !OneLine(FormatRow(hash, r, prev))
    ensures var first := FirstLine(FormatRow(hash, r, prev));
      Strip(first) != TABLE_HEADER && Strip(first) != TABLE_DIVIDER
  {
    DigestClean(RecordHash(hash, r, prev));
    CutRow(BaseCells(r), prev, RecordHash(hash, r, prev));
    var first := FirstLine(FormatRow(hash, r, prev));
    if Strip(first) == TABLE_HEADER || Strip(first) == TABLE_DIVIDER {
      TitleCells(first);
      NoTitle(hash, r, prev, first);
    }
  }

  /** Every other line of the appended text has fewer cells than the row that was printed. */
  lemma LaterLinesShorter(hash: string -> string, r: Record, prev: string, x: string)
    requires Digests(hash) && HashCell(prev)
    requires x in LaterLines(FormatRow(hash, r, prev) + "\n") && IsRow(x)
    ensures |SplitRow(x)| < RowCount(hash, r, prev)
  {
    RowShape(BaseCells(r) + [prev, RecordHash(hash, r, prev)]);
    var row := FormatRow(hash, r, prev);
    DigestClean(RecordHash(hash, r, prev));
    UnbrokenIsOneLine(row);
    LedEnd(row);
    CutRow(BaseCells(r), prev, RecordHash(hash, r, prev));
    hide FormatRow, BaseCells, RecordHash, SplitRow, OneLine;
    RestBars(row, AfterBreak(row, FirstBreak(row)), x);
    FewerCells(x, Bars(row));
  }

  lemma FewerCells(x: string, bars: nat)
    requires IsRow(x) && Bars(x) < bars && bars >= 3
    requires Bars(x) + 1 < bars || (x != "" && x[|x| - 1] == '|')
    ensures |SplitRow(x)| + 1 < bars
  {
    CellsOfBars(x);
  }

  /** A row among the lines after the break has fewer bars than the whole. */
  lemma RestBars(row: string, j: nat, x: string)
    requires "|" <= row && row[|row| - 1] == '|' && FirstBreak(row) < |row| - 1 && j == AfterBreak(row, FirstBreak(row))
    requires x in SplitLines((row + "\n")[AfterBreak(row + "\n", FirstBreak(row))..])
    ensures Bars(x) < Bars(row)
    ensures Bars(x) + 1 < Bars(row) || (x != "" && x[|x| - 1] == '|')
  {
    hide SplitLines;
    RestAfter(row, FirstBreak(row), j);
    var rest := row[j..] + "\n";
    LineBars(rest, x);
    BarsConcat(row[j..], "\n");
    assert row == row[..j] + row[j..];
    BarsConcat(row[..j], row[j..]);
    BarsOfPrefix("|", row[..j]);
    assert Bars("|") == 1;
  }

  lemma RestAfter(row: string, i: nat, j: nat)
    requires i < |row| - 1 && IsLineBreak(row[i]) && j == AfterBreak(row, i) && row[|row| - 1] == '|'
    ensures j < |row| && AfterBreak(row + "\n", i) == j && (row + "\n")[j..] == row[j..] + "\n"
    ensures |row[j..] + "\n"| >= 2 && (row[j..] + "\n")[|row[j..] + "\n"| - 2] == '|'
  {
    BreakBefore(row, i);
  }
}
