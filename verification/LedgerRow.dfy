/**
  One row of the prompt ledger's Markdown table: the printer and the parser
  (prompt_engine/ledger_updater.py).
*/
module LedgerRow {
  import opened PyText

  // ----- _escape -----

  function EscapeChars(s: string): string {
    if s == "" then ""
    else (if s[0] == '|' then "\\|" else if s[0] == '\n' then " " else [s[0]]) + EscapeChars(s[1..])
  }

  /** value.replace("|", "\\|").replace("\n", " ").strip() */
  function Escape(s: string): string { Strip(EscapeChars(s)) }

  /** A cell the printer leaves as it is. */
  predicate CleanCell(s: string) {
    '|' !in s && '\n' !in s && Trimmed(s, IsSpace)
  }

  lemma {:induction false} EscapeCharsFacts(s: string)
    ensures '|' in EscapeChars(s) <==> '|' in s
    ensures '\n' !in EscapeChars(s)
    ensures '|' !in s && '\n' !in s ==> EscapeChars(s) == s
    ensures OneLineButNewline(s) ==> OneLine(EscapeChars(s))
  {
    if s != "" {
      EscapeCharsFacts(s[1..]);
      assert s == [s[0]] + s[1..];
    }
  }

  /** No line terminator other than the newline the printer replaces. */
  predicate OneLineButNewline(s: string) {
    forall c :: c in s ==> c == '\n' || !IsLineBreak(c)
  }

  /** The printer keeps bars (behind a backslash), removes newlines and trims. */
  lemma EscapeFacts(s: string)
    ensures '|' in Escape(s) <==> '|' in s
    ensures Trimmed(Escape(s), IsSpace)
    ensures CleanCell(s) ==> Escape(s) == s
    ensures OneLineButNewline(s) ==> OneLine(Escape(s))
  {
    EscapeCharsFacts(s);
    StripFacts(EscapeChars(s), IsSpace);
  }

  // ----- The row text -----

  /** "| " + " | ".join(cells) + " |" */
  function RowText(cells: seq<string>): string {
    "| " + Join(" | ", cells) + " |"
  }

  function EscapeAll(cells: seq<string>): seq<string> {
    seq(|cells|, i requires 0 <= i < |cells| => Escape(cells[i]))
  }

  /** _join_cells */
  function JoinCells(cells: seq<string>): string {
    RowText(EscapeAll(cells))
  }

  function StripAll(parts: seq<string>): seq<string> {
    seq(|parts|, i requires 0 <= i < |parts| => Strip(parts[i]))
  }

  /** _split_row */
  function SplitRow(line: string): (cells: seq<string>)
    ensures |cells| >= 1
  {
    StripAll(Split(StripChars(Strip(line), IsBar)))
  }

  function Padded(cells: seq<string>): seq<string> {
    seq(|cells|, i requires 0 <= i < |cells| => " " + cells[i] + " ")
  }

  lemma {:induction false} PadJoin(cells: seq<string>)
    requires cells != []
    ensures " " + Join(" | ", cells) + " " == Join("|", Padded(cells))
  {
    if |cells| > 1 {
      PadJoin(cells[1..]);
      assert Padded(cells)[1..] == Padded(cells[1..]);
      assert Join(" | ", cells) == cells[0] + " | " + Join(" | ", cells[1..]);
      assert Join("|", Padded(cells)) == (" " + cells[0] + " ") + "|" + Join("|", Padded(cells[1..]));
    }
  }

  /** Stripping a printed row of its outer bars leaves the padded cells between bars. */
  lemma RowInterior(cells: seq<string>)
    requires cells != []
    ensures Strip(RowText(cells)) == RowText(cells)
    ensures StripChars(RowText(cells), IsBar) == Join("|", Padded(cells))
  {
    var row, inner := RowText(cells), " " + Join(" | ", cells) + " ";
    PadJoin(cells);
    StripFacts(row, IsSpace);
    assert row == ['|'] + inner + ['|'];
    StripPadded(inner, '|', '|', IsBar);
    StripFacts(inner, IsBar);
  }

  /** The parser sees every piece between bars, trimmed. */
  lemma SplitPrintedRow(cells: seq<string>)
    requires cells != []
    ensures SplitRow(RowText(cells)) == StripAll(SplitAll(Padded(cells)))
  {
    RowInterior(cells);
    SplitJoin(Padded(cells));
  }

  lemma PaddedFacts(cells: seq<string>)
    ensures NoBars(Padded(cells)) <==> NoBars(cells)
    ensures (forall c :: c in cells ==> Trimmed(c, IsSpace)) ==> StripAll(Padded(cells)) == cells
  {
    if NoBars(Padded(cells)) {
      forall c | c in cells ensures '|' !in c {
        var i :| 0 <= i < |cells| && cells[i] == c;
        assert Padded(cells)[i] in Padded(cells);
      }
    }
    if forall c :: c in cells ==> Trimmed(c, IsSpace) {
      forall i | 0 <= i < |cells| ensures StripAll(Padded(cells))[i] == cells[i] {
        assert " " + cells[i] + " " == [' '] + cells[i] + [' '];
        StripPadded(cells[i], ' ', ' ', IsSpace);
        StripFacts(cells[i], IsSpace);
      }
    }
  }

  /**
    Printing and parsing trimmed cells is the identity exactly when no cell holds a bar;
    a bar makes the parser see more columns than were printed.
  */
  lemma RowRoundTrip(cells: seq<string>)
    requires cells != [] && forall c :: c in cells ==> Trimmed(c, IsSpace)
    ensures SplitRow(RowText(cells)) == cells <==> NoBars(cells)
    ensures !NoBars(cells) ==> |SplitRow(RowText(cells))| > |cells|
  {
    SplitPrintedRow(cells);
    PaddedFacts(cells);
    SplitAllExact(Padded(cells));
  }

  /** The same for the escaping printer, for all cells: escaping a bar does not protect it. */
  lemma JoinedRowRoundTrip(cells: seq<string>)
    requires cells != []
    ensures SplitRow(JoinCells(cells)) == EscapeAll(cells) <==> NoBars(cells)
    ensures !NoBars(cells) ==> |SplitRow(JoinCells(cells))| > |cells|
    ensures (forall c :: c in cells ==> CleanCell(c)) ==> SplitRow(JoinCells(cells)) == cells
  {
    forall i | 0 <= i < |cells| ensures Trimmed(EscapeAll(cells)[i], IsSpace)
      ensures '|' in EscapeAll(cells)[i] <==> '|' in cells[i]
      ensures CleanCell(cells[i]) ==> EscapeAll(cells)[i] == cells[i]
    {
      EscapeFacts(cells[i]);
    }
    RowRoundTrip(EscapeAll(cells));
    if NoBars(EscapeAll(cells)) {
      forall c | c in cells ensures '|' !in c {
        var i :| 0 <= i < |cells| && cells[i] == c;
        assert EscapeAll(cells)[i] in EscapeAll(cells);
      }
    }
  }

  /** Parsed cells are clean when the line they come from is a single line. */
  lemma ParsedCellsClean(line: string)
    requires OneLine(line)
    ensures forall c :: c in SplitRow(line) ==> CleanCell(c) && OneLine(c)
  {
    var inner := StripChars(Strip(line), IsBar);
    StripFacts(line, IsSpace);
    StripFacts(Strip(line), IsBar);
    SplitPieces(inner);
    forall c | c in SplitRow(line) ensures CleanCell(c) && OneLine(c) {
      var i :| 0 <= i < |Split(inner)| && c == Strip(Split(inner)[i]);
      StripFacts(Split(inner)[i], IsSpace);
      assert Split(inner)[i] in Split(inner);
    }
  }

  lemma {:induction false} JoinChars(sep: string, parts: seq<string>)
    requires OneLine(sep) && forall p :: p in parts ==> OneLine(p)
    ensures OneLine(Join(sep, parts))
  {
    if |parts| == 1 {
      assert parts[0] in parts;
    } else if |parts| > 1 {
      JoinChars(sep, parts[1..]);
      assert parts[0] in parts;
    }
  }

  lemma RowIsOneLine(cells: seq<string>)
    requires forall c :: c in cells ==> OneLine(c)
    ensures OneLine(RowText(cells))
  {
    JoinChars(" | ", cells);
  }
}
