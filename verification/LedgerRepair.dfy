/** Rebuilding the hash chain of a damaged ledger (prompt_engine/ledger_updater.py, repair_hash_chain). */
module LedgerRepair {
  import opened Wrappers
  import opened PromptTypes
  import opened PyText
  import opened LedgerRow
  import opened LedgerFormat
  import opened LedgerChain
  import opened LedgerSection
  import opened LedgerSetup

  // ----- One line -----

  /** A body row with all nine descriptive cells: it is rewritten. */
  predicate IsFullRow(line: string) { IsBodyRow(line) && |SplitRow(line)| >= 9 }

  /** A body row with fewer cells: it is left as it is. */
  predicate IsShortRow(line: string) { IsBodyRow(line) && |SplitRow(line)| < 9 }

  function RelinkedCells(hash: string -> string, cells: Cells, prev: string): Cells
    requires |cells| >= 9
  {
    cells[..9] + [prev, EntryHash(hash, cells[0], cells[3], cells[2], prev)]
  }

  function RepairedLine(hash: string -> string, line: string, prev: string): string {
    if IsFullRow(line) then JoinCells(RelinkedCells(hash, SplitRow(line), prev))
    else if HeaderLike(line) then TABLE_HEADER
    else if DividerLike(line) then TABLE_DIVIDER
    else line
  }

  function NextPrev(hash: string -> string, line: string, prev: string): string {
    if IsFullRow(line) then RelinkedCells(hash, SplitRow(line), prev)[10] else prev
  }

  // ----- The section -----

  /** The running previous hash after the given lines. */
  function RepairPrev(hash: string -> string, lines: seq<string>): string {
    if lines == [] then GENESIS
    else NextPrev(hash, lines[|lines| - 1], RepairPrev(hash, lines[..|lines| - 1]))
  }

  function Repaired(hash: string -> string, lines: seq<string>): (r: seq<string>)
    ensures |r| == |lines|
  {
    if lines == [] then []
    else
      var front, last := lines[..|lines| - 1], lines[|lines| - 1];
      Repaired(hash, front) + [RepairedLine(hash, last, RepairPrev(hash, front))]
  }

  lemma RepairedSnoc(hash: string -> string, lines: seq<string>, line: string)
    ensures Repaired(hash, lines + [line]) ==
      Repaired(hash, lines) + [RepairedLine(hash, line, RepairPrev(hash, lines))]
    ensures RepairPrev(hash, lines + [line]) == NextPrev(hash, line, RepairPrev(hash, lines))
  {
    assert (lines + [line])[..|lines|] == lines;
  }

  predicate HasHeader(lines: seq<string>) {
    exists l :: l in lines && HeaderLike(l)
  }

  /** The new section: a missing table header is put in front. */
  function RepairBody(hash: string -> string, lines: seq<string>): seq<string> {
    (if HasHeader(lines) then [] else [TABLE_HEADER, TABLE_DIVIDER]) + Repaired(hash, lines)
  }

  function RepairText(hash: string -> string, text: string): string {
    var lines := SplitLines(text);
    if !HasSection(lines) then text
    else
      Unlines(lines[..FirstStart(lines) + 1] + RepairBody(hash, Section(lines)) + lines[SectionEnd(lines)..])
  }

  // ----- What one rewritten row looks like -----

  predicate AllOneLine(lines: seq<string>) {
    forall l :: l in lines ==> OneLine(l)
  }

  lemma RelinkedRow(hash: string -> string, line: string, prev: string)
    requires Digests(hash) && OneLine(line) && IsFullRow(line) && CleanCell(prev) && OneLine(prev)
    ensures var cells := RelinkedCells(hash, SplitRow(line), prev);
      && var out := RepairedLine(hash, line, prev);
      && out == RowText(cells) && OneLine(out) && SplitRow(out) == cells
      && IsRow(out) && !DividerLike(out) && !IsSectionStop(out)
      && (HeaderLike(out) <==> SplitRow(line)[0] == "Prompt ID")
      && IsDigest(cells[10]) && RowLinked(hash, cells, prev)
  {
    var cells := RelinkedCells(hash, SplitRow(line), prev);
    ParsedCellsClean(line);
    DigestClean(cells[10]);
    forall c | c in cells ensures CleanCell(c) && OneLine(c) && EscapeAll([c]) == [c] {
      if c in SplitRow(line)[..9] { assert c in SplitRow(line); }
      EscapeFacts(c);
    }
    assert EscapeAll(cells) == cells by {
      forall i | 0 <= i < |cells| ensures EscapeAll(cells)[i] == cells[i] {
        EscapeFacts(cells[i]);
      }
    }
    JoinedRowRoundTrip(cells);
    RowIsOneLine(cells);
    PrintedRowIsRow(cells);
    assert cells[0] in cells;
    PrintedRowHeaderLike(cells);
  }

  lemma {:induction false} RepairPrevClean(hash: string -> string, lines: seq<string>)
    requires Digests(hash)
    ensures CleanCell(RepairPrev(hash, lines)) && OneLine(RepairPrev(hash, lines))
  {
    if lines == [] {
      GenesisClean();
    } else {
      RepairPrevClean(hash, lines[..|lines| - 1]);
      if IsFullRow(lines[|lines| - 1]) {
        DigestClean(RepairPrev(hash, lines));
      }
    }
  }

  /** What the readers make of one repaired line. */
  lemma RepairedLineFacts(hash: string -> string, line: string, prev: string)
    requires Digests(hash) && OneLine(line) && CleanCell(prev) && OneLine(prev) && !IsSectionStop(line)
    ensures var out := RepairedLine(hash, line, prev);
      && OneLine(out) && !IsSectionStop(out)
      && (IsRow(out) <==> IsBodyRow(line))
      && (IsFullRow(line) ==> SplitRow(out) == RelinkedCells(hash, SplitRow(line), prev))
      && (IsShortRow(line) ==> out == line)
  {
    BodyRowIsRow(line);
    if IsFullRow(line) {
      RelinkedRow(hash, line, prev);
    } else if HeaderLike(line) || DividerLike(line) {
      CanonicalLines();
      FixedLinesDoNotStop();
      TrimmedFixedLines();
    }
  }

  // ----- The repaired chain -----

  /** The lines of a section: single lines, none of them a heading. */
  predicate SectionLines(lines: seq<string>) {
    forall l :: l in lines ==> OneLine(l) && !IsSectionStop(l)
  }

  lemma {:induction false} RepairedKeepsSection(hash: string -> string, lines: seq<string>)
    requires Digests(hash) && SectionLines(lines)
    ensures SectionLines(Repaired(hash, lines))
  {
    if lines != [] {
      var front, last := lines[..|lines| - 1], lines[|lines| - 1];
      RepairedKeepsSection(hash, front);
      RepairPrevClean(hash, front);
      RepairedLineFacts(hash, last, RepairPrev(hash, front));
    }
  }

  predicate NoShortRows(lines: seq<string>) {
    forall l :: l in lines ==> !IsShortRow(l)
  }

  lemma {:induction false} RepairedChain(hash: string -> string, lines: seq<string>)
    requires Digests(hash) && SectionLines(lines) && NoShortRows(lines)
    ensures ChainOk(hash, DataRows(Repaired(hash, lines)))
    ensures LastHash(DataRows(Repaired(hash, lines))) == RepairPrev(hash, lines)
  {
    if lines != [] {
      var front, last := lines[..|lines| - 1], lines[|lines| - 1];
      var prev := RepairPrev(hash, front);
      RepairedChain(hash, front);
      RepairPrevClean(hash, front);
      RepairedLineFacts(hash, last, prev);
      DataRowsSnoc(Repaired(hash, front), RepairedLine(hash, last, prev));
      if IsFullRow(last) {
        RelinkedRow(hash, last, prev);
        ChainSnoc(hash, DataRows(Repaired(hash, front)), RelinkedCells(hash, SplitRow(last), prev));
      } else {
        assert !IsBodyRow(last);
      }
    }
  }

  lemma {:induction false} RowOfLine(lines: seq<string>, line: string)
    requires line in lines && IsRow(line)
    ensures SplitRow(line) in DataRows(lines)
  {
    var front, last := lines[..|lines| - 1], lines[|lines| - 1];
    if line != last {
      RowOfLine(front, line);
    }
  }

  lemma {:induction false} ShortRowKept(hash: string -> string, lines: seq<string>, line: string)
    requires line in lines && IsShortRow(line)
    ensures line in Repaired(hash, lines)
  {
    var front, last := lines[..|lines| - 1], lines[|lines| - 1];
    if line != last {
      ShortRowKept(hash, front, line);
    }
  }

  /** The repaired section verifies exactly when no body row has fewer than nine cells. */
  lemma RepairedVerifiesIff(hash: string -> string, lines: seq<string>)
    requires Digests(hash) && SectionLines(lines)
    ensures ChainOk(hash, DataRows(Repaired(hash, lines))) <==> NoShortRows(lines)
  {
    if NoShortRows(lines) {
      RepairedChain(hash, lines);
    } else {
      var l :| l in lines && IsShortRow(l);
      ShortRowKept(hash, lines, l);
      BodyRowIsRow(l);
      RowOfLine(Repaired(hash, lines), l);
      if ChainOk(hash, DataRows(Repaired(hash, lines))) {
        ChainIsWide(hash, DataRows(Repaired(hash, lines)));
      }
    }
  }

  // ----- What the repair keeps -----

  function BodyRows(lines: seq<string>): seq<Cells> {
    if lines == [] then []
    else
      var front, last := lines[..|lines| - 1], lines[|lines| - 1];
      BodyRows(front) + (if IsBodyRow(last) then [SplitRow(last)] else [])
  }

  /** The descriptive cells of a row. */
  function Descriptive(row: Cells): Cells {
    if |row| >= 9 then row[..9] else row
  }

  function AllDescriptive(rows: seq<Cells>): seq<Cells> {
    seq(|rows|, i requires 0 <= i < |rows| => Descriptive(rows[i]))
  }

  /** Same rows in the same order with the same descriptive cells. */
  lemma {:induction false} RepairKeepsRows(hash: string -> string, lines: seq<string>)
    requires Digests(hash) && SectionLines(lines)
    ensures AllDescriptive(DataRows(Repaired(hash, lines))) == AllDescriptive(BodyRows(lines))
  {
    if lines != [] {
      var front, last := lines[..|lines| - 1], lines[|lines| - 1];
      var prev := RepairPrev(hash, front);
      RepairKeepsRows(hash, front);
      RepairPrevClean(hash, front);
      RepairedLineFacts(hash, last, prev);
      DataRowsSnoc(Repaired(hash, front), RepairedLine(hash, last, prev));
      if IsBodyRow(last) {
        var cells' := SplitRow(RepairedLine(hash, last, prev));
        assert Descriptive(cells') == Descriptive(SplitRow(last));
        AllDescriptiveSnoc(DataRows(Repaired(hash, front)), cells');
        AllDescriptiveSnoc(BodyRows(front), SplitRow(last));
        assert BodyRows(lines) == BodyRows(front) + [SplitRow(last)];
        assert DataRows(Repaired(hash, lines)) == DataRows(Repaired(hash, front)) + [cells'];
      } else {
        assert BodyRows(lines) == BodyRows(front);
        assert DataRows(Repaired(hash, lines)) == DataRows(Repaired(hash, front));
      }
    }
  }

  lemma AllDescriptiveSnoc(rows: seq<Cells>, row: Cells)
    ensures AllDescriptive(rows + [row]) == AllDescriptive(rows) + [Descriptive(row)]
  {
  }

  // ----- What becomes of the status map -----

  /** The reader of statuses looks at descriptive cells only. */
  lemma {:induction false} StatusOfDescriptive(rows: seq<Cells>)
    ensures StatusMap(AllDescriptive(rows)) == StatusMap(rows)
  {
    if rows != [] {
      var front, last := rows[..|rows| - 1], rows[|rows| - 1];
      StatusOfDescriptive(front);
      assert rows == front + [last];
      AllDescriptiveSnoc(front, last);
      StatusMapSnoc(AllDescriptive(front), Descriptive(last));
    }
  }

  /** The status entry a line gives for the ID, if any. */
  function LineEntry(line: string, id: string): Option<Status> {
    if IsRow(line) && CarriesStatus(SplitRow(line)) && SplitRow(line)[0] == id then ParseStatus(SplitRow(line)[3])
    else None
  }

  predicate Carried(lines: seq<string>, id: string) {
    exists l :: l in lines && LineEntry(l, id).Some?
  }

  predicate CarriedByBody(lines: seq<string>, id: string) {
    exists l :: l in lines && IsBodyRow(l) && LineEntry(l, id).Some?
  }

  lemma {:induction false} InMapIff(lines: seq<string>, id: string)
    ensures id in StatusMap(DataRows(lines)) <==> Carried(lines, id)
    ensures id in StatusMap(BodyRows(lines)) <==> CarriedByBody(lines, id)
  {
    hide SplitRow, IsRow, IsBodyRow, ParseStatus;
    if lines != [] {
      var front, last := lines[..|lines| - 1], lines[|lines| - 1];
      assert lines == front + [last];
      InMapIff(front, id);
      BodyRowIsRow(last);
      StatusMapSnoc(DataRows(front), SplitRow(last));
      StatusMapSnoc(BodyRows(front), SplitRow(last));
      CarriedSnoc(front, last, id);
      assert DataRows(front) + [] == DataRows(front) && BodyRows(front) + [] == BodyRows(front);
    }
  }

  lemma CarriedSnoc(front: seq<string>, last: string, id: string)
    ensures Carried(front + [last], id) <==> Carried(front, id) || LineEntry(last, id).Some?
    ensures CarriedByBody(front + [last], id) <==>
      CarriedByBody(front, id) || (IsBodyRow(last) && LineEntry(last, id).Some?)
  {
    forall l ensures l in front + [last] <==> l in front || l == last {
    }
  }

  /** When only body rows carry an ID, its entry survives unchanged. */
  lemma {:induction false} BodyEntriesKept(lines: seq<string>, id: string)
    requires forall l :: l in lines && LineEntry(l, id).Some? ==> IsBodyRow(l)
    ensures SameStatus(StatusMap(DataRows(lines)), StatusMap(BodyRows(lines)), id)
  {
    if lines != [] {
      hide SplitRow, IsRow, IsBodyRow, SameStatus, StatusMap, LineEntry;
      var front, last := lines[..|lines| - 1], lines[|lines| - 1];
      assert lines == front + [last];
      BodyEntriesKept(front, id);
      BodyRowIsRow(last);
      assert DataRows(front) + [] == DataRows(front) && BodyRows(front) + [] == BodyRows(front);
      if IsRow(last) {
        RowEntryKept(DataRows(front), BodyRows(front), last, id);
      }
    }
  }

  /** One more row for the readers, and for the repair if the line gives an entry. */
  lemma RowEntryKept(rows: seq<Cells>, body: seq<Cells>, line: string, id: string)
    requires IsRow(line) && SameStatus(StatusMap(rows), StatusMap(body), id)
    requires LineEntry(line, id).Some? ==> IsBodyRow(line)
    ensures IsBodyRow(line) ==> SameStatus(StatusMap(rows + [SplitRow(line)]), StatusMap(body + [SplitRow(line)]), id)
    ensures !IsBodyRow(line) ==> SameStatus(StatusMap(rows + [SplitRow(line)]), StatusMap(body), id)
  {
    hide SplitRow, IsRow, IsBodyRow, ParseStatus, StatusMap;
    StatusMapSnoc(rows, SplitRow(line));
    StatusMapSnoc(body, SplitRow(line));
  }

  // ----- The whole file -----

  lemma SectionOfText(text: string)
    ensures SectionLines(Section(SplitLines(text)))
  {
    var lines := SplitLines(text);
    LinesAreOneLine(text);
    if HasSection(lines) {
      SectionLinesDoNotStop(lines);
      assert forall l :: l in Section(lines) ==> l in lines;
    }
  }

  lemma RepairBodyFacts(hash: string -> string, lines: seq<string>)
    requires Digests(hash) && SectionLines(lines)
    ensures SectionLines(RepairBody(hash, lines))
    ensures DataRows(RepairBody(hash, lines)) == DataRows(Repaired(hash, lines))
  {
    hide Repaired, RepairPrev, IsSectionStop, OneLine, IsRow;
    RepairedKeepsSection(hash, lines);
    FixedLinesDoNotStop();
    TrimmedFixedLines();
    CanonicalLines();
    HeaderRows();
    DataRowsConcat([TABLE_HEADER, TABLE_DIVIDER], Repaired(hash, lines));
    assert [] + Repaired(hash, lines) == Repaired(hash, lines);
  }

  lemma HeaderRows()
    ensures DataRows([TABLE_HEADER, TABLE_DIVIDER]) == []
  {
    CanonicalLines();
    assert [TABLE_HEADER, TABLE_DIVIDER] == ([] + [TABLE_HEADER]) + [TABLE_DIVIDER];
    DataRowsSnoc([], TABLE_HEADER);
    DataRowsSnoc([] + [TABLE_HEADER], TABLE_DIVIDER);
  }

  /** The repair rewrites the section's body and leaves every other line of the file alone. */
  lemma RepairedLines(hash: string -> string, text: string)
    requires Digests(hash) && HasSection(SplitLines(text))
    ensures var lines, lines' := SplitLines(text), SplitLines(RepairText(hash, text));
      && HasSection(lines') && Section(lines') == RepairBody(hash, Section(lines))
      && FirstStart(lines') == FirstStart(lines)
      && lines'[..FirstStart(lines') + 1] == lines[..FirstStart(lines) + 1]
      && lines'[SectionEnd(lines')..] == lines[SectionEnd(lines)..]
  {
    hide SplitLines, Unlines, FirstStart, SectionEnd, Section, RepairBody, Repaired, RepairPrev, DataRows;
    var lines := SplitLines(text);
    var s, e, body := FirstStart(lines), SectionEnd(lines), RepairBody(hash, Section(lines));
    var before, heading, after := lines[..s], lines[s], lines[e..];
    SplitAtSection(lines);
    SectionOfText(text);
    RepairBodyFacts(hash, Section(lines));
    LinesAreOneLine(text);
    var lines' := before + [heading] + body + after;
    assert lines[..s + 1] == before + [heading];
    assert lines[..s + 1] + body + after == lines';
    SplitUnlines(lines');
    SectionIs(before, heading, body, after);
    CutRepaired(before, heading, body, after);
  }

  lemma CutRepaired(before: seq<string>, heading: string, body: seq<string>, after: seq<string>)
    ensures var lines := before + [heading] + body + after;
      && lines[..|before| + 1] == before + [heading]
      && lines[|before| + 1 + |body|..] == after
  {
  }

  /** After a repair the ledger verifies exactly when no body row of its section has fewer than nine cells. */
  lemma RepairVerifiesIff(hash: string -> string, text: string)
    requires Digests(hash)
    ensures ChainOk(hash, RowsOf(Some(RepairText(hash, text)))) <==> NoShortRows(Section(SplitLines(text)))
  {
    if HasSection(SplitLines(text)) {
      RepairedLines(hash, text);
      SectionOfText(text);
      RepairBodyFacts(hash, Section(SplitLines(text)));
      RepairedVerifiesIff(hash, Section(SplitLines(text)));
    }
  }

  /**
    The repair keeps the body rows' order and first nine cells; the statuses read afterwards are the
    latest statuses of the body rows, whatever the IDs.
  */
  lemma RepairKeepsContent(hash: string -> string, text: string)
    requires Digests(hash)
    ensures var body := BodyRows(Section(SplitLines(text)));
      && AllDescriptive(RowsOf(Some(RepairText(hash, text)))) == AllDescriptive(body)
      && StatusMap(RowsOf(Some(RepairText(hash, text)))) == StatusMap(body)
  {
    var section := Section(SplitLines(text));
    SectionOfText(text);
    if HasSection(SplitLines(text)) {
      RepairedLines(hash, text);
      RepairBodyFacts(hash, section);
      RepairKeepsRows(hash, section);
    }
    StatusOfDescriptive(RowsOf(Some(RepairText(hash, text))));
    StatusOfDescriptive(BodyRows(section));
  }

  /**
    A prompt's entry is lost in the repair exactly when rows carried it and all of them look like the
    table's header or divider; it survives unchanged when none of them does.
  */
  lemma EntryLostIff(hash: string -> string, text: string, id: string)
    requires Digests(hash)
    ensures var section := Section(SplitLines(text));
      && var before, after := StatusMap(RowsOf(Some(text))), StatusMap(RowsOf(Some(RepairText(hash, text))));
      && (id in after ==> id in before)
      && (id in before && id !in after <==>
            Carried(section, id) && forall l :: l in section && LineEntry(l, id).Some? ==>
              HeaderLike(l) || DividerLike(l))
      && ((forall l :: l in section && LineEntry(l, id).Some? ==> !HeaderLike(l) && !DividerLike(l)) ==>
           SameStatus(before, after, id))
  {
    var section := Section(SplitLines(text));
    RepairKeepsContent(hash, text);
    InMapIff(section, id);
    forall l | LineEntry(l, id).Some? ensures IsBodyRow(l) <==> !HeaderLike(l) && !DividerLike(l) {
      BodyRowIsRow(l);
    }
    if forall l :: l in section && LineEntry(l, id).Some? ==> !HeaderLike(l) && !DividerLike(l) {
      BodyEntriesKept(section, id);
    }
  }

  /** A row with the prompt ID "Prompt ID" is taken for a table header, and its status is lost. */
  lemma TitledEntryLost(hash: string -> string)
    requires Digests(hash)
    ensures var text := Unlines([SECTION_HEADER, RowText(TITLED)]);
      && var before, after := StatusMap(RowsOf(Some(text))), StatusMap(RowsOf(Some(RepairText(hash, text))));
      "Prompt ID" in before && before["Prompt ID"] == Succeeded && "Prompt ID" !in after
  {
    hide SplitLines, Unlines, RepairText, FirstStart, IsRow, SplitRow, HeaderLike, DividerLike, DataRows, Section;
    hide RowText;
    var row := RowText(TITLED);
    var text := Unlines([SECTION_HEADER, row]);
    TitledRow();
    OneRowSection(row, text);
    OneRowOnly(row);
    TitledStatus();
    EntryLostIff(hash, text, "Prompt ID");
    InMapIff([row], "Prompt ID");
    assert Carried(Section(SplitLines(text)), "Prompt ID");
  }

  const TITLED := ["Prompt ID", "S", "T", "SUCCESS"]

  lemma TitledStatus()
    ensures StatusMap([TITLED]) == map["Prompt ID" := Succeeded]
  {
    assert [TITLED][..0] == [];
    assert StatusMap([]) == map[];
  }

  lemma OneRowOnly(row: string)
    ensures DataRows([row]) == if IsRow(row) then [SplitRow(row)] else []
  {
    assert [row][..0] == [];
  }

  lemma OneRowSection(row: string, text: string)
    requires text == Unlines([SECTION_HEADER, row]) && OneLine(row) && !IsSectionStop(row)
    ensures Section(SplitLines(text)) == [row]
  {
    SectionLine();
    StripFacts(SECTION_HEADER, IsSpace);
    SplitUnlines([SECTION_HEADER, row]);
    SectionIs([], SECTION_HEADER, [row], []);
    assert [] + [SECTION_HEADER] + [row] + [] == [SECTION_HEADER, row];
  }

  lemma TitledCells()
    ensures NoBars(TITLED) && (forall c :: c in TITLED ==> Trimmed(c, IsSpace)) && forall c :: c in TITLED ==>
      OneLine(c)
  {
  }

  lemma TitledRow()
    ensures var row := RowText(TITLED);
      SplitRow(row) == TITLED && IsRow(row) && HeaderLike(row) && OneLine(row) && !IsSectionStop(row)
  {
    hide SplitRow, OneLine, Strip;
    TitledCells();
    RowRoundTrip(TITLED);
    RowInterior(TITLED);
    RowIsOneLine(TITLED);
    TitledPrefix();
    RowTail(TITLED);
    HeaderLine();
    DividerLine();
    var row := RowText(TITLED);
    assert row[|row| - 9..|row| - 2] == "SUCCESS";
    assert row[|row| - 3] == (row[|row| - 9..|row| - 2])[6] == 'S';
  }

  lemma TitledPrefix()
    ensures HEADER_PREFIX <= RowText(TITLED) && RowText(TITLED)[0] == '|'
  {
    FirstOfRow(TITLED);
    assert HEADER_PREFIX == "| " + "Prompt ID" + " |";
  }

  lemma FirstOfRow(cells: seq<string>)
    requires |cells| >= 2
    ensures "| " + cells[0] + " |" <= RowText(cells)
  {
    assert Join(" | ", cells) == cells[0] + " | " + Join(" | ", cells[1..]);
    assert RowText(cells) == ("| " + cells[0] + " |") + (" " + Join(" | ", cells[1..]) + " |");
  }

  // ----- Repairing twice -----

  lemma {:induction false} RepairedAt(hash: string -> string, lines: seq<string>, k: nat)
    requires k < |lines|
    ensures Repaired(hash, lines)[k] == RepairedLine(hash, lines[k], RepairPrev(hash, lines[..k]))
  {
    var front := lines[..|lines| - 1];
    if k < |front| {
      RepairedAt(hash, front, k);
      assert front[..k] == lines[..k];
    }
  }

  /** A full row whose prompt ID is the header's first column title. */
  predicate IsTitledRow(line: string) { IsFullRow(line) && SplitRow(line)[0] == "Prompt ID" }

  lemma RepairedLineAgain(hash: string -> string, line: string, prev: string)
    requires Digests(hash) && OneLine(line) && CleanCell(prev) && OneLine(prev)
    ensures var out := RepairedLine(hash, line, prev);
      && (!IsTitledRow(line) ==>
           RepairedLine(hash, out, prev) == out && NextPrev(hash, out, prev) == NextPrev(hash, line, prev))
      && (IsTitledRow(line) ==> forall p :: RepairedLine(hash, out, p) != out)
  {
    var out := RepairedLine(hash, line, prev);
    if IsFullRow(line) {
      RelinkedRow(hash, line, prev);
      BodyRowIsRow(out);
      PrintedRowIsRow(RelinkedCells(hash, SplitRow(line), prev));
      TrimmedFixedLines();
      if !IsTitledRow(line) {
        assert RelinkedCells(hash, SplitRow(out), prev) == SplitRow(out);
      }
    } else {
      CanonicalLines();
    }
  }

  lemma {:induction false} RepairedTwice(hash: string -> string, lines: seq<string>)
    requires Digests(hash) && AllOneLine(lines)
    requires forall l :: l in lines ==> !IsTitledRow(l)
    ensures Repaired(hash, Repaired(hash, lines)) == Repaired(hash, lines)
    ensures RepairPrev(hash, Repaired(hash, lines)) == RepairPrev(hash, lines)
  {
    if lines != [] {
      var front, last := lines[..|lines| - 1], lines[|lines| - 1];
      RepairedTwice(hash, front);
      RepairPrevClean(hash, front);
      RepairedLineAgain(hash, last, RepairPrev(hash, front));
      RepairedSnoc(hash, Repaired(hash, front), RepairedLine(hash, last, RepairPrev(hash, front)));
    }
  }

  lemma TitledRowChanges(hash: string -> string, lines: seq<string>, l: string)
    requires Digests(hash) && AllOneLine(lines) && l in lines && IsTitledRow(l)
    ensures Repaired(hash, Repaired(hash, lines)) != Repaired(hash, lines)
  {
    var k :| 0 <= k < |lines| && lines[k] == l;
    RepairedAt(hash, lines, k);
    RepairPrevClean(hash, lines[..k]);
    RepairedLineAgain(hash, l, RepairPrev(hash, lines[..k]));
    RepairedAt(hash, Repaired(hash, lines), k);
  }

  lemma {:induction false} RepairedAfter(hash: string -> string, head: seq<string>, lines: seq<string>)
    requires Repaired(hash, head) == head && RepairPrev(hash, head) == GENESIS
    ensures Repaired(hash, head + lines) == head + Repaired(hash, lines)
    ensures RepairPrev(hash, head + lines) == RepairPrev(hash, lines)
  {
    hide RepairedLine, NextPrev;
    if lines == [] {
      assert head + [] == head;
    } else {
      var front, last := lines[..|lines| - 1], lines[|lines| - 1];
      RepairedAfter(hash, head, front);
      assert lines == front + [last];
      RepairedAfterStep(hash, head, front, last);
    }
  }

  lemma RepairedAfterStep(hash: string -> string, head: seq<string>, front: seq<string>, last: string)
    requires Repaired(hash, head + front) == head + Repaired(hash, front)
    requires RepairPrev(hash, head + front) == RepairPrev(hash, front)
    ensures Repaired(hash, head + (front + [last])) == head + Repaired(hash, front + [last])
    ensures RepairPrev(hash, head + (front + [last])) == RepairPrev(hash, front + [last])
  {
    RepairedSnoc(hash, head + front, last);
    RepairedSnoc(hash, front, last);
    assert head + (front + [last]) == (head + front) + [last];
  }

  lemma HeaderUnchanged(hash: string -> string)
    ensures Repaired(hash, [TABLE_HEADER, TABLE_DIVIDER]) == [TABLE_HEADER, TABLE_DIVIDER]
    ensures RepairPrev(hash, [TABLE_HEADER, TABLE_DIVIDER]) == GENESIS
  {
    hide Repaired, RepairPrev;
    FixedLinesKept(hash);
    TwoLinesKept(hash, TABLE_HEADER, TABLE_DIVIDER);
  }

  lemma FixedLinesKept(hash: string -> string)
    ensures RepairedLine(hash, TABLE_HEADER, GENESIS) == TABLE_HEADER
    ensures NextPrev(hash, TABLE_HEADER, GENESIS) == GENESIS
    ensures RepairedLine(hash, TABLE_DIVIDER, GENESIS) == TABLE_DIVIDER
    ensures NextPrev(hash, TABLE_DIVIDER, GENESIS) == GENESIS
  {
    hide SplitRow, RelinkedCells, HeaderLike, DividerLike;
    CanonicalLines();
  }

  lemma TwoLinesKept(hash: string -> string, first: string, second: string)
    requires RepairedLine(hash, first, GENESIS) == first && NextPrev(hash, first, GENESIS) == GENESIS
    requires RepairedLine(hash, second, GENESIS) == second && NextPrev(hash, second, GENESIS) == GENESIS
    ensures Repaired(hash, [first, second]) == [first, second] && RepairPrev(hash, [first, second]) == GENESIS
  {
    hide RepairedLine, NextPrev;
    assert [first, second] == ([] + [first]) + [second];
    RepairedSnoc(hash, [], first);
    RepairedSnoc(hash, [] + [first], second);
  }

  /** After one repair the section has a header, so a second repair inserts none. */
  lemma HeaderAfterRepair(hash: string -> string, lines: seq<string>)
    ensures HasHeader(RepairBody(hash, lines))
  {
    CanonicalLines();
    if l :| l in lines && HeaderLike(l) {
      var k :| 0 <= k < |lines| && lines[k] == l;
      RepairedAt(hash, lines, k);
      assert RepairBody(hash, lines)[k] == TABLE_HEADER;
    } else {
      assert RepairBody(hash, lines)[0] == TABLE_HEADER;
    }
  }

  lemma RepairBodyTwice(hash: string -> string, lines: seq<string>)
    requires Digests(hash) && AllOneLine(lines)
    ensures RepairBody(hash, RepairBody(hash, lines)) == RepairBody(hash, lines)
       <==> forall l :: l in lines ==> !IsTitledRow(l)
  {
    var body := RepairBody(hash, lines);
    HeaderAfterRepair(hash, lines);
    assert RepairBody(hash, body) == Repaired(hash, body);
    HeaderUnchanged(hash);
    RepairedAfter(hash, [TABLE_HEADER, TABLE_DIVIDER], Repaired(hash, lines));
    assert [] + Repaired(hash, lines) == Repaired(hash, lines);
    SamePrefix([TABLE_HEADER, TABLE_DIVIDER], Repaired(hash, Repaired(hash, lines)), Repaired(hash, lines));
    if l :| l in lines && IsTitledRow(l) {
      TitledRowChanges(hash, lines, l);
    } else {
      RepairedTwice(hash, lines);
    }
  }

  lemma SamePrefix(p: seq<string>, a: seq<string>, b: seq<string>)
    ensures p + a == p + b <==> a == b
  {
    assert (p + a)[|p|..] == a && (p + b)[|p|..] == b;
  }

  /** Repairing twice is repairing once exactly when no full row has the prompt ID "Prompt ID". */
  lemma RepairIdempotentIff(hash: string -> string, text: string)
    requires Digests(hash)
    ensures RepairText(hash, RepairText(hash, text)) == RepairText(hash, text)
       <==> forall l :: l in Section(SplitLines(text)) ==> !IsTitledRow(l)
  {
    var lines := SplitLines(text);
    if HasSection(lines) {
      SectionOfText(text);
      RepairBodyTwice(hash, Section(lines));
      RepairAgain(hash, text);
    }
  }

  /** The second repair changes the file exactly when it changes the repaired body. */
  lemma RepairAgain(hash: string -> string, text: string)
    requires Digests(hash) && HasSection(SplitLines(text))
    ensures var body := RepairBody(hash, Section(SplitLines(text)));
      RepairText(hash, RepairText(hash, text)) == RepairText(hash, text) <==> RepairBody(hash, body) == body
  {
    hide SplitLines, Unlines, FirstStart, SectionEnd, Section, RepairBody, DataRows;
    var text' := RepairText(hash, text);
    RepairedLines(hash, text);
    var lines := SplitLines(text);
    var body := RepairBody(hash, Section(lines));
    if RepairBody(hash, body) == body {
      RepairTextIs(hash, text, lines);
      FixedBody(hash, text', lines[..FirstStart(lines) + 1], body, lines[SectionEnd(lines)..]);
    } else {
      RepairedLines(hash, text');
    }
  }

  lemma FixedBody(hash: string -> string, text: string, pre: seq<string>, body: seq<string>, post: seq<string>)
    requires text == Unlines(pre + body + post)
    requires var lines := SplitLines(text);
      && HasSection(lines) && RepairBody(hash, Section(lines)) == body
      && lines[..FirstStart(lines) + 1] == pre && lines[SectionEnd(lines)..] == post
    ensures RepairText(hash, text) == text
  {
    hide SplitLines, Unlines, RepairText, FirstStart, SectionEnd, Section, RepairBody, IsSectionStart;
    RepairTextIs(hash, text, SplitLines(text));
  }

  lemma RepairTextIs(hash: string -> string, text: string, lines: seq<string>)
    requires lines == SplitLines(text) && HasSection(lines)
    ensures RepairText(hash, text)
         == Unlines(lines[..FirstStart(lines) + 1] + RepairBody(hash, Section(lines)) + lines[SectionEnd(lines)..])
  {
    hide SplitLines, Unlines, RepairBody, Section, FirstStart, SectionEnd;
  }
}
