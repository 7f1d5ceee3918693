/**
  Exactly which records keep the ledger's chain verifiable, and what stays of a ledger that one
  record has broken (prompt_engine/ledger_updater.py).
*/
module LedgerIntegrity {
  import opened Wrappers
  import opened PromptTypes
  import opened PyText
  import opened LedgerRow
  import opened LedgerFormat
  import opened LedgerChain
  import opened LedgerSection
  import opened LedgerSetup
  import opened LedgerAppend
  import opened LedgerPieces
  import opened LedgerLines
  import opened LedgerVisible

  /** The payload that was hashed and the payload the printed row gives back do not collide. */
  predicate NoCollision(hash: string -> string, r: Record, prev: string) {
    var hashed := Payload(r.promptId, StatusText(r.status), r.timestamp, prev);
    var printed := Payload(Escape(r.promptId), StatusText(r.status), Escape(r.timestamp), prev);
    hash(hashed) == hash(printed) ==> hashed == printed
  }

  // ----- One row -----

  /**
    The printed row, read as one line, continues the chain exactly when no field holds a bar and ID and timestamp are
    printed as hashed.
  */
  lemma RowLinkedIff(hash: string -> string, r: Record, prev: string)
    requires Digests(hash) && HashCell(prev) && prev != ""
    requires NeverMentions(r, prev) && NoCollision(hash, r, prev)
    ensures RowLinked(hash, SplitRow(FormatRow(hash, r, prev)), prev) <==> BarFree(r) && HashedAsPrinted(r)
  {
    hide FormatRow, SplitRow, NeverMentions, BarFree, RowLinked, HashedAsPrinted, NoCollision, RowCells;
    if BarFree(r) {
      BarFreeRow(hash, r, prev);
      SamePayload(r, prev);
      CellsLinkedIff(hash, r, prev);
    } else {
      BarBreaksRow(hash, r, prev);
      OtherPrevious(hash, SplitRow(FormatRow(hash, r, prev)), prev);
    }
  }

  lemma OtherPrevious(hash: string -> string, row: Cells, prev: string)
    requires |row| >= 10 && row[9] != prev
    ensures !RowLinked(hash, row, prev)
  {
  }

  /** The cells of a row say the same payload was hashed that they give back, or they do not link. */
  lemma CellsLinkedIff(hash: string -> string, r: Record, prev: string)
    requires HashCell(prev) && NoCollision(hash, r, prev) && BarFree(r)
    ensures RowLinked(hash, RowCells(hash, r, prev), prev) <==> SamePayloads(r, prev)
  {
    hide BarFree;
    BaseCellsFacts(r);
  }

  lemma BarFreeRow(hash: string -> string, r: Record, prev: string)
    requires Digests(hash) && HashCell(prev) && BarFree(r)
    ensures SplitRow(FormatRow(hash, r, prev)) == RowCells(hash, r, prev)
  {
    var cells := RowCells(hash, r, prev);
    DigestClean(RecordHash(hash, r, prev));
    BaseCellsFacts(r);
    BaseCellsBars(r);
    RowRoundTrip(cells);
  }

  predicate SamePayloads(r: Record, prev: string) {
    Payload(r.promptId, StatusText(r.status), r.timestamp, prev)
    == Payload(Escape(r.promptId), StatusText(r.status), Escape(r.timestamp), prev)
  }

  lemma SamePayload(r: Record, prev: string)
    requires BarFree(r) && HashCell(prev)
    ensures SamePayloads(r, prev) <==> HashedAsPrinted(r)
  {
    var f := TextFields(r);
    assert f[0] in f && f[2] in f;
    EscapeFacts(r.promptId);
    EscapeFacts(r.timestamp);
    StatusTextParses(r.status);
    var id, t, status := r.promptId, r.timestamp, StatusText(r.status);
    if Payload(id, status, t, prev) == Payload(Escape(id), status, Escape(t), prev) {
      PayloadInjective(id, status, t, prev, Escape(id), status, Escape(t), prev);
    }
  }

  /** The first line of a broken row never continues the chain. */
  lemma BrokenRowNotLinked(hash: string -> string, r: Record, prev: string)
    requires Digests(hash) && HashCell(prev) && prev != "" && NeverMentions(r, prev) && !Printable(r)
    ensures !RowLinked(hash, SplitRow(FirstLine(FormatRow(hash, r, prev) + "\n")), prev)
  {
    PrintableRow(hash, r, prev);
    FirstLineIsRow(hash, r, prev);
    if BarFree(r) {
      BarFreeRow(hash, r, prev);
    } else {
      BarBreaksRow(hash, r, prev);
    }
  }

  // ----- The chain -----

  /** The situation in which an append is seen: a last section and a fresh line to write on. */
  predicate Open(text: string) { SectionIsLast(SplitLines(text)) && NextLineFresh(text) }

  lemma ChainHead(hash: string -> string, rows: seq<Cells>, row: Cells, all: seq<Cells>)
    requires rows + [row] <= all && ChainOk(hash, all)
    ensures RowLinked(hash, row, LastHash(rows))
  {
    assert all == (rows + [row]) + all[|rows| + 1..];
    ChainPrefix(hash, rows + [row], all[|rows| + 1..]);
    ChainSnoc(hash, rows, row);
  }

  /**
    The chain verifies after an append exactly when the record is clean: no field holds a bar, every
    printed field stays on one line, and ID and timestamp are printed as they were hashed. Asked of the
    record is only that it does not quote the previous hash, and that its own two payloads do not collide.
  */
  lemma AppendVerifiesIffClean(hash: string -> string, file: Option<string>, r: Record)
    requires Digests(hash) && Open(EnsureText(file)) && ChainOk(hash, RowsOf(Some(EnsureText(file))))
    requires NeverMentions(r, LastHash(RowsOf(Some(EnsureText(file)))))
    requires NoCollision(hash, r, LastHash(RowsOf(Some(EnsureText(file)))))
    ensures ChainOk(hash, RowsOf(Some(AppendText(hash, file, r)))) <==> Clean(r)
  {
    hide FormatRow, SplitRow, SplitLines, EnsureText, ChainOk, RowLinked, Printable, FirstLine, LaterLines, BarFree;
    hide HashedAsPrinted;
    var rows := RowsOf(Some(EnsureText(file)));
    var prev := LastHash(rows);
    ChainLastHash(hash, rows);
    FirstRowSeen(hash, file, r);
    var rows' := RowsOf(Some(AppendText(hash, file, r)));
    if Printable(r) {
      AppendSeenIff(hash, file, r);
      ChainSnoc(hash, rows, SplitRow(FormatRow(hash, r, prev)));
      RowLinkedIff(hash, r, prev);
    } else {
      BrokenRowNotLinked(hash, r, prev);
      if ChainOk(hash, rows') {
        ChainHead(hash, rows, SplitRow(FirstLine(FormatRow(hash, r, prev) + "\n")), rows');
      }
    }
  }

  /** On an open ledger the first line of the appended row is always read as a row, right after the old ones. */
  lemma FirstRowSeen(hash: string -> string, file: Option<string>, r: Record)
    requires Digests(hash) && Open(EnsureText(file))
    ensures var rows := RowsOf(Some(EnsureText(file)));
      rows + [SplitRow(FirstLine(FormatRow(hash, r, LastHash(rows)) + "\n"))] <= RowsOf(Some(AppendText(hash, file, r)))
  {
    hide FormatRow, SplitRow, SplitLines, Lead, Terminated, FirstLine, LaterLines, Section, EnsureText, NewLines;
    hide Printable, Strip, DataRows;
    var text := EnsureText(file);
    var prev := LastHash(RowsOf(Some(text)));
    var row := FormatRow(hash, r, prev);
    ParsedHashCell(text);
    RowLines(hash, r, prev);
    LinesAfter(text, row);
    FreshLineSeen(SplitRow(row), Terminated(text), Lead(text), FirstLine(row + "\n"), LaterLines(row + "\n"),
      Printable(r));
  }

  // ----- Concrete records -----

  lemma {:induction false} EscapeCharsAddsNone(s: string, c: char)
    requires c !in s && c != '\\' && c != ' '
    ensures c !in EscapeChars(s)
  {
    if s != "" {
      EscapeCharsAddsNone(s[1..], c);
    }
  }

  lemma NeverMentionsGenesis(r: Record)
    requires r.status == Failed
    requires forall f :: f in TextFields(r) ==> 'G' !in f
    ensures NeverMentions(r, GENESIS)
  {
    forall k | 0 <= k < 9 ensures !Contains(BaseCells(r)[k], GENESIS) {
      var c := BaseCells(r)[k];
      if k == 4 {
        IntTextClean(r.attempt);
      } else if k != 3 {
        var f := TextFields(r)[if k < 3 then k else k - 2];
        assert f in TextFields(r);
        EscapeCharsAddsNone(f, 'G');
        StripFacts(EscapeChars(f), IsSpace);
      }
      assert 'G' !in c;
      MentionNeedsFirst(c, GENESIS);
    }
  }

  lemma MentionNeedsFirst(c: string, h: string)
    requires h != "" && h[0] !in c
    ensures !Contains(c, h)
  {
    forall i | 0 <= i <= |c| ensures !(h <= c[i..]) {
      assert i < |c| ==> c[i..][0] == c[i] && c[i] in c;
    }
  }

  lemma ReadyIsOpen(text: string)
    requires Ready(text)
    ensures Open(text)
  {
    assert IsLineBreak('\n');
  }

  /** The first record of a new ledger, if it is not clean, already breaks it. */
  lemma UncleanBreaksNewLedger(hash: string -> string, r: Record)
    requires Digests(hash) && !Clean(r) && NeverMentions(r, GENESIS) && NoCollision(hash, r, GENESIS)
    ensures !ChainOk(hash, RowsOf(Some(AppendText(hash, None, r))))
  {
    EnsureMakesFresh(None);
    ReadyIsOpen(EnsureText(None));
    AppendVerifiesIffClean(hash, None, r);
  }

  function Sample(id: string, reason: string): Record {
    Record(id, "Auth", "T1", Failed, 0, [], "FAIL", Some(reason), "")
  }

  lemma SampleFields(id: string, reason: string)
    requires reason != ""
    ensures TextFields(Sample(id, reason)) == [id, "Auth", "T1", "-", "FAIL", reason, "-"]
    ensures forall f :: f in TextFields(Sample(id, reason)) <==>
      f in ["Auth", "T1", "-", "FAIL"] || f == id || f == reason
  {
    var f := [id, "Auth", "T1", "-", "FAIL", reason, "-"];
    assert TextFields(Sample(id, reason)) == f;
    FieldMembers(f);
    forall x ensures x in ["Auth", "T1", "-", "FAIL"] <==> x == "Auth" || x == "T1" || x == "-" || x == "FAIL" {
    }
  }

  lemma FieldMembers(f: seq<string>)
    requires |f| == 7
    ensures forall x :: x in f <==>
      x == f[0] || x == f[1] || x == f[2] || x == f[3] || x == f[4] || x == f[5] || x == f[6]
  {
  }

  lemma SampleMentionsNothing(id: string, reason: string)
    requires reason != "" && 'G' !in id && 'G' !in reason
    ensures NeverMentions(Sample(id, reason), GENESIS)
  {
    SampleFields(id, reason);
    NeverMentionsGenesis(Sample(id, reason));
  }

  /** One bar in the failure reason. */
  lemma BarBreaksNewLedger(hash: string -> string)
    requires Digests(hash)
    ensures !ChainOk(hash, RowsOf(Some(AppendText(hash, None, Sample("P1", "a|b")))))
  {
    SampleFields("P1", "a|b");
    SampleMentionsNothing("P1", "a|b");
    assert "a|b"[1] == '|' && "a|b" in TextFields(Sample("P1", "a|b"));
    CleanCells();
    UncleanBreaksNewLedger(hash, Sample("P1", "a|b"));
  }

  /** One carriage return in the failure reason: the printer only replaces newlines. */
  lemma ReturnBreaksNewLedger(hash: string -> string)
    requires Digests(hash)
    ensures !ChainOk(hash, RowsOf(Some(AppendText(hash, None, Sample("P1", "a\rb")))))
  {
    SampleFields("P1", "a\rb");
    SampleMentionsNothing("P1", "a\rb");
    ReturnStays();
    CleanCells();
    UncleanBreaksNewLedger(hash, Sample("P1", "a\rb"));
  }

  /** One blank before the prompt ID: the row prints the stripped ID but hashes the raw one. */
  lemma PaddedIdBreaksNewLedger(hash: string -> string)
    requires Digests(hash) && NoCollision(hash, Sample(" P1", "x"), GENESIS)
    ensures !ChainOk(hash, RowsOf(Some(AppendText(hash, None, Sample(" P1", "x")))))
  {
    SampleMentionsNothing(" P1", "x");
    StripFacts(EscapeChars(" P1"), IsSpace);
    assert !Trimmed(" P1", IsSpace);
    UncleanBreaksNewLedger(hash, Sample(" P1", "x"));
  }

  lemma CleanCells()
    ensures Escape("P1") == "P1" && Escape("T1") == "T1"
  {
    EscapeFacts("P1");
    EscapeFacts("T1");
  }

  lemma ReturnStays()
    ensures !OneLine(Escape("a\rb"))
  {
    var s := "a\rb";
    EscapeCharsFacts(s);
    assert '|' !in s && '\n' !in s;
    StripFacts(s, IsSpace);
    assert s[1] == '\r' && s[1] in s;
  }

  // ----- A file without its final newline -----

  /** The file after one record, as an editor that drops the final newline leaves it. */
  function Chopped(hash: string -> string, a: Record): string {
    EnsureText(None) + FormatRow(hash, a, GENESIS)
  }

  lemma CleanRowText(hash: string -> string, a: Record)
    requires Digests(hash) && Clean(a)
    ensures OneLine(FormatRow(hash, a, GENESIS)) && FormatRow(hash, a, GENESIS) != ""
  {
    hide FormatRow, OneLine, BarFree, HashedAsPrinted, Printable;
    GenesisClean();
    PrintedRow(hash, a, GENESIS);
    RowLines(hash, a, GENESIS);
  }

  lemma ChoppedIs(hash: string -> string, a: Record)
    requires Digests(hash) && Clean(a)
    ensures AppendText(hash, None, a) == Chopped(hash, a) + "\n"
    ensures SplitLines(Chopped(hash, a)) == SplitLines(AppendText(hash, None, a))
    ensures Terminated(Chopped(hash, a)) == SplitLines(EnsureText(None)) &&
      Lead(Chopped(hash, a)) == FormatRow(hash, a, GENESIS)
  {
    hide FormatRow, SplitLines, EnsureText, OneLine, Clean, Terminated, Lead, RowsOf, ChainOk, StatusMap, Section;
    var text, row := EnsureText(None), FormatRow(hash, a, GENESIS);
    EnsureMakesFresh(None);
    CleanRowText(hash, a);
    assert text + row + "\n" == text + (row + "\n");
    AppendLine(text, row);
    WholeLastLine(text, row);
  }

  lemma WholeLastLine(text: string, row: string)
    requires EndsWithNewline(text) && OneLine(row) && row != ""
    ensures SplitLines(text + row) == SplitLines(text) + [row]
    ensures Terminated(text + row) == SplitLines(text) && Lead(text + row) == row
  {
    SplitLinesConcat(text, row);
    UnbrokenIsOneLine(row);
    OnlyLine(row);
    assert (text + row)[|text + row| - 1] == row[|row| - 1] && row[|row| - 1] in row;
  }

  /** Two texts with the same lines are both left alone by the set-up step, or neither is. */
  lemma SameLinesSameTable(text: string, ready: string)
    requires SplitLines(text) == SplitLines(ready) && Ready(ready)
    ensures EnsureText(Some(text)) == text
    ensures RowsOf(Some(text)) == RowsOf(Some(ready))
  {
    hide SplitLines, FindTable, Section, Contains;
    HeadingContained(text, SplitLines(text));
  }

  lemma ChoppedIsLeft(hash: string -> string, a: Record)
    requires Digests(hash) && Clean(a)
    ensures EnsureText(Some(Chopped(hash, a))) == Chopped(hash, a)
    ensures RowsOf(Some(Chopped(hash, a))) == [RowCells(hash, a, GENESIS)]
    ensures SectionIsLast(SplitLines(EnsureText(None))) && DataRows(Section(SplitLines(EnsureText(None)))) == []
  {
    hide FormatRow, SplitLines, RowCells, Clean, AppendText, Chopped, EnsureText, ChainOk;
    ChoppedIs(hash, a);
    EnsureMakesFresh(None);
    EmptyChain(hash);
    AppendExtends(hash, None, a);
    assert [] + [RowCells(hash, a, GENESIS)] == [RowCells(hash, a, GENESIS)];
    SameLinesSameTable(Chopped(hash, a), AppendText(hash, None, a));
  }

  lemma EmptyChain(hash: string -> string)
    ensures ChainOk(hash, []) && LastHash([]) == GENESIS
  {
  }

  /** Two rows on one line are read as the first row with more cells behind it. */
  lemma TwoRowsOnOneLine(hash: string -> string, a: Record, b: Record, p: string, q: string)
    requires Digests(hash) && HashCell(p) && HashCell(q) && Clean(a) && Clean(b)
    ensures var line := FormatRow(hash, a, p) + FormatRow(hash, b, q);
      "| " <= line && IsRow(line) && OneLine(line) &&
        SplitRow(line) == RowCells(hash, a, p) + [""] + RowCells(hash, b, q)
  {
    CleanRowLinks(hash, a, p);
    CleanRowLinks(hash, b, q);
    PrintedRow(hash, a, p);
    PrintedRow(hash, b, q);
    DoubleRow(RowCells(hash, a, p), RowCells(hash, b, q));
    var line := FormatRow(hash, a, p) + FormatRow(hash, b, q);
    if TABLE_HEADER <= Strip(line) || TABLE_DIVIDER <= Strip(line) {
      TitleCells(line);
      NoTitle(hash, a, p, line);
    }
  }

  lemma DoubleRow(a: seq<string>, b: seq<string>)
    requires a != [] && b != []
    ensures var line := RowText(a) + RowText(b);
      && "| " <= line && "|" <= Strip(line)
      && SplitRow(line) == SplitRow(RowText(a)) + [""] + SplitRow(RowText(b))
  {
    hide SplitRow, Split, SplitAll, RowText, Inner, Padded, Strip;
    RowShape(a);
    RowShape(b);
    var inner := Inner(a) + "|" + "" + "|" + Inner(b);
    var line := RowText(a) + RowText(b);
    assert line == ['|'] + inner + ['|'];
    Interior(a);
    Interior(b);
    SplitInterior(inner);
    SplitConcat(Inner(a) + "|" + "", Inner(b));
    SplitConcat(Inner(a), "");
    SplitNoBar("");
    StripConcat(Split(Inner(a)), Split(""), Split(Inner(b)));
  }

  lemma Interior(cells: seq<string>)
    requires cells != []
    ensures Inner(cells) != "" && Inner(cells)[0] == ' ' && Inner(cells)[|Inner(cells)| - 1] == ' '
  {
    PadJoin(cells);
  }

  lemma SplitInterior(inner: string)
    requires inner != "" && inner[0] == ' ' && inner[|inner| - 1] == ' '
    ensures var line := ['|'] + inner + ['|'];
      "|" <= Strip(line) && SplitRow(line) == StripAll(Split(inner))
  {
    hide Split, StripAll;
    var line := ['|'] + inner + ['|'];
    StripFacts(line, IsSpace);
    StripPadded(inner, '|', '|', IsBar);
    StripFacts(inner, IsBar);
  }

  lemma StripConcat(a: seq<string>, b: seq<string>, c: seq<string>)
    requires b == [""]
    ensures StripAll(a + b + c) == StripAll(a) + [""] + StripAll(c)
  {
    assert Strip("") == "";
  }

  /**
    Without the final newline the next record is glued to the last row and lost: the append reports
    success, the chain still verifies, and no reader sees the record.
  */
  lemma MissingNewlineLosesRecord(hash: string -> string, a: Record, b: Record)
    requires Digests(hash) && Clean(a) && Clean(b)
    ensures var file, after := Some(Chopped(hash, a)), Some(AppendText(hash, Some(Chopped(hash, a)), b));
      && |RowsOf(file)| == |RowsOf(after)| == 1
      && ChainOk(hash, RowsOf(file)) && ChainOk(hash, RowsOf(after))
      && StatusMap(RowsOf(after)) == StatusMap(RowsOf(file))
      && !Seen(hash, file, b)
  {
    hide FormatRow, SplitLines, RowCells, Clean, RecordHash, Chopped, EnsureText, Section, SplitRow, Printable;
    hide StatusMap, DataRows, RowLinked, SectionIsLast, OneLine, NewLines;
    var text := Chopped(hash, a);
    ChoppedIs(hash, a);
    ChoppedIsLeft(hash, a);
    GenesisClean();
    CleanRowLinks(hash, a, GENESIS);
    var rows := RowsOf(Some(text));
    var prev := LastHash(rows);
    ParsedHashCell(text);
    TwoRowsOnOneLine(hash, a, b, GENESIS, prev);
    var line := FormatRow(hash, a, GENESIS) + FormatRow(hash, b, prev);
    PrintableIfClean(b);
    RowLines(hash, b, prev);
    LinesAfter(text, FormatRow(hash, b, prev));
    LedEnd(FormatRow(hash, b, prev));
    var after := AppendText(hash, Some(text), b);
    assert after == text + (FormatRow(hash, b, prev) + "\n");
    assert SplitLines(after) == SplitLines(EnsureText(None)) + [line] by {
      assert [line] + [] == [line];
    }
    GluedSection(SplitLines(EnsureText(None)), line);
    ChainSnoc(hash, [], RowCells(hash, a, GENESIS));
    ChainSnoc(hash, [], SplitRow(line));
    OneRow(hash, RowCells(hash, a, GENESIS), RowCells(hash, b, prev));
    assert [] + [RowCells(hash, a, GENESIS)] == [RowCells(hash, a, GENESIS)] &&
      [] + [SplitRow(line)] == [SplitRow(line)];
  }

  lemma PrintableIfClean(r: Record)
    requires Clean(r)
    ensures Printable(r)
  {
  }

  lemma GluedSection(lines: seq<string>, line: string)
    requires SectionIsLast(lines) && DataRows(Section(lines)) == [] && IsRow(line) && "| " <= line
    ensures DataRows(Section(lines + [line])) == [SplitRow(line)]
  {
    AppendToSection(lines, line);
    DataRowsSnoc(Section(lines), line);
  }

  lemma OneRow(hash: string -> string, a: Cells, b: Cells)
    requires RowLinked(hash, a, GENESIS)
    ensures RowLinked(hash, a + [""] + b, GENESIS)
    ensures StatusMap([a + [""] + b]) == StatusMap([a])
  {
    assert [a][..0] == [] && [a + [""] + b][..0] == [];
    assert StatusMap([]) == map[];
  }

  // ----- A broken ledger stays broken -----

  /** A ready ledger whose table is there: the set-up step never touches its lines again. */
  predicate Tabled(text: string) {
    EndsWithNewline(text) && Contains(text, SECTION_HEADER) && TabledLines(SplitLines(text))
  }

  predicate TabledLines(lines: seq<string>) {
    HasTable(lines) && EnsuredTable(lines, FirstStart(lines) + 1)
  }

  lemma {:induction false} FindTableExtends(lines: seq<string>, more: seq<string>, i: nat, header: Option<nat>)
    requires i <= |lines| && FindTable(lines, i, header).Some?
    ensures FindTable(lines + more, i, header) == FindTable(lines, i, header)
    decreases |lines| - i
  {
    if !(DividerLike(lines[i]) && !HeaderLike(lines[i]) && header.Some?) {
      FindTableExtends(lines, more, i + 1, if HeaderLike(lines[i]) then Some(i) else header);
    }
  }

  lemma TabledIsLeft(text: string)
    requires Tabled(text)
    ensures EnsureText(Some(text)) == text
  {
    hide SplitLines, Contains, FindTable, FirstStart;
  }

  lemma AppendsLine(hash: string -> string, text: string, r: Record)
    requires Tabled(text)
    ensures AppendText(hash, Some(text), r) == text + (FormatRow(hash, r, LastHash(RowsOf(Some(text)))) + "\n")
  {
    hide Tabled, EnsureText, FormatRow, RowsOf;
    TabledIsLeft(text);
  }

  lemma TabledLinesGrow(lines: seq<string>, more: seq<string>)
    requires TabledLines(lines)
    ensures TabledLines(lines + more)
    ensures DataRows(Section(lines)) <= DataRows(Section(lines + more))
  {
    assert FirstStart(lines) + 1 <= |lines|;
    hide FindTable, FirstStart, Section, SectionIsLast, DataRows, EnsuredTable, FirstStop;
    SectionExtends(lines, more);
    TableExtends(lines, more, FirstStart(lines) + 1);
    RowsExtend(lines, more);
  }

  /** Lines added at the end leave the table and the rows before them alone. */
  lemma TabledGrows(text: string, tail: string)
    requires Tabled(text) && EndsWithNewline(tail)
    ensures Tabled(text + tail)
    ensures RowsOf(Some(text)) <= RowsOf(Some(text + tail))
  {
    hide SplitLines, Contains, TabledLines, DataRows, Section;
    var lines, more := SplitLines(text), SplitLines(tail);
    SplitLinesConcat(text, tail);
    TabledLinesGrow(lines, more);
    TabledLinesHaveSection(lines + more);
    HeadingContained(text + tail, lines + more);
  }

  lemma TabledLinesHaveSection(lines: seq<string>)
    requires TabledLines(lines)
    ensures HasSection(lines)
  {
  }

  /** Whatever record is appended, the table stays and the rows read before are still read first. */
  lemma TabledExtends(hash: string -> string, text: string, r: Record)
    requires Digests(hash) && Tabled(text)
    ensures Tabled(AppendText(hash, Some(text), r))
    ensures RowsOf(Some(text)) <= RowsOf(Some(AppendText(hash, Some(text), r)))
  {
    hide Tabled, AppendText, FormatRow, RowsOf;
    AppendsLine(hash, text, r);
    TabledGrows(text, FormatRow(hash, r, LastHash(RowsOf(Some(text)))) + "\n");
  }

  lemma TableExtends(lines: seq<string>, more: seq<string>, i: nat)
    requires i <= |lines| && FindTable(lines, i, None).Some? && EnsuredTable(lines, i)
    ensures FindTable(lines + more, i, None).Some? && EnsuredTable(lines + more, i)
  {
    hide FindTable;
    FindTableExtends(lines, more, i, None);
    FindTableFacts(lines, i, None);
  }

  lemma RowsExtend(lines: seq<string>, more: seq<string>)
    requires HasSection(lines)
    ensures DataRows(Section(lines)) <= DataRows(Section(lines + more))
  {
    hide FirstStart, Section, HasSection, SectionIsLast;
    SectionExtends(lines, more);
    DataRowsConcat(Section(lines), more[..FirstStop(more)]);
  }

  /** Once the chain is broken no append mends it. */
  lemma {:induction false} StaysBroken(hash: string -> string, text: string, rs: seq<Record>)
    requires Digests(hash) && Tabled(text) && !ChainOk(hash, RowsOf(Some(text)))
    ensures var after := AppendAll(hash, Some(text), rs);
      after.Some? && Tabled(after.value) && !ChainOk(hash, RowsOf(after))
  {
    hide Tabled, ChainOk, RowsOf, AppendText;
    if rs != [] {
      StaysBroken(hash, text, rs[..|rs| - 1]);
      var before := AppendAll(hash, Some(text), rs[..|rs| - 1]).value;
      TabledExtends(hash, before, rs[|rs| - 1]);
      BrokenPrefix(hash, RowsOf(Some(before)), RowsOf(Some(AppendText(hash, Some(before), rs[|rs| - 1]))));
    }
  }

  lemma BrokenPrefix(hash: string -> string, rows: seq<Cells>, all: seq<Cells>)
    requires rows <= all && !ChainOk(hash, rows)
    ensures !ChainOk(hash, all)
  {
    if ChainOk(hash, all) {
      assert all == rows + all[|rows|..];
      ChainPrefix(hash, rows, all[|rows|..]);
    }
  }

  lemma {:induction false} AppendAllConcat(hash: string -> string, file: Option<string>, a: seq<Record>, b: seq<Record>)
    ensures AppendAll(hash, file, a + b) == AppendAll(hash, AppendAll(hash, file, a), b)
  {
    hide AppendText;
    if b == [] {
      assert a + b == a;
    } else {
      AppendAllConcat(hash, file, a, b[..|b| - 1]);
      assert (a + b)[..|a + b| - 1] == a + b[..|b| - 1];
    }
  }

  /** A sound ledger whose table is in place: a file that does not exist gets one with its first record. */
  predicate SoundTable(hash: string -> string, file: Option<string>) {
    Sound(hash, file) && (file.Some? ==> Tabled(file.value))
  }

  lemma FreshIsTabled()
    ensures Tabled(EnsureText(None))
  {
    EnsureMakesFresh(None);
  }

  /**
    One record that is not clean breaks a sound ledger for good: whatever else is appended before the
    ledger is repaired, it does not verify.
  */
  lemma UncleanBreaksForGood(hash: string -> string, file: Option<string>, rs: seq<Record>, k: nat)
    requires Digests(hash) && SoundTable(hash, file)
    requires k < |rs| && !Clean(rs[k]) && forall i :: 0 <= i < k ==> Clean(rs[i])
    requires var prev := LastHash(RowsOf(AppendAll(hash, file, rs[..k])));
      NeverMentions(rs[k], prev) && NoCollision(hash, rs[k], prev)
    ensures !ChainOk(hash, RowsOf(AppendAll(hash, file, rs)))
  {
    hide Clean, ChainOk, RowsOf, AppendText, Tabled, Sound, SoundTable, NeverMentions, NoCollision, AppendAll;
    CleanKeepsTable(hash, file, rs[..k]);
    OneUncleanBreaks(hash, AppendAll(hash, file, rs[..k]), rs[k]);
    AppendAllSnoc(hash, file, rs[..k], rs[k]);
    assert rs == (rs[..k] + [rs[k]]) + rs[k + 1..];
    AppendAllConcat(hash, file, rs[..k] + [rs[k]], rs[k + 1..]);
    StaysBroken(hash, AppendText(hash, AppendAll(hash, file, rs[..k]), rs[k]), rs[k + 1..]);
  }

  lemma OneUncleanBreaks(hash: string -> string, file: Option<string>, r: Record)
    requires Digests(hash) && SoundTable(hash, file) && !Clean(r)
    requires NeverMentions(r, LastHash(RowsOf(file))) && NoCollision(hash, r, LastHash(RowsOf(file)))
    ensures Tabled(AppendText(hash, file, r)) && !ChainOk(hash, RowsOf(Some(AppendText(hash, file, r))))
  {
    hide Clean, Ready, ChainOk, EnsureText, RowsOf, AppendText, Tabled, NeverMentions, NoCollision, Open, Sound;
    SoundIsEnsured(hash, file);
    SoundIsOpen(hash, file);
    AppendVerifiesIffClean(hash, file, r);
    AppendKeepsTable(hash, file, r);
  }

  lemma AppendAllSnoc(hash: string -> string, file: Option<string>, rs: seq<Record>, r: Record)
    ensures AppendAll(hash, file, rs + [r]) == Some(AppendText(hash, AppendAll(hash, file, rs), r))
  {
    assert (rs + [r])[..|rs + [r]| - 1] == rs;
  }

  lemma SoundIsOpen(hash: string -> string, file: Option<string>)
    requires Sound(hash, file)
    ensures Open(EnsureText(file)) && ChainOk(hash, RowsOf(Some(EnsureText(file))))
  {
    SoundIsEnsured(hash, file);
    ReadyIsOpen(EnsureText(file));
  }

  lemma AppendKeepsTable(hash: string -> string, file: Option<string>, r: Record)
    requires Digests(hash) && (file.Some? ==> Tabled(file.value))
    ensures Tabled(AppendText(hash, file, r))
  {
    if file.Some? {
      TabledExtends(hash, file.value, r);
    } else {
      FreshIsTabled();
      TabledIsLeft(EnsureText(None));
      TabledExtends(hash, EnsureText(None), r);
      assert AppendText(hash, None, r) == AppendText(hash, Some(EnsureText(None)), r);
    }
  }

  lemma {:induction false} CleanKeepsTable(hash: string -> string, file: Option<string>, rs: seq<Record>)
    requires Digests(hash) && SoundTable(hash, file) && forall r :: r in rs ==> Clean(r)
    ensures SoundTable(hash, AppendAll(hash, file, rs))
  {
    hide Clean, Tabled, AppendText, Sound;
    HistoryVerifies(hash, file, rs);
    TableKept(hash, file, rs);
  }

  lemma {:induction false} TableKept(hash: string -> string, file: Option<string>, rs: seq<Record>)
    requires Digests(hash) && (file.Some? ==> Tabled(file.value))
    ensures AppendAll(hash, file, rs).Some? ==> Tabled(AppendAll(hash, file, rs).value)
  {
    hide Tabled, AppendText;
    if rs != [] {
      TableKept(hash, file, rs[..|rs| - 1]);
      AppendKeepsTable(hash, AppendAll(hash, file, rs[..|rs| - 1]), rs[|rs| - 1]);
    }
  }
}
