/**
  Exactly when an appended record is seen by the ledger's readers, and exactly when the chain still
  verifies with it (prompt_engine/ledger_updater.py, append_execution and verify_hash_chain).
*/
module LedgerVisible {
  import opened Wrappers
  import opened PyText
  import opened LedgerRow
  import opened LedgerFormat
  import opened LedgerChain
  import opened LedgerSection
  import opened LedgerSetup
  import opened LedgerAppend
  import opened LedgerPieces
  import opened LedgerLines

  /** The text ends in a line break, or its unterminated last line is blank. */
  predicate NextLineFresh(text: string) { Strip(Lead(text)) == "" }

  /** The readers see the record as one more row, with the cells of the row that was printed. */
  predicate Seen(hash: string -> string, file: Option<string>, r: Record) {
    var rows := RowsOf(Some(EnsureText(file)));
    RowsOf(Some(AppendText(hash, file, r))) == rows + [SplitRow(FormatRow(hash, r, LastHash(rows)))]
  }

  // ----- The lines after an append -----

  lemma ParsedHashCell(text: string)
    ensures HashCell(LastHash(RowsOf(Some(text))))
  {
    LinesAreOneLine(text);
    GenesisClean();
    RowsAreClean(Section(SplitLines(text)));
    var rows := RowsOf(Some(text));
    if rows != [] && |rows[|rows| - 1]| >= 11 {
      assert rows[|rows| - 1] in rows && rows[|rows| - 1][10] in rows[|rows| - 1];
    }
  }

  lemma {:induction false} RowsAreClean(lines: seq<string>)
    requires forall l :: l in lines ==> OneLine(l)
    ensures forall row, c :: row in DataRows(lines) && c in row ==> HashCell(c)
  {
    if lines != [] {
      RowsAreClean(lines[..|lines| - 1]);
      ParsedCellsClean(lines[|lines| - 1]);
    }
  }

  /** Appending a printed row continues the unterminated line, if any, and may make more lines. */
  lemma LinesAfter(text: string, row: string)
    requires "| " <= row
    ensures SplitLines(text + (row + "\n"))
         == Terminated(text) + ([Lead(text) + FirstLine(row + "\n")] + LaterLines(row + "\n"))
    ensures SplitLines(text) == Terminated(text) + (if Lead(text) == "" then [] else [Lead(text)])
  {
    hide SplitLines, FirstLine, LaterLines, EndsLine;
    AppendedLines(text, row + "\n");
    LeadIsOneLine(text);
    LinesOfLed(Lead(text), row + "\n");
  }

  lemma LeadIsOneLine(text: string)
    ensures OneLine(Lead(text))
    ensures SplitLines(text) == Terminated(text) + (if Lead(text) == "" then [] else [Lead(text)])
  {
    LinesAreOneLine(text);
    SplitLinesNonempty(text);
  }

  // ----- Growing a section -----

  lemma SectionExtends(lines: seq<string>, more: seq<string>)
    requires HasSection(lines)
    ensures HasSection(lines + more) && FirstStart(lines + more) == FirstStart(lines)
    ensures SectionIsLast(lines) ==> Section(lines + more) == Section(lines) + more[..FirstStop(more)]
    ensures !SectionIsLast(lines) ==> Section(lines + more) == Section(lines)
    ensures SectionIsLast(lines + more) <==> SectionIsLast(lines) && FirstStop(more) == |more|
  {
    hide IsSectionStart, IsSectionStop, FirstStart, FirstStop, SectionEnd, Section;
    SplitAtSection(lines);
    var s, e := FirstStart(lines), SectionEnd(lines);
    if e == |lines| {
      assert lines[e..] == [];
      GrownSection(lines[..s], lines[s], Section(lines), more);
      assert lines == lines[..s] + [lines[s]] + Section(lines);
    } else {
      EndedSection(lines[..s], lines[s], Section(lines), lines[e..], more);
    }
  }

  lemma GrownSection(before: seq<string>, heading: string, body: seq<string>, more: seq<string>)
    requires forall l :: l in before ==> !IsSectionStart(l)
    requires IsSectionStart(heading)
    requires forall l :: l in body ==> !IsSectionStop(l)
    ensures var all := before + [heading] + body + more;
      && HasSection(all) && FirstStart(all) == |before| && Section(all) == body + more[..FirstStop(more)]
      && (SectionIsLast(all) <==> FirstStop(more) == |more|)
  {
    hide IsSectionStart, IsSectionStop, FirstStart, FirstStop, SectionEnd, Section;
    hide SectionIsLast, HasSection;
    var m := FirstStop(more);
    Spliced(before, heading, body, more, m);
    SectionIs(before, heading, body + more[..m], more[m..]);
    LastIff(before + [heading] + body + more, |before| + 1 + |body| + m);
  }

  lemma Spliced(before: seq<string>, heading: string, body: seq<string>, more: seq<string>, m: nat)
    requires m <= |more|
    ensures before + [heading] + body + more == before + [heading] + (body + more[..m]) + more[m..]
  {
  }

  lemma LastIff(lines: seq<string>, e: nat)
    requires HasSection(lines) && SectionEnd(lines) == e
    ensures SectionIsLast(lines) <==> e == |lines|
  {
  }

  lemma EndedSection(before: seq<string>, heading: string, body: seq<string>, after: seq<string>, more: seq<string>)
    requires forall l :: l in before ==> !IsSectionStart(l)
    requires IsSectionStart(heading)
    requires forall l :: l in body ==> !IsSectionStop(l)
    requires after != [] && IsSectionStop(after[0])
    ensures var all := before + [heading] + body + after + more;
      HasSection(all) && FirstStart(all) == |before| && Section(all) == body && !SectionIsLast(all)
  {
    hide IsSectionStart, IsSectionStop, FirstStart, FirstStop, SectionEnd, Section;
    SectionIs(before, heading, body, after + more);
    assert before + [heading] + body + after + more == before + [heading] + body + (after + more);
  }

  /** Without a heading among the first lines, the section and its rows come from the later ones. */
  lemma SectionAmong(lines: seq<string>, more: seq<string>)
    requires forall l :: l in lines ==> !IsSectionStart(l)
    ensures forall l :: l in Section(lines + more) ==> l in more
  {
    var all := lines + more;
    if HasSection(all) {
      var s := FirstStart(all);
      forall k | 0 <= k < |lines| ensures !IsSectionStart(all[k]) {
        assert all[k] in lines;
      }
      forall l | l in Section(all) ensures l in more {
        var k :| 0 <= k < |Section(all)| && Section(all)[k] == l;
        assert l == all[s + 1 + k] == more[s + 1 + k - |lines|];
      }
    }
  }

  predicate ShortRows(rows: seq<Cells>, n: nat) {
    forall row :: row in rows ==> |row| < n
  }

  lemma {:induction false} ShorterRows(lines: seq<string>, n: nat)
    requires forall l :: l in lines && IsRow(l) ==> |SplitRow(l)| < n
    ensures ShortRows(DataRows(lines), n)
  {
    if lines != [] {
      ShorterRows(lines[..|lines| - 1], n);
      assert lines[|lines| - 1] in lines;
    }
  }

  /** A section followed by other text: one line more and then lines whose rows are all shorter. */
  lemma OneMoreRow(section: seq<string>, first: string, later: seq<string>)
    ensures DataRows(section + ([first] + later))
         == DataRows(section) + (if IsRow(first) then [SplitRow(first)] else []) + DataRows(later)
  {
    assert section + ([first] + later) == section + [first] + later;
    DataRowsConcat(section + [first], later);
    DataRowsSnoc(section, first);
  }

  // ----- The first new line -----

  lemma LedLine(lead: string, first: string)
    requires "| " <= first && IsRow(first)
    ensures !IsSectionStop(lead) ==> !IsSectionStop(lead + first)
    ensures IsSectionStop(lead) ==> IsSectionStop(lead + first)
    ensures Strip(lead) == "" ==>
      IsRow(lead + first) && SplitRow(lead + first) == SplitRow(first) && !IsSectionStop(lead)
    ensures !IsSectionStart(lead + first)
  {
    var all := lead + first;
    assert all[|lead|] == '|' && (|lead| >= 3 ==> all[..3] == lead[..3]);
    if Strip(lead) == "" {
      BlankLead(lead, first);
      if lead != "" {
        AllDropped(lead, IsSpace);
        assert lead[0] in lead;
      }
    }
    NoBarInHeading(all);
  }

  lemma NoBarInHeading(line: string)
    requires '|' in line
    ensures !IsSectionStart(line)
  {
    StripFacts(line, IsSpace);
    HeadingHasNoBar();
  }

  lemma HeadingHasNoBar()
    ensures '|' !in SECTION_HEADER
  {
  }

  /** A row glued to the table's header or divider is still not read as the row that was printed. */
  lemma GluedToTitle(hash: string -> string, r: Record, prev: string, lead: string, first: string)
    requires !IsRow(lead) && Strip(lead) != "" && "| " <= first && IsRow(lead + first)
    ensures SplitRow(lead + first) != SplitRow(FormatRow(hash, r, prev))
  {
    TrimLeftOver(lead, first, IsSpace);
    LeftNotEmpty(lead);
    var t := TrimLeft(lead, IsSpace);
    TrimRightFacts(t, IsSpace);
    TrimRightStopsAt(t + first, t + "|", IsSpace);
    assert Strip(lead) <= t <= Strip(lead + first);
    assert "|" <= Strip(lead);
    TitleCells(lead + first);
    NoTitle(hash, r, prev, lead + first);
  }

  lemma LeftNotEmpty(s: string)
    requires Strip(s) != ""
    ensures TrimLeft(s, IsSpace) != ""
  {
  }

  // ----- When the new line is seen -----

  /** What is known of the lines an appended row makes: its first line, and shorter ones if the row was broken. */
  ghost predicate NewLines(cells: Cells, first: string, later: seq<string>, whole: bool) {
    && "| " <= first && IsRow(first)
    && (forall x :: x in later && IsRow(x) ==> |SplitRow(x)| < |cells|)
    && (if whole then SplitRow(first) == cells && later == [] else |SplitRow(first)| < |cells|)
  }

  function Unterminated(lead: string): seq<string> { if lead == "" then [] else [lead] }

  lemma ShortNeverLast(rows: seq<Cells>, more: seq<Cells>, cells: Cells)
    requires ShortRows(more, |cells|) && more != []
    ensures forall base :: rows + more != base + [cells]
  {
    assert (rows + more)[|rows + more| - 1] == more[|more| - 1];
    assert more[|more| - 1] in more;
    forall base: seq<Cells> ensures rows + more != base + [cells] {
      assert (base + [cells])[|base + [cells]| - 1] == cells;
    }
  }

  lemma PartShort(later: seq<string>, m: nat, n: nat)
    requires m <= |later| && forall x :: x in later && IsRow(x) ==> |SplitRow(x)| < n
    ensures ShortRows(DataRows(later[..m]), n)
  {
    ShorterRows(later[..m], n);
  }

  /** After a terminated or blank last line. */
  lemma FreshLineSeen(cells: Cells, pre: seq<string>, lead: string, first: string, later: seq<string>, whole: bool)
    requires NewLines(cells, first, later, whole) && HasSection(pre + Unterminated(lead)) && Strip(lead) == ""
    ensures var rows := DataRows(Section(pre + Unterminated(lead)));
      && var rows' := DataRows(Section(pre + ([lead + first] + later)));
      && (rows' == rows + [cells] <==> whole && SectionIsLast(pre + Unterminated(lead)))
      && (SectionIsLast(pre + Unterminated(lead)) ==> rows + [SplitRow(first)] <= rows')
  {
    hide IsRow, SplitRow, Strip, FirstStart, Section, SectionEnd, IsSectionStop, IsSectionStart, FirstStop;
    LedLine(lead, first);
    HeadingNotBlank(pre, lead);
    SectionExtends(pre, Unterminated(lead));
    SectionExtends(pre, [lead + first] + later);
    BlankNoRow(lead);
    StopAfterFirst(lead + first, later);
    var R := DataRows(Section(pre));
    if SectionIsLast(pre) {
      NoStopAlone(lead);
      if lead != "" {
        DataRowsSnoc(Section(pre), lead);
      } else {
        assert Section(pre) + [] == Section(pre);
      }
      var m := FirstStop(later);
      OneMoreRow(Section(pre), lead + first, later[..m]);
      if whole {
        assert later[..m] == [];
        assert R + [cells] + [] == R + [cells];
      } else {
        assert (R + [SplitRow(first)] + DataRows(later[..m]))[|R|] == SplitRow(first);
      }
    } else {
      NotOneMore(R, cells);
    }
  }

  lemma NotOneMore(rows: seq<Cells>, cells: Cells)
    ensures rows != rows + [cells]
  {
    assert |rows| != |rows + [cells]|;
  }

  lemma HeadingNotBlank(pre: seq<string>, lead: string)
    requires HasSection(pre + Unterminated(lead)) && Strip(lead) == ""
    ensures HasSection(pre)
  {
    HeadingNonempty();
    NotHeadingPrefix(pre, lead);
  }

  lemma HeadingNonempty()
    ensures SECTION_HEADER != ""
  {
  }

  lemma NotHeadingPrefix(pre: seq<string>, lead: string)
    requires HasSection(pre + Unterminated(lead)) && !IsSectionStart(lead)
    ensures HasSection(pre) && FirstStart(pre) == FirstStart(pre + Unterminated(lead))
  {
    var all := pre + Unterminated(lead);
    var s := FirstStart(all);
    assert IsSectionStart(all[s]);
    assert s < |pre|;
    forall k | 0 <= k < s ensures !IsSectionStart(pre[k]) {
      assert all[k] == pre[k];
    }
    FirstStartIs(pre, s);
  }

  lemma BlankNoRow(lead: string)
    requires Strip(lead) == ""
    ensures !IsRow(lead)
  {
  }

  lemma StopAfterFirst(x: string, later: seq<string>)
    requires !IsSectionStop(x)
    ensures FirstStop([x] + later) == 1 + FirstStop(later)
    ensures ([x] + later)[..1 + FirstStop(later)] == [x] + later[..FirstStop(later)]
  {
    assert ([x] + later)[1..] == later;
  }

  lemma NoStopAlone(lead: string)
    ensures !IsSectionStop(lead) ==> FirstStop(Unterminated(lead)) == |Unterminated(lead)|
    ensures !IsSectionStop(lead) ==> Unterminated(lead)[..FirstStop(Unterminated(lead))] == Unterminated(lead)
    ensures IsSectionStop(lead) && lead != "" ==> FirstStop(Unterminated(lead)) == 0
  {
    if lead != "" {
      assert [lead][1..] == [];
    }
  }

  /** Glued to an unterminated line that is not blank, the record is never read as printed. */
  lemma GluedLineLost(hash: string -> string, r: Record, prev: string, pre: seq<string>, lead: string,
                      first: string, later: seq<string>, whole: bool)
    requires NewLines(SplitRow(FormatRow(hash, r, prev)), first, later, whole)
    requires HasSection(pre) && Strip(lead) != ""
    ensures DataRows(Section(pre + ([lead + first] + later)))
         != DataRows(Section(pre + Unterminated(lead))) + [SplitRow(FormatRow(hash, r, prev))]
  {
    hide IsRow, SplitRow, Strip, FirstStart, Section, SectionEnd, IsSectionStop, IsSectionStart, FirstStop, FormatRow;
    var cells := SplitRow(FormatRow(hash, r, prev));
    LedLine(lead, first);
    if HasSection(pre) {
      SectionExtends(pre, Unterminated(lead));
      SectionExtends(pre, [lead + first] + later);
      NotOneMore(DataRows(Section(pre)), cells);
      if SectionIsLast(pre) {
        NoStopAlone(lead);
        BlankStripsToNothing(lead);
        if IsSectionStop(lead) {
          StopFirst(lead + first, later);
          assert Unterminated(lead)[..0] == ([lead + first] + later)[..0] == [];
        } else {
          GluedRow(hash, r, prev, Section(pre), lead, first, later, whole);
          StopAfterFirst(lead + first, later);
        }
      }
    }
  }

  lemma BlankStripsToNothing(lead: string)
    ensures Strip(lead) != "" ==> lead != ""
  {
  }

  lemma StopFirst(x: string, later: seq<string>)
    requires IsSectionStop(x)
    ensures FirstStop([x] + later) == 0
  {
  }

  lemma GluedRow(hash: string -> string, r: Record, prev: string, section: seq<string>, lead: string,
                 first: string, later: seq<string>, whole: bool)
    requires NewLines(SplitRow(FormatRow(hash, r, prev)), first, later, whole) && Strip(lead) != ""
    ensures DataRows(section + ([lead + first] + later[..FirstStop(later)]))
         != DataRows(section + Unterminated(lead)) + [SplitRow(FormatRow(hash, r, prev))]
  {
    hide IsRow, SplitRow, Strip, FirstStop, FormatRow, IsSectionStop;
    var cells := SplitRow(FormatRow(hash, r, prev));
    var R, m := DataRows(section), FirstStop(later);
    OneMoreRow(section, lead + first, later[..m]);
    BlankStripsToNothing(lead);
    DataRowsSnoc(section, lead);
    PartShort(later, m, |cells|);
    var x := if IsRow(lead + first) then [SplitRow(lead + first)] else [];
    if DataRows(later[..m]) != [] {
      ShortNeverLast(R + x, DataRows(later[..m]), cells);
    } else {
      assert R + x + [] == R + x;
      if IsRow(lead + first) && !IsRow(lead) {
        GluedToTitle(hash, r, prev, lead, first);
        assert (R + x)[|R|] == SplitRow(lead + first);
      }
    }
  }

  lemma NoSectionBefore(cells: Cells, pre: seq<string>, lead: string, first: string, later: seq<string>)
    requires !HasSection(pre) && !IsSectionStart(lead + first)
    requires forall x :: x in later && IsRow(x) ==> |SplitRow(x)| < |cells|
    ensures Section(pre + Unterminated(lead)) == []
    ensures DataRows(Section(pre + ([lead + first] + later))) != [cells]
  {
    forall l | l in pre + [lead + first] ensures !IsSectionStart(l) {
      if l in pre {
        var k :| 0 <= k < |pre| && pre[k] == l;
      }
    }
    assert pre + ([lead + first] + later) == (pre + [lead + first]) + later;
    SectionAmong(pre + [lead + first], later);
    ShorterRows(Section(pre + ([lead + first] + later)), |cells|);
    var rows' := DataRows(Section(pre + ([lead + first] + later)));
    if rows' != [] {
      ShortNeverLast([], rows', cells);
      assert [] + rows' == rows' && [] + [cells] == [cells];
    }
    HeadingAtEnd(pre, lead);
  }

  lemma HeadingAtEnd(pre: seq<string>, lead: string)
    requires !HasSection(pre)
    ensures Section(pre + Unterminated(lead)) == []
  {
    var all := pre + Unterminated(lead);
    forall k | 0 <= k < |pre| ensures !IsSectionStart(all[k]) {
      assert all[k] == pre[k];
    }
    if HasSection(all) {
      assert FirstStart(all) == |pre|;
      assert all[FirstStart(all) + 1..] == [];
    }
  }

  /**
    The record is seen exactly when its fields stay on one line, the status section is the last one,
    and the file's last line is terminated or blank - for every file and every record.
  */
  lemma AppendSeenIff(hash: string -> string, file: Option<string>, r: Record)
    requires Digests(hash)
    ensures Seen(hash, file, r) <==>
      Printable(r) && SectionIsLast(SplitLines(EnsureText(file))) && NextLineFresh(EnsureText(file))
  {
    hide FormatRow, SplitRow, SplitLines, Lead, Terminated, FirstLine, LaterLines, Section, EnsureText, NewLines;
    hide Printable, Strip, DataRows;
    var text := EnsureText(file);
    var prev := LastHash(RowsOf(Some(text)));
    var row := FormatRow(hash, r, prev);
    var first, later := FirstLine(row + "\n"), LaterLines(row + "\n");
    var pre, lead := Terminated(text), Lead(text);
    ParsedHashCell(text);
    RowLines(hash, r, prev);
    LinesAfter(text, row);
    if !HasSection(pre + Unterminated(lead)) || (Strip(lead) != "" && !HasSection(pre)) {
      NeverStart(lead, first);
      EarlierNoSection(pre, lead);
      NoSectionBefore(SplitRow(row), pre, lead, first, later);
      assert DataRows([]) + [SplitRow(row)] == [SplitRow(row)] by { NoRows(); }
    } else if Strip(lead) == "" {
      FreshLineSeen(SplitRow(row), pre, lead, first, later, Printable(r));
    } else {
      GluedLineLost(hash, r, prev, pre, lead, first, later, Printable(r));
    }
  }

  lemma NoRows()
    ensures DataRows([]) == []
  {
  }

  lemma NeverStart(lead: string, first: string)
    requires "| " <= first
    ensures !IsSectionStart(lead + first)
  {
    assert (lead + first)[|lead|] == '|';
    NoBarInHeading(lead + first);
  }

  lemma EarlierNoSection(pre: seq<string>, lead: string)
    ensures !HasSection(pre + Unterminated(lead)) ==> !HasSection(pre)
  {
    if HasSection(pre) {
      SectionExtends(pre, Unterminated(lead));
    }
  }

  /** What the two halves of an appended row are like, for every record. */
  lemma RowLines(hash: string -> string, r: Record, prev: string)
    requires Digests(hash) && HashCell(prev)
    ensures var row := FormatRow(hash, r, prev);
      && "| " <= row
      && NewLines(SplitRow(row), FirstLine(row + "\n"), LaterLines(row + "\n"), Printable(r))
      && (OneLine(row) <==> Printable(r))
  {
    var row := FormatRow(hash, r, prev);
    RowShape(BaseCells(r) + [prev, RecordHash(hash, r, prev)]);
    FirstLineIsRow(hash, r, prev);
    PrintableRow(hash, r, prev);
    forall x | x in LaterLines(row + "\n") && IsRow(x) ensures |SplitRow(x)| < |SplitRow(row)| {
      LaterLinesShorter(hash, r, prev, x);
    }
  }

  lemma PrintableRow(hash: string -> string, r: Record, prev: string)
    requires Digests(hash) && HashCell(prev)
    ensures OneLine(FormatRow(hash, r, prev)) <==> Printable(r)
  {
    hide RecordHash, IsLineBreak;
    var cells := BaseCells(r) + [prev, RecordHash(hash, r, prev)];
    if Printable(r) {
      PrintedRow(hash, r, prev);
    } else {
      var f :| f in TextFields(r) && !OneLine(Escape(f));
      var i :| 0 <= i < 7 && TextFields(r)[i] == f;
      var k := if i < 3 then i else i + 2;
      assert BaseCells(r)[k] == Escape(f);
      assert cells[k] == Escape(f);
      JoinHolds(" | ", cells, k);
      var c :| c in Escape(f) && IsLineBreak(c);
      assert c in Join(" | ", cells);
    }
  }

  lemma {:induction false} JoinHolds(sep: string, parts: seq<string>, k: nat)
    requires k < |parts|
    ensures forall c :: c in parts[k] ==> c in Join(sep, parts)
  {
    if |parts| > 1 && k > 0 {
      JoinHolds(sep, parts[1..], k - 1);
    }
  }
}
