/** The ledger updater's operations on its file (prompt_engine/ledger_updater.py, PromptLedgerUpdater). */
module LedgerUpdater {
  import opened Wrappers
  import opened PromptTypes
  import opened PyText
  import opened LedgerRow
  import opened LedgerFormat
  import opened LedgerChain
  import opened LedgerSection
  import opened LedgerSetup
  import opened LedgerAppend
  import opened LedgerRepair
  import LedgerVisible
  import LedgerReadBack
  import LedgerLinesKept

  /** Why verification fails, with the 1-based line of the status section. */
  datatype ChainError =
    | MissingColumns(line: nat)
    | PrevHashMismatch(line: nat, expected: string, got: string)
    | EntryHashMismatch(line: nat)

  /** A section's first broken line: the chain holds before it and not with it. */
  ghost predicate FirstBroken(hash: string -> string, section: seq<string>, line: nat) {
    && 1 <= line <= |section|
    && ChainOk(hash, DataRows(section[..line - 1]))
    && !ChainOk(hash, DataRows(section[..line]))
  }

  /** What one more line does to the rows read so far. */
  lemma RowsStep(section: seq<string>, i: nat)
    requires i < |section|
    ensures !IsRow(section[i]) ==> DataRows(section[..i + 1]) == DataRows(section[..i])
    ensures IsRow(section[i]) ==> DataRows(section[..i + 1]) == DataRows(section[..i]) + [SplitRow(section[i])]
  {
    assert section[..i + 1] == section[..i] + [section[i]];
    DataRowsSnoc(section[..i], section[i]);
  }

  lemma BrokenRows(hash: string -> string, rows: seq<Cells>, row: Cells, rest: seq<Cells>)
    requires !RowLinked(hash, row, LastHash(rows))
    ensures !ChainOk(hash, rows + [row]) && !ChainOk(hash, rows + [row] + rest)
  {
    ChainSnoc(hash, rows, row);
    if ChainOk(hash, rows + [row] + rest) {
      ChainPrefix(hash, rows + [row], rest);
    }
  }

  /** A row that is not linked breaks the chain at its line. */
  lemma BrokenStep(hash: string -> string, section: seq<string>, i: nat, rows: seq<Cells>, row: Cells)
    requires i < |section|
    requires rows == DataRows(section[..i])
    requires DataRows(section[..i + 1]) == rows + [row]
    requires !RowLinked(hash, row, LastHash(rows))
    ensures !ChainOk(hash, DataRows(section[..i + 1])) && !ChainOk(hash, DataRows(section))
  {
    RowsAround(section, i + 1);
    BrokenRows(hash, rows, row, DataRows(section[i + 1..]));
  }

  lemma LinkStep(hash: string -> string, rows: seq<Cells>, row: Cells)
    requires ChainOk(hash, rows)
    ensures ChainOk(hash, rows + [row]) <==> RowLinked(hash, row, LastHash(rows))
    ensures |row| >= 11 ==> LastHash(rows + [row]) == row[10]
  {
    ChainSnoc(hash, rows, row);
  }

  method LocateStatusSection(lines: seq<string>) returns (r: Option<(nat, nat)>)
    ensures r.Some? <==> HasSection(lines)
    ensures r.Some? ==> r.value == (FirstStart(lines), SectionEnd(lines))
  {
    hide IsSectionStart, IsSectionStop;
    var start := 0;
    while start < |lines| && !IsSectionStart(lines[start])
      invariant start <= |lines|
      invariant forall k :: 0 <= k < start ==> !IsSectionStart(lines[k])
    {
      start := start + 1;
    }
    FirstStartIs(lines, start);
    if start == |lines| {
      return None;
    }
    var end := start + 1;
    ghost var rest := lines[start + 1..];
    while end < |lines| && !IsSectionStop(lines[end])
      invariant start < end <= |lines|
      invariant forall k :: 0 <= k < end - start - 1 ==> !IsSectionStop(rest[k])
    {
      assert rest[end - start - 1] == lines[end];
      end := end + 1;
    }
    assert end < |lines| ==> rest[end - start - 1] == lines[end];
    FirstStopIs(rest, end - start - 1);
    return Some((start, end));
  }

  lemma SectionFromStart(lines: seq<string>, start: nat, n: nat)
    requires start < |lines| && FirstStart(lines) == start && FirstStop(lines[start + 1..]) == n
    ensures Section(lines) == lines[start + 1..][..n]
  {
    hide FirstStop, FirstStart;
    assert lines[start + 1..][..n] == lines[start + 1..start + 1 + n];
  }

  method ExtractStatusSection(text: string) returns (r: Option<seq<string>>)
    ensures r.Some? <==> HasSection(SplitLines(text))
    ensures r.Some? ==> r.value == Section(SplitLines(text))
  {
    hide IsSectionStart, IsSectionStop, SplitLines;
    var lines := SplitLines(text);
    var start := 0;
    while start < |lines| && !IsSectionStart(lines[start])
      invariant start <= |lines|
      invariant forall k :: 0 <= k < start ==> !IsSectionStart(lines[k])
    {
      start := start + 1;
    }
    FirstStartIs(lines, start);
    if start == |lines| {
      return None;
    }
    var rest := lines[start + 1..];
    var section: seq<string> := [];
    var i := 0;
    while i < |rest| && !IsSectionStop(rest[i])
      invariant i <= |rest| && section == rest[..i]
      invariant forall k :: 0 <= k < i ==> !IsSectionStop(rest[k])
    {
      assert rest[..i + 1] == rest[..i] + [rest[i]];
      section := section + [rest[i]];
      i := i + 1;
    }
    FirstStopIs(rest, i);
    SectionFromStart(lines, start, i);
    return Some(section);
  }

  class PromptLedgerUpdater {
    const hash: string -> string
    /** The ledger file's text; None while the file does not exist. */
    var file: Option<string>

    constructor (hash: string -> string, file: Option<string>)
      ensures this.hash == hash && this.file == file
    {
      this.hash := hash;
      this.file := file;
    }

    /** Sets the section up and appends the record's row; where it is seen it is read back field by field. */
    method AppendExecution(record: Record)
      modifies this
      ensures file == Some(AppendText(hash, old(file), record))
      ensures Digests(hash) && BarFree(record) && LedgerVisible.Seen(hash, old(file), record) ==>
        var before, after := RowsOf(Some(EnsureText(old(file)))), RowsOf(file);
        && |after| == |before| + 1 && after[..|before|] == before
        && LedgerReadBack.Shows(hash, after[|before|], record, LastHash(before))
    {
      hide LedgerReadBack.Shows, LedgerVisible.Seen;
      if Digests(hash) && BarFree(record) && LedgerVisible.Seen(hash, file, record) {
        LedgerReadBack.RecordReadsBack(hash, file, record);
      }
      EnsureStatusSection();
      EnsureIdempotent(old(file));
      var prev := LastEntryHash();
      var row := FormatRow(hash, record, prev);
      file := Some(file.value + (row + "\n"));
    }

    /** Succeeds exactly on a linked chain; otherwise names the first broken line of the section. */
    method VerifyHashChain() returns (r: Result<(), ChainError>)
      ensures r.Success? <==> ChainOk(hash, RowsOf(file))
      ensures r.Failure? ==> file.Some? && FirstBroken(hash, Section(SplitLines(file.value)), r.error.line)
    {
      if file.None? {
        return Success(());
      }
      var located := ExtractStatusSection(file.value);
      if located.None? {
        return Success(());
      }
      var section := located.value;
      var prev := GENESIS;
      for i := 0 to |section|
        invariant ChainOk(hash, DataRows(section[..i]))
        invariant prev == LastHash(DataRows(section[..i]))
      {
        var line := section[i];
        RowsStep(section, i);
        if !("|" <= Strip(line)) || Strip(line) == TABLE_HEADER || Strip(line) == TABLE_DIVIDER {
          continue;
        }
        var cells := SplitRow(line);
        LinkStep(hash, DataRows(section[..i]), cells);
        if !RowLinked(hash, cells, prev) {
          BrokenStep(hash, section, i, DataRows(section[..i]), cells);
        }
        if |cells| < 11 {
          return Failure(MissingColumns(i + 1));
        }
        if cells[9] != prev {
          return Failure(PrevHashMismatch(i + 1, prev, cells[9]));
        }
        if cells[10] != EntryHash(hash, cells[0], cells[3], cells[2], cells[9]) {
          return Failure(EntryHashMismatch(i + 1));
        }
        prev := cells[10];
      }
      assert section[..|section|] == section;
      return Success(());
    }

    /** The section's lines one by one: rows are relinked, header and divider made canonical, the rest kept. */
    method RepairSection(section: seq<string>) returns (repaired: seq<string>, headerWritten: bool)
      ensures repaired == Repaired(hash, section) && headerWritten == HasHeader(section)
    {
      repaired, headerWritten := [], false;
      var prev := GENESIS;
      for i := 0 to |section|
        invariant repaired == Repaired(hash, section[..i])
        invariant prev == RepairPrev(hash, section[..i])
        invariant headerWritten == HasHeader(section[..i])
      {
        var line := section[i];
        assert section[..i + 1] == section[..i] + [line];
        RepairedSnoc(hash, section[..i], line);
        HasHeaderSnoc(section[..i], line);
        BodyRowIsRow(line);
        if "|" <= Strip(line) {
          if HeaderLike(line) {
            repaired := repaired + [TABLE_HEADER];
            headerWritten := true;
            continue;
          }
          if DividerLike(line) {
            repaired := repaired + [TABLE_DIVIDER];
            continue;
          }
          var cells := SplitRow(line);
          if |cells| < 9 {
            repaired := repaired + [line];
            continue;
          }
          var relinked := RelinkedCells(hash, cells, prev);
          repaired := repaired + [JoinCells(relinked)];
          prev := relinked[10];
          continue;
        }
        repaired := repaired + [line];
      }
      assert section[..|section|] == section;
    }

    method RepairHashChain()
      modifies this
      ensures file == if old(file).None? then None else Some(RepairText(hash, old(file).value))
      ensures Digests(hash) && file.Some? && HasSection(SplitLines(old(file).value)) ==>
        LedgerLinesKept.FileRepaired(hash, SplitLines(old(file).value), SplitLines(file.value))
    {
      hide SplitLines, FirstStart, SectionEnd, Unlines, Repaired, HasHeader, LedgerLinesKept.FileRepaired;
      if Digests(hash) && file.Some? {
        LedgerLinesKept.RepairKeepsLines(hash, file.value);
      }
      if file.None? {
        return;
      }
      var lines := SplitLines(file.value);
      var located := LocateStatusSection(lines);
      if located.None? {
        return;
      }
      var (start, end) := located.value;
      var repaired, headerWritten := RepairSection(lines[start + 1..end]);
      if !headerWritten {
        repaired := [TABLE_HEADER, TABLE_DIVIDER] + repaired;
      } else {
        assert [] + repaired == repaired;
      }
      file := Some(Unlines(lines[..start + 1] + repaired + lines[end..]));
    }

    method LatestStatusMap() returns (statuses: map<string, Status>)
      ensures statuses == StatusMap(RowsOf(file))
    {
      statuses := map[];
      if file.None? {
        return;
      }
      var located := ExtractStatusSection(file.value);
      if located.None? {
        return;
      }
      var section := located.value;
      for i := 0 to |section|
        invariant statuses == StatusMap(DataRows(section[..i]))
      {
        var line := section[i];
        StatusStep(section, i);
        if !IsRow(line) {
          continue;
        }
        var cells := SplitRow(line);
        if |cells| < 4 || cells[0] == "" {
          continue;
        }
        var status := ParseStatus(cells[3]);
        if status.Some? {
          statuses := statuses[cells[0] := status.value];
        }
      }
      assert section[..|section|] == section;
    }

    method LastEntryHash() returns (h: string)
      ensures h == LastHash(RowsOf(file))
    {
      if file.None? {
        return GENESIS;
      }
      var located := ExtractStatusSection(file.value);
      if located.None? {
        return GENESIS;
      }
      var section := located.value;
      var i := |section|;
      while i > 0
        invariant 0 <= i <= |section|
        invariant DataRows(section[i..]) == []
      {
        var line := section[i - 1];
        LastRowAt(section, i - 1);
        if IsRow(line) {
          var cells := SplitRow(line);
          return if |cells| >= 11 then cells[10] else GENESIS;
        }
        i := i - 1;
      }
      assert section[0..] == section;
      return GENESIS;
    }

    method EnsureStatusSection()
      modifies this
      ensures file == Some(EnsureText(old(file)))
    {
      hide Contains, SplitLines, Unlines, Rewrite, CanonicalTable, FirstStop, IsSectionStart, IsSectionStop;
      if file.None? {
        file := Some(PREAMBLE);
      }
      var text := file.value;
      if !Contains(text, SECTION_HEADER) {
        file := Some(text + (if EndsWithNewline(text) then "" else "\n") + NEW_SECTION);
        return;
      }
      var lines := SplitLines(text);
      var located := LocateStatusSection(lines);
      if located.None? {
        return;
      }
      var table := FindTableLines(lines, located.value.0 + 1);
      if table.None? {
        return;
      }
      FindTableFacts(lines, located.value.0 + 1, None);
      var (header, divider) := table.value;
      if CanonicalTable(lines, header, divider) {
        return;
      }
      file := Some(Unlines(Rewrite(lines, header, divider)));
    }
  }

  /** The scan for the table's header and divider lines. */
  method FindTableLines(lines: seq<string>, start: nat) returns (table: Option<(nat, nat)>)
    requires start <= |lines|
    ensures table == FindTable(lines, start, None)
  {
    var header: Option<nat> := None;
    for i := start to |lines|
      invariant FindTable(lines, start, None) == FindTable(lines, i, header)
    {
      if HeaderLike(lines[i]) {
        header := Some(i);
      } else if DividerLike(lines[i]) && header.Some? {
        return Some((header.value, i));
      }
    }
    return None;
  }

  lemma StatusStep(section: seq<string>, i: nat)
    requires i < |section|
    ensures var before, cells := StatusMap(DataRows(section[..i])), SplitRow(section[i]);
      StatusMap(DataRows(section[..i + 1]))
        == if IsRow(section[i]) && CarriesStatus(cells) then before[cells[0] := ParseStatus(cells[3]).value] else before
  {
    assert section[..i + 1] == section[..i] + [section[i]];
    DataRowsSnoc(section[..i], section[i]);
    StatusMapSnoc(DataRows(section[..i]), SplitRow(section[i]));
  }

  lemma HasHeaderSnoc(lines: seq<string>, line: string)
    ensures HasHeader(lines + [line]) <==> HasHeader(lines) || HeaderLike(line)
  {
    assert line in lines + [line];
  }

  /** Looking at the section backwards, line i decides the last row once no later line is a row. */
  lemma LastRowAt(section: seq<string>, i: nat)
    requires i < |section| && DataRows(section[i + 1..]) == []
    ensures IsRow(section[i]) ==> DataRows(section) == DataRows(section[..i]) + [SplitRow(section[i])]
    ensures !IsRow(section[i]) ==> DataRows(section[i..]) == []
  {
    hide SplitRow, IsRow, DataRows;
    var line, rest := section[i], section[i + 1..];
    assert section[i..] == [line] + rest;
    DataRowsConcat([line], rest);
    SingleLine(line);
    RowsAround(section, i);
  }

  lemma SingleLine(line: string)
    ensures DataRows([line]) == if IsRow(line) then [SplitRow(line)] else []
  {
    DataRowsSnoc([], line);
    assert [] + [line] == [line];
  }

  lemma RowsAround(section: seq<string>, i: nat)
    requires i <= |section|
    ensures DataRows(section) == DataRows(section[..i]) + DataRows(section[i..])
  {
    hide DataRows;
    assert section == section[..i] + section[i..];
    DataRowsConcat(section[..i], section[i..]);
  }

  // ----- Tamper evidence for files -----

  lemma {:induction false} RowsAreBarFree(lines: seq<string>)
    ensures BarFreeRows(DataRows(lines))
  {
    if lines != [] {
      var front, last := lines[..|lines| - 1], lines[|lines| - 1];
      RowsAreBarFree(front);
      SplitRowBarFree(last);
    }
  }

  lemma SplitRowBarFree(line: string)
    ensures NoBars(SplitRow(line))
  {
    var inner := StripChars(Strip(line), IsBar);
    SplitPieces(inner);
    forall c | c in SplitRow(line) ensures '|' !in c {
      var i :| 0 <= i < |Split(inner)| && c == Strip(Split(inner)[i]);
      StripFacts(Split(inner)[i], IsSpace);
      assert Split(inner)[i] in Split(inner);
    }
  }

  /**
    Two ledger files that verify and end in the same entry hash record the same history, unless two
    of the payloads they hash collide: a changed prompt ID, status or timestamp changes the last hash.
  */
  lemma FilesTamperEvident(hash: string -> string, a: Option<string>, b: Option<string>)
    requires ChainOk(hash, RowsOf(a)) && ChainOk(hash, RowsOf(b))
    requires WideRows(RowsOf(a)) && WideRows(RowsOf(b))
    requires CollisionFree(hash, Payloads(RowsOf(a)) + Payloads(RowsOf(b)))
    requires LastHash(RowsOf(a)) == LastHash(RowsOf(b))
    ensures SameHistory(RowsOf(a), RowsOf(b))
  {
    if a.Some? { RowsAreBarFree(Section(SplitLines(a.value))); }
    if b.Some? { RowsAreBarFree(Section(SplitLines(b.value))); }
    TamperEvidence(hash, RowsOf(a), RowsOf(b));
  }
}
