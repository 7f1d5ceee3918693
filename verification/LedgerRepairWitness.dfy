/**
  One file that a repair leaves unverifiable and one that a second repair changes (prompt_engine/ledger_updater.py).
*/
module LedgerRepairWitness {
  import opened Wrappers
  import opened PyText
  import opened LedgerRow
  import opened LedgerFormat
  import opened LedgerChain
  import opened LedgerSection
  import opened LedgerSetup
  import opened LedgerRepair

  /** A row as an editor may write it by hand: no blanks around the bars. */
  function CompactRow(cells: seq<string>): string { "|" + Join("|", cells) + "|" }

  /** A cell that comes back from a compact row as it is. */
  predicate CompactCell(c: string) { c != "" && '|' !in c && Trimmed(c, IsSpace) && OneLine(c) }

  predicate Compact(cells: seq<string>) {
    cells != [] && cells[0] != "" && forall c :: c in cells ==> CompactCell(c)
  }

  lemma {:induction false} InnerEnds(cells: seq<string>)
    requires Compact(cells)
    ensures var inner := Join("|", cells);
      inner != "" && inner[0] == cells[0][0] && inner[0] != '|' && inner[|inner| - 1] != '|'
  {
    assert cells[0] in cells && cells[0][0] in cells[0];
    if |cells| == 1 {
      assert cells[0][|cells[0]| - 1] in cells[0];
    } else {
      assert cells[1] in cells && forall c :: c in cells[1..] ==> c in cells;
      InnerEnds(cells[1..]);
      assert Join("|", cells) == cells[0] + "|" + Join("|", cells[1..]);
    }
  }

  lemma CompactSplits(cells: seq<string>)
    requires Compact(cells)
    ensures var row := CompactRow(cells);
      Strip(row) == row && SplitRow(row) == cells && row[0] == '|' && row[1] == cells[0][0]
  {
    hide Trimmed, OneLine;
    var inner, row := Join("|", cells), CompactRow(cells);
    assert row == ['|'] + inner + ['|'];
    InnerEnds(cells);
    EndsTrimmed(row, IsSpace);
    StripFacts(row, IsSpace);
    StripPadded(inner, '|', '|', IsBar);
    EndsTrimmed(inner, IsBar);
    StripFacts(inner, IsBar);
    SplitJoin(cells);
    SplitAllExact(cells);
    assert StripAll(cells) == cells by {
      forall i | 0 <= i < |cells| ensures Strip(cells[i]) == cells[i] {
        assert cells[i] in cells;
        StripFacts(cells[i], IsSpace);
      }
    }
  }

  lemma EndsTrimmed(s: string, drop: char -> bool)
    requires s != "" && !drop(s[0]) && !drop(s[|s| - 1])
    ensures Trimmed(s, drop)
  {
  }

  /** A compact row that starts with a P is a row of the body, whatever its cells. */
  lemma CompactIsBody(cells: seq<string>)
    requires Compact(cells) && cells[0][0] == 'P'
    ensures var row := CompactRow(cells);
      IsBodyRow(row) && SplitRow(row) == cells && OneLine(row) && !IsSectionStop(row)
  {
    hide SplitRow, OneLine, Strip;
    CompactSplits(cells);
    assert HEADER_PREFIX[1] == ' ' && DIVIDER_PREFIX[1] == '-';
    CompactOneLine(cells);
  }

  lemma CompactOneLine(cells: seq<string>)
    requires Compact(cells)
    ensures OneLine(CompactRow(cells))
  {
    JoinChars("|", cells);
  }

  function LedgerOf(row: string): string { Unlines([SECTION_HEADER, row]) }

  lemma SampleCells()
    ensures CompactCell("P1") && CompactCell("Prompt ID") && CompactCell("S") && CompactCell("T")
    ensures CompactCell("FAIL") && CompactCell("0") && CompactCell("-")
  {
  }

  lemma ShortCells()
    ensures Compact(["P1", "S", "T", "FAIL", "0", "-", "-", "-"])
  {
    hide CompactCell;
    SampleCells();
  }

  /** A body row of eight cells: the repaired ledger does not verify. */
  lemma ShortRowStaysBroken(hash: string -> string)
    requires Digests(hash)
    ensures var text := LedgerOf(CompactRow(["P1", "S", "T", "FAIL", "0", "-", "-", "-"]));
      !ChainOk(hash, RowsOf(Some(RepairText(hash, text))))
  {
    hide SplitRow, RepairText, ChainOk, RowsOf, CompactRow, Compact, Section, SplitLines;
    var cells := ["P1", "S", "T", "FAIL", "0", "-", "-", "-"];
    var row := CompactRow(cells);
    ShortCells();
    CompactIsBody(cells);
    OneRowSection(row, LedgerOf(row));
    RepairVerifiesIff(hash, LedgerOf(row));
    assert row in [row] && IsShortRow(row);
  }

  lemma TitledNine()
    ensures Compact(["Prompt ID", "S", "T", "FAIL", "0", "-", "-", "-", "-"])
  {
    hide CompactCell;
    SampleCells();
  }

  /**
    A full row with the ID "Prompt ID": repaired, it looks like the table's header, and the second repair replaces it.
  */
  lemma TitledRowRepairedTwice(hash: string -> string)
    requires Digests(hash)
    ensures var text := LedgerOf(CompactRow(["Prompt ID", "S", "T", "FAIL", "0", "-", "-", "-", "-"]));
      RepairText(hash, RepairText(hash, text)) != RepairText(hash, text)
  {
    hide SplitRow, RepairText, CompactRow, Compact, Section, SplitLines;
    var cells := ["Prompt ID", "S", "T", "FAIL", "0", "-", "-", "-", "-"];
    var row := CompactRow(cells);
    TitledNine();
    CompactIsBody(cells);
    OneRowSection(row, LedgerOf(row));
    RepairIdempotentIff(hash, LedgerOf(row));
    assert row in [row] && IsTitledRow(row);
  }
}
