/**
  What the ledger's readers get back, cell by cell, for a record that was appended (prompt_engine/ledger_updater.py).
*/
module LedgerReadBack {
  import opened Wrappers
  import opened PromptTypes
  import opened PyText
  import opened LedgerRow
  import opened LedgerFormat
  import opened LedgerChain
  import opened LedgerSetup
  import opened LedgerAppend
  import opened LedgerVisible
  import opened LedgerIntegrity

  // ----- Decimal numbers -----

  /** int() of a text of digits. */
  function ReadNat(digits: string): int {
    if digits == "" then 0 else 10 * ReadNat(digits[..|digits| - 1]) + (digits[|digits| - 1] as int - '0' as int)
  }

  function ReadInt(text: string): int {
    if text != "" && text[0] == '-' then -ReadNat(text[1..]) else ReadNat(text)
  }

  lemma ReadNatSnoc(digits: string, last: char)
    ensures ReadNat(digits + [last]) == 10 * ReadNat(digits) + (last as int - '0' as int)
  {
    assert (digits + [last])[..|digits|] == digits;
  }

  lemma {:induction false} NatReadsBack(n: nat)
    ensures ReadNat(NatText(n)) == n
  {
    if n < 10 {
      ReadNatSnoc("", ('0' as int + n) as char);
      assert "" + NatText(n) == NatText(n);
    } else {
      NatReadsBack(n / 10);
      ReadNatSnoc(NatText(n / 10), ('0' as int + n % 10) as char);
    }
  }

  lemma IntReadsBack(i: int)
    ensures ReadInt(IntText(i)) == i
  {
    if i < 0 {
      NatReadsBack(-i);
      assert IntText(i)[1..] == NatText(-i);
    } else {
      NatReadsBack(i);
      NatTextDigits(i);
      assert NatText(i)[0] in NatText(i);
    }
  }

  // ----- The row of a record -----

  /** An optional text as a reader finds it. */
  predicate ShowsText(cell: string, text: Option<string>) {
    cell == (if text.None? || text.value == "" then "-" else Escape(text.value))
  }

  /** The eleven cells say what the record says, column by column. */
  predicate Shows(hash: string -> string, cells: Cells, r: Record, prev: string) {
    && |cells| == 11
    && cells[0] == Escape(r.promptId)
    && cells[1] == Escape(r.subsystem)
    && cells[2] == Escape(r.timestamp)
    && cells[3] == StatusText(r.status)
    && ReadInt(cells[4]) == r.attempt
    && cells[5] == (if r.filesModified == [] then "-" else Escape(Join(", ", r.filesModified)))
    && cells[6] == Escape(r.testResults)
    && ShowsText(cells[7], r.failureReason)
    && ShowsText(cells[8], Some(r.notes))
    && cells[9] == prev
    && cells[10] == hash(r.promptId + "|" + StatusText(r.status) + "|" + r.timestamp + "|" + prev)
  }

  /** The five status values as they are written and read. */
  lemma StatusNames()
    ensures StatusText(Pending) == "PENDING" && StatusText(Running) == "RUNNING" && StatusText(Succeeded) == "SUCCESS"
    ensures StatusText(Failed) == "FAIL" && StatusText(ReworkRequired) == "REWORK_REQUIRED"
    ensures forall s :: ParseStatus(StatusText(s)) == Some(s)
  {
    forall s ensures ParseStatus(StatusText(s)) == Some(s) {
      StatusTextParses(s);
    }
  }

  lemma DashStays()
    ensures Escape("-") == "-"
  {
    EscapeFacts("-");
  }

  lemma CellsShow(hash: string -> string, r: Record, prev: string)
    ensures Shows(hash, RowCells(hash, r, prev), r, prev)
  {
    hide Escape, IntText, ReadInt, StatusText, Join;
    DashStays();
    IntReadsBack(r.attempt);
    var base := BaseCells(r);
    assert base[4] == IntText(r.attempt);
    HashInput(r, prev);
  }

  lemma HashInput(r: Record, prev: string)
    ensures Payload(r.promptId, StatusText(r.status), r.timestamp, prev)
         == r.promptId + "|" + StatusText(r.status) + "|" + r.timestamp + "|" + prev
  {
    hide StatusText;
  }

  /** Whoever sees the record of a bar-free append sees it as it was given, every field in its own column. */
  lemma RecordReadsBack(hash: string -> string, file: Option<string>, r: Record)
    requires Digests(hash) && BarFree(r) && Seen(hash, file, r)
    ensures var before, after := RowsOf(Some(EnsureText(file))), RowsOf(Some(AppendText(hash, file, r)));
      |after| == |before| + 1 && after[..|before|] == before && Shows(hash, after[|before|], r, LastHash(before))
  {
    hide FormatRow, SplitRow, RowCells, RowsOf, AppendText, EnsureText, BarFree, Shows;
    var before := RowsOf(Some(EnsureText(file)));
    ParsedHash(file);
    BarFreeRow(hash, r, LastHash(before));
    CellsShow(hash, r, LastHash(before));
  }

  lemma ParsedHash(file: Option<string>)
    ensures HashCell(LastHash(RowsOf(Some(EnsureText(file)))))
  {
    ParsedHashCell(EnsureText(file));
  }
}
