/** Appending an execution record to the ledger (prompt_engine/ledger_updater.py, append_execution). */
module LedgerAppend {
  import opened Wrappers
  import opened PromptTypes
  import opened PyText
  import opened LedgerRow
  import opened LedgerFormat
  import opened LedgerChain
  import opened LedgerSection
  import opened LedgerSetup

  datatype Record = Record(promptId: string, subsystem: string, timestamp: string, status: Status, attempt: int,
                           filesModified: seq<string>, testResults: string, failureReason: Option<string>,
                           notes: string)

  // ----- The printed cells -----

  function NatText(n: nat): string {
    if n < 10 then [('0' as int + n) as char] else NatText(n / 10) + [('0' as int + n % 10) as char]
  }

  function IntText(i: int): string { if i < 0 then "-" + NatText(-i) else NatText(i) }

  function OrDash(s: string): string { if s == "" then "-" else s }

  /** The text fields of a record in column order; the fourth and fifth column are not escaped. */
  function TextFields(r: Record): seq<string> {
    [r.promptId, r.subsystem, r.timestamp,
     if r.filesModified == [] then "-" else Join(", ", r.filesModified),
     r.testResults, OrDash(if r.failureReason.Some? then r.failureReason.value else ""), OrDash(r.notes)]
  }

  /** The k-th of the first nine cells as printed: columns 3 and 4 hold the status and the attempt. */
  function BaseCell(r: Record, k: nat): string
    requires k < 9
  {
    if k == 3 then StatusText(r.status)
    else if k == 4 then IntText(r.attempt)
    else Escape(TextFields(r)[if k < 3 then k else k - 2])
  }

  function BaseCells(r: Record): seq<string> {
    seq(9, k requires 0 <= k < 9 => BaseCell(r, k))
  }

  function RecordHash(hash: string -> string, r: Record, prev: string): string {
    EntryHash(hash, r.promptId, StatusText(r.status), r.timestamp, prev)
  }

  /** _format_row */
  function FormatRow(hash: string -> string, r: Record, prev: string): string {
    RowText(BaseCells(r) + [prev, RecordHash(hash, r, prev)])
  }

  /** The text after append_execution. */
  function AppendText(hash: string -> string, file: Option<string>, r: Record): string {
    var text := EnsureText(file);
    text + (FormatRow(hash, r, LastHash(RowsOf(Some(text)))) + "\n")
  }

  // ----- Well-behaved records -----

  predicate BarFree(r: Record) { NoBars(TextFields(r)) }

  /** The printed fields stay on one line: newlines are replaced, other line terminators inside a field are not. */
  predicate Printable(r: Record) {
    forall f :: f in TextFields(r) ==> OneLine(Escape(f))
  }

  /** The two hashed fields are printed as they are hashed. */
  predicate HashedAsPrinted(r: Record) {
    Escape(r.promptId) == r.promptId && Escape(r.timestamp) == r.timestamp
  }

  /** A record whose row reads back as what was hashed. */
  predicate Clean(r: Record) { BarFree(r) && Printable(r) && HashedAsPrinted(r) }

  lemma {:induction false} NatTextDigits(n: nat)
    ensures NatText(n) != "" && forall c :: c in NatText(n) ==> '0' <= c <= '9'
  {
    if n >= 10 {
      NatTextDigits(n / 10);
    }
  }

  lemma IntTextClean(i: int)
    ensures CleanCell(IntText(i)) && OneLine(IntText(i))
    ensures forall c :: c in IntText(i) ==> '0' <= c <= '9' || c == '-'
  {
    NatTextDigits(if i < 0 then -i else i);
    var t := IntText(i);
    assert t[0] in t && t[|t| - 1] in t;
  }

  lemma EachBaseCell(r: Record, k: nat)
    requires k < 9
    ensures Trimmed(BaseCells(r)[k], IsSpace)
    ensures k == 3 || k == 4 ==> CleanCell(BaseCells(r)[k]) && OneLine(BaseCells(r)[k])
    ensures Printable(r) ==> OneLine(BaseCells(r)[k])
  {
    if k == 3 {
      StatusTextParses(r.status);
    } else if k == 4 {
      IntTextClean(r.attempt);
    } else {
      var i := if k < 3 then k else k - 2;
      assert TextFields(r)[i] in TextFields(r);
      EscapeFacts(TextFields(r)[i]);
    }
  }

  lemma BarInBaseCell(r: Record, f: seq<string>, k: nat)
    requires k < 9 && f == TextFields(r)
    ensures '|' in BaseCells(r)[k] <==> k != 3 && k != 4 && '|' in f[if k < 3 then k else k - 2]
  {
    EachBaseCell(r, k);
    if k != 3 && k != 4 {
      EscapeFacts(f[if k < 3 then k else k - 2]);
    }
  }

  lemma BaseCellsBars(r: Record)
    ensures NoBars(BaseCells(r)) <==> BarFree(r)
  {
    var f, b := TextFields(r), BaseCells(r);
    if NoBars(b) {
      BarFreeFields(r, f, b);
    }
    if BarFree(r) {
      forall x | x in b ensures '|' !in x {
        var k :| 0 <= k < |b| && b[k] == x;
        BarInBaseCell(r, f, k);
      }
    }
  }

  lemma BarFreeFields(r: Record, f: seq<string>, b: seq<string>)
    requires f == TextFields(r) && b == BaseCells(r) && NoBars(b)
    ensures NoBars(f)
  {
    forall x | x in f ensures '|' !in x {
      var i :| 0 <= i < |f| && f[i] == x;
      var k := if i < 3 then i else i + 2;
      BarInBaseCell(r, f, k);
      assert b[k] in b;
    }
  }

  lemma BaseCellsFacts(r: Record)
    ensures forall c :: c in BaseCells(r) ==> Trimmed(c, IsSpace)
    ensures Printable(r) ==> forall c :: c in BaseCells(r) ==> OneLine(c)
  {
    forall c | c in BaseCells(r)
      ensures Trimmed(c, IsSpace) && (Printable(r) ==> OneLine(c))
    {
      var k :| 0 <= k < 9 && BaseCells(r)[k] == c;
      EachBaseCell(r, k);
    }
    assert TextFields(r)[0] in TextFields(r) && TextFields(r)[2] in TextFields(r);
  }

  // ----- The appended row -----

  predicate HashCell(s: string) { CleanCell(s) && OneLine(s) }

  function RowCells(hash: string -> string, r: Record, prev: string): seq<string> {
    BaseCells(r) + [prev, RecordHash(hash, r, prev)]
  }

  /** The printed row is one line and a data row for every reader. */
  lemma PrintedRow(hash: string -> string, r: Record, prev: string)
    requires Digests(hash) && HashCell(prev) && Printable(r)
    ensures var row := FormatRow(hash, r, prev);
      OneLine(row) && IsRow(row) && !DividerLike(row) && !IsSectionStop(row)
  {
    var cells := RowCells(hash, r, prev);
    DigestClean(RecordHash(hash, r, prev));
    BaseCellsFacts(r);
    RowIsOneLine(cells);
    PrintedRowIsRow(cells);
  }

  /** Clean records: the parser recovers the printed cells, and the row extends the chain. */
  lemma CleanRowLinks(hash: string -> string, r: Record, prev: string)
    requires Digests(hash) && HashCell(prev) && Clean(r)
    ensures SplitRow(FormatRow(hash, r, prev)) == RowCells(hash, r, prev)
    ensures RowLinked(hash, RowCells(hash, r, prev), prev)
  {
    var cells := RowCells(hash, r, prev);
    DigestClean(RecordHash(hash, r, prev));
    BaseCellsFacts(r);
    BaseCellsBars(r);
    RowRoundTrip(cells);
  }

  // ----- A bar in a field breaks the chain -----

  /** The previous hash occurs in none of the nine cells printed before it. */
  predicate NeverMentions(r: Record, h: string) {
    forall k :: 0 <= k < 9 ==> !Contains(BaseCells(r)[k], h)
  }

  lemma {:induction false} SplitAllConcat(a: seq<string>, b: seq<string>)
    ensures SplitAll(a + b) == SplitAll(a) + SplitAll(b)
  {
    if a == [] {
      assert a + b == b;
    } else {
      assert (a + b)[1..] == a[1..] + b;
      SplitAllConcat(a[1..], b);
    }
  }

  lemma {:induction false} SplitAllMember(parts: seq<string>, piece: string) returns (k: nat)
    requires piece in SplitAll(parts)
    ensures k < |parts| && piece in Split(parts[k])
  {
    if piece in Split(parts[0]) {
      k := 0;
    } else {
      k := SplitAllMember(parts[1..], piece);
      k := k + 1;
    }
  }

  /** With a bar among the base cells, the parser's tenth cell is a piece of some base cell. */
  lemma TenthCellIsText(base: seq<string>, tail: seq<string>) returns (k: nat)
    requires |base| == 9 && !NoBars(base)
    ensures |SplitRow(RowText(base + tail))| >= 10
    ensures k < 9 && Contains(" " + base[k] + " ", SplitRow(RowText(base + tail))[9])
  {
    SplitPrintedRow(base + tail);
    assert Padded(base + tail) == Padded(base) + Padded(tail);
    SplitAllConcat(Padded(base), Padded(tail));
    PaddedFacts(base);
    SplitAllExact(Padded(base));
    var piece := SplitAll(Padded(base + tail))[9];
    assert piece == SplitAll(Padded(base))[9];
    k := SplitAllMember(Padded(base), piece);
    PieceContained(" " + base[k] + " ", piece);
    StripContained(piece, IsSpace);
    ContainsTransitive(" " + base[k] + " ", piece, Strip(piece));
  }

  lemma PaddingAddsNothing(s: string, h: string)
    requires h != "" && Trimmed(h, IsSpace) && Contains(" " + s + " ", h)
    ensures Contains(s, h)
  {
    var p := " " + s + " ";
    var i :| 0 <= i <= |p| && h <= p[i..];
    PrefixAt(p, i, h);
    assert p[0] == ' ' && p[|p| - 1] == ' ';
    assert forall k :: 0 <= k < |h| ==> h[k] == p[i + k];
    assert 1 <= i && i + |h| <= |s| + 1;
    assert forall k :: 0 <= k < |h| ==> h[k] == p[i + k] == s[i - 1 + k];
    assert h <= s[i - 1..];
  }

  lemma PrefixAt(p: string, i: nat, h: string)
    requires i <= |p| && h <= p[i..]
    ensures i + |h| <= |p| && forall k :: 0 <= k < |h| ==> h[k] == p[i + k]
  {
    forall k | 0 <= k < |h| ensures h[k] == p[i + k] {
      assert p[i..][k] == p[i + k];
    }
  }

  /**
    One bar in any field shifts the columns: the row no longer carries the previous hash
    in its tenth column, although the printer put a backslash before the bar.
  */
  lemma BarBreaksRow(hash: string -> string, r: Record, prev: string)
    requires HashCell(prev) && prev != "" && NeverMentions(r, prev) && !BarFree(r)
    ensures |SplitRow(FormatRow(hash, r, prev))| >= 10 && SplitRow(FormatRow(hash, r, prev))[9] != prev
  {
    BaseCellsBars(r);
    var k := TenthCellIsText(BaseCells(r), [prev, RecordHash(hash, r, prev)]);
    if SplitRow(FormatRow(hash, r, prev))[9] == prev {
      PaddingAddsNothing(BaseCells(r)[k], prev);
    }
  }

  // ----- Appending to a ledger -----

  lemma ChainLastHash(hash: string -> string, rows: seq<Cells>)
    requires Digests(hash) && ChainOk(hash, rows)
    ensures HashCell(LastHash(rows)) && LastHash(rows) != ""
  {
    GenesisClean();
    if rows != [] {
      var n := |rows| - 1;
      assert RowLinked(hash, rows[n], LastHash(rows[..n]));
      DigestClean(LastHash(rows));
    }
  }

  /** On a ready ledger, a clean record becomes the last row and extends the chain. */
  lemma AppendExtends(hash: string -> string, file: Option<string>, r: Record)
    requires Digests(hash) && Ready(EnsureText(file)) && ChainOk(hash, RowsOf(Some(EnsureText(file))))
    requires Clean(r)
    ensures var rows := RowsOf(Some(EnsureText(file)));
      && var text' := AppendText(hash, file, r);
      && Ready(text')
      && RowsOf(Some(text')) == rows + [RowCells(hash, r, LastHash(rows))]
      && ChainOk(hash, RowsOf(Some(text')))
      && StatusMap(RowsOf(Some(text'))) == Recorded(StatusMap(rows), r)
  {
    hide SplitLines;
    var text := EnsureText(file);
    var rows := RowsOf(Some(text));
    var prev := LastHash(rows);
    ChainLastHash(hash, rows);
    PrintedRow(hash, r, prev);
    AppendToReady(text, FormatRow(hash, r, prev));
    CleanRowLinks(hash, r, prev);
    ChainSnoc(hash, rows, RowCells(hash, r, prev));
    StatusMapSnoc(rows, RowCells(hash, r, prev));
    RecordedCells(hash, r, prev);
  }

  /** The status map with the record's entry; the reader ignores an empty prompt ID. */
  function Recorded(statuses: map<string, Status>, r: Record): map<string, Status> {
    if r.promptId == "" then statuses else statuses[r.promptId := r.status]
  }

  lemma RecordedCells(hash: string -> string, r: Record, prev: string)
    requires Clean(r)
    ensures var c := RowCells(hash, r, prev);
      |c| == 11 && c[0] == r.promptId && ParseStatus(c[3]) == Some(r.status)
  {
    BaseCellsFacts(r);
    StatusTextParses(r.status);
    assert BaseCells(r)[3] == StatusText(r.status);
  }

  // ----- Whole histories of appends -----

  function AppendAll(hash: string -> string, file: Option<string>, rs: seq<Record>): Option<string> {
    if rs == [] then file
    else Some(AppendText(hash, AppendAll(hash, file, rs[..|rs| - 1]), rs[|rs| - 1]))
  }

  /** The status map after the records, on top of an earlier one. */
  function RecordedOn(statuses: map<string, Status>, rs: seq<Record>): map<string, Status> {
    if rs == [] then statuses else Recorded(RecordedOn(statuses, rs[..|rs| - 1]), rs[|rs| - 1])
  }

  /** A ledger the engine can build on: not there yet, or ready, and its chain verifies. */
  predicate Sound(hash: string -> string, file: Option<string>) {
    (file.Some? ==> Ready(file.value)) && ChainOk(hash, RowsOf(file))
  }

  lemma SoundIsEnsured(hash: string -> string, file: Option<string>)
    requires Sound(hash, file)
    ensures Ready(EnsureText(file)) && RowsOf(Some(EnsureText(file))) == RowsOf(file)
  {
    if file.None? {
      EnsureMakesFresh(None);
    }
  }

  /**
    Any number of clean appends keeps a sound ledger sound, adds one row each and leaves the last status of each
    prompt.
  */
  lemma {:induction false} HistoryVerifies(hash: string -> string, file: Option<string>, rs: seq<Record>)
    requires Digests(hash) && Sound(hash, file)
    requires forall r :: r in rs ==> Clean(r)
    ensures var after := AppendAll(hash, file, rs);
      && Sound(hash, after)
      && |RowsOf(after)| == |RowsOf(file)| + |rs|
      && StatusMap(RowsOf(after)) == RecordedOn(StatusMap(RowsOf(file)), rs)
  {
    hide Clean, Ready, ChainOk, EnsureText, StatusMap, RowsOf, AppendText;
    if rs != [] {
      var front, last := rs[..|rs| - 1], rs[|rs| - 1];
      assert rs == front + [last];
      HistoryVerifies(hash, file, front);
      SoundIsEnsured(hash, AppendAll(hash, file, front));
      AppendExtends(hash, AppendAll(hash, file, front), last);
    }
  }
}
