/**
  The hash chain over the data rows of the status section, the status map read from
  them, and what agreeing on the last hash implies (prompt_engine/ledger_updater.py).
*/
module LedgerChain {
  import opened Wrappers
  import opened PromptTypes
  import opened PyText
  import opened LedgerRow
  import opened LedgerFormat

  type Cells = seq<string>

  // ----- Data rows -----

  function DataRows(lines: seq<string>): seq<Cells> {
    if lines == [] then []
    else
      var front, last := lines[..|lines| - 1], lines[|lines| - 1];
      DataRows(front) + (if IsRow(last) then [SplitRow(last)] else [])
  }

  lemma {:induction false} DataRowsConcat(a: seq<string>, b: seq<string>)
    ensures DataRows(a + b) == DataRows(a) + DataRows(b)
  {
    if b == [] {
      assert a + b == a;
    } else {
      var front, last := b[..|b| - 1], b[|b| - 1];
      DataRowsConcat(a, front);
      assert (a + b)[..|a + b| - 1] == a + front;
    }
  }

  lemma DataRowsSnoc(lines: seq<string>, line: string)
    ensures DataRows(lines + [line]) == DataRows(lines) + (if IsRow(line) then [SplitRow(line)] else [])
    ensures !IsRow(line) ==> DataRows(lines + [line]) == DataRows(lines)
  {
    assert (lines + [line])[..|lines|] == lines;
  }

  // ----- The chain -----

  function Payload(promptId: string, status: string, timestamp: string, prev: string): string {
    promptId + "|" + status + "|" + timestamp + "|" + prev
  }

  /** _compute_entry_hash */
  function EntryHash(hash: string -> string, promptId: string, status: string, timestamp: string,
                     prev: string): string {
    hash(Payload(promptId, status, timestamp, prev))
  }

  /** The hash the next row must carry: the last row's entry hash, or GENESIS. */
  function LastHash(rows: seq<Cells>): string {
    if rows == [] then GENESIS
    else
      var last := rows[|rows| - 1];
      if |last| >= 11 then last[10] else GENESIS
  }

  predicate RowLinked(hash: string -> string, row: Cells, prev: string) {
    && |row| >= 11
    && row[9] == prev
    && row[10] == EntryHash(hash, row[0], row[3], row[2], prev)
  }

  /** Every row carries its predecessor's hash and the hash of its own ID, status and time. */
  predicate ChainOk(hash: string -> string, rows: seq<Cells>) {
    forall k {:trigger rows[..k]} :: 0 <= k < |rows| ==> RowLinked(hash, rows[k], LastHash(rows[..k]))
  }

  lemma ChainSnoc(hash: string -> string, rows: seq<Cells>, row: Cells)
    ensures ChainOk(hash, rows + [row]) <==> ChainOk(hash, rows) && RowLinked(hash, row, LastHash(rows))
  {
    var all := rows + [row];
    assert all[..|rows|] == rows;
    assert forall k :: 0 <= k < |rows| ==> all[..k] == rows[..k];
    if ChainOk(hash, all) {
      assert RowLinked(hash, all[|rows|], LastHash(all[..|rows|]));
      forall k | 0 <= k < |rows| ensures RowLinked(hash, rows[k], LastHash(rows[..k])) {
        assert RowLinked(hash, all[k], LastHash(all[..k]));
      }
    }
  }

  lemma {:induction false} ChainPrefix(hash: string -> string, a: seq<Cells>, b: seq<Cells>)
    requires ChainOk(hash, a + b)
    ensures ChainOk(hash, a)
  {
    if b == [] {
      assert a + b == a;
    } else {
      var front, last := b[..|b| - 1], b[|b| - 1];
      assert a + b == (a + front) + [last];
      ChainSnoc(hash, a + front, last);
      ChainPrefix(hash, a, front);
    }
  }

  // ----- Tamper evidence -----

  /** The payload the k-th row's entry hash is computed from. */
  function RowPayload(rows: seq<Cells>, k: nat): string
    requires k < |rows| && |rows[k]| >= 11
  {
    Payload(rows[k][0], rows[k][3], rows[k][2], LastHash(rows[..k]))
  }

  predicate WideRows(rows: seq<Cells>) {
    forall r :: r in rows ==> |r| >= 11
  }

  ghost function Payloads(rows: seq<Cells>): set<string>
    requires WideRows(rows)
  {
    set k | 0 <= k < |rows| :: RowPayload(rows, k)
  }

  /** No two of the given payloads collide, and none hashes to the genesis marker. */
  ghost predicate CollisionFree(hash: string -> string, payloads: set<string>) {
    && (forall x, y :: x in payloads && y in payloads && hash(x) == hash(y) ==> x == y)
    && (forall x :: x in payloads ==> hash(x) != GENESIS)
  }

  /** The fields of a payload are determined by its text when none holds a bar. */
  lemma PayloadInjective(a: string, b: string, c: string, d: string, a': string, b': string, c': string, d': string)
    requires NoBars([a, b, c, d]) && NoBars([a', b', c', d'])
    requires Payload(a, b, c, d) == Payload(a', b', c', d')
    ensures a == a' && b == b' && c == c' && d == d'
  {
    PayloadPieces(a, b, c, d);
    PayloadPieces(a', b', c', d');
    assert [a, b, c, d][0] == [a', b', c', d'][0];
    assert [a, b, c, d][1] == [a', b', c', d'][1];
    assert [a, b, c, d][2] == [a', b', c', d'][2];
    assert [a, b, c, d][3] == [a', b', c', d'][3];
  }

  lemma PayloadPieces(a: string, b: string, c: string, d: string)
    requires NoBars([a, b, c, d])
    ensures Split(Payload(a, b, c, d)) == [a, b, c, d]
  {
    var parts := [a, b, c, d];
    assert a in parts && b in parts && c in parts && d in parts;
    SplitConcat(a + "|" + b + "|" + c, d);
    SplitConcat(a + "|" + b, c);
    SplitConcat(a, b);
    SplitNoBar(a);
    SplitNoBar(b);
    SplitNoBar(c);
    SplitNoBar(d);
  }

  predicate BarFreeRows(rows: seq<Cells>) {
    forall r :: r in rows ==> NoBars(r)
  }

  predicate SameHistory(a: seq<Cells>, b: seq<Cells>)
    requires WideRows(a) && WideRows(b)
  {
    && |a| == |b|
    && forall k :: 0 <= k < |a| ==> SameRecord(a[k], b[k])
  }

  /** The same prompt ID, timestamp, status and both hashes. */
  predicate SameRecord(r: Cells, s: Cells)
    requires |r| >= 11 && |s| >= 11
  {
    r[0] == s[0] && r[2] == s[2] && r[3] == s[3] && r[9] == s[9] && r[10] == s[10]
  }

  lemma ChainIsWide(hash: string -> string, rows: seq<Cells>)
    requires ChainOk(hash, rows)
    ensures WideRows(rows)
  {
    forall r | r in rows ensures |r| >= 11 {
      var k :| 0 <= k < |rows| && rows[k] == r;
      assert RowLinked(hash, rows[k], LastHash(rows[..k]));
    }
  }

  /**
    Two verified ledgers that end in the same hash record the same prompts, statuses,
    timestamps and hashes row by row, unless two of their payloads collide.
  */
  lemma {:induction false} TamperEvidence(hash: string -> string, a: seq<Cells>, b: seq<Cells>)
    requires ChainOk(hash, a) && ChainOk(hash, b)
    requires BarFreeRows(a) && BarFreeRows(b)
    requires WideRows(a) && WideRows(b)
    requires CollisionFree(hash, Payloads(a) + Payloads(b))
    requires LastHash(a) == LastHash(b)
    ensures SameHistory(a, b)
  {
    if a == [] || b == [] {
      BothEmpty(hash, a, b);
    } else {
      var m, n := |a| - 1, |b| - 1;
      LastRowsAgree(hash, a, b);
      PrefixFacts(hash, a);
      PrefixFacts(hash, b);
      FewerPayloads(hash, Payloads(a) + Payloads(b), Payloads(a[..m]) + Payloads(b[..n]));
      TamperEvidence(hash, a[..m], b[..n]);
      ExtendHistory(a, b);
    }
  }

  /**
    What the chain does not protect: subsystem, attempt, files, results, reason, notes and any further
    cells can be changed in every row without the verifier noticing.
  */
  lemma {:induction false} OtherCellsUnprotected(hash: string -> string, a: seq<Cells>, b: seq<Cells>)
    requires WideRows(a) && WideRows(b) && SameHistory(a, b)
    ensures ChainOk(hash, a) <==> ChainOk(hash, b)
    ensures LastHash(a) == LastHash(b)
  {
    hide ChainOk, LastHash, RowLinked, SameRecord, WideRows;
    LastHashSame(a, b);
    if a == [] {
      assert b == [];
    } else {
      var m := |a| - 1;
      ShorterHistory(a, b, m);
      OtherCellsUnprotected(hash, a[..m], b[..m]);
      assert a == a[..m] + [a[m]] && b == b[..m] + [b[m]];
      ChainSnoc(hash, a[..m], a[m]);
      ChainSnoc(hash, b[..m], b[m]);
      RowLinkedSame(hash, a, b, m, LastHash(a[..m]));
    }
  }

  lemma LastHashSame(a: seq<Cells>, b: seq<Cells>)
    requires WideRows(a) && WideRows(b) && SameHistory(a, b)
    ensures LastHash(a) == LastHash(b)
  {
    if a != [] {
      assert SameRecord(a[|a| - 1], b[|a| - 1]);
    }
  }

  lemma RowLinkedSame(hash: string -> string, a: seq<Cells>, b: seq<Cells>, m: nat, prev: string)
    requires WideRows(a) && WideRows(b) && SameHistory(a, b) && m < |a|
    ensures RowLinked(hash, a[m], prev) <==> RowLinked(hash, b[m], prev)
  {
    assert SameRecord(a[m], b[m]);
  }

  lemma ShorterHistory(a: seq<Cells>, b: seq<Cells>, m: nat)
    requires WideRows(a) && WideRows(b) && SameHistory(a, b) && m <= |a|
    ensures WideRows(a[..m]) && WideRows(b[..m]) && SameHistory(a[..m], b[..m])
  {
  }

  lemma BothEmpty(hash: string -> string, a: seq<Cells>, b: seq<Cells>)
    requires ChainOk(hash, a) && ChainOk(hash, b) && WideRows(a) && WideRows(b)
    requires CollisionFree(hash, Payloads(a) + Payloads(b))
    requires LastHash(a) == LastHash(b)
    requires a == [] || b == []
    ensures a == [] && b == []
  {
    if a != [] { LastHashIsPayloadHash(hash, a); }
    if b != [] { LastHashIsPayloadHash(hash, b); }
  }

  lemma FewerPayloads(hash: string -> string, all: set<string>, some: set<string>)
    requires CollisionFree(hash, all) && some <= all
    ensures CollisionFree(hash, some)
  {
  }

  lemma ExtendHistory(a: seq<Cells>, b: seq<Cells>)
    requires WideRows(a) && WideRows(b) && a != [] && b != []
    requires WideRows(a[..|a| - 1]) && WideRows(b[..|b| - 1]) && SameHistory(a[..|a| - 1], b[..|b| - 1])
    requires SameRecord(a[|a| - 1], b[|b| - 1])
    ensures SameHistory(a, b)
  {
    var m := |a| - 1;
    forall k | 0 <= k < |a| ensures SameRecord(a[k], b[k]) {
      if k < m {
        assert SameRecord(a[..m][k], b[..m][k]);
      }
    }
  }

  lemma LastRowsAgree(hash: string -> string, a: seq<Cells>, b: seq<Cells>)
    requires ChainOk(hash, a) && ChainOk(hash, b) && a != [] && b != []
    requires BarFreeRows(a) && BarFreeRows(b) && WideRows(a) && WideRows(b)
    requires CollisionFree(hash, Payloads(a) + Payloads(b))
    requires LastHash(a) == LastHash(b)
    ensures SameRecord(a[|a| - 1], b[|b| - 1])
    ensures LastHash(a[..|a| - 1]) == LastHash(b[..|b| - 1])
  {
    var m, n := |a| - 1, |b| - 1;
    LastHashIsPayloadHash(hash, a);
    LastHashIsPayloadHash(hash, b);
    assert RowLinked(hash, a[m], LastHash(a[..m])) && RowLinked(hash, b[n], LastHash(b[..n]));
    PayloadFieldsEqual(a[m], b[n], a[m][9], b[n][9]);
  }

  lemma PayloadFieldsEqual(r: Cells, s: Cells, prev: string, prev': string)
    requires |r| >= 11 && |s| >= 11 && NoBars(r) && NoBars(s) && prev == r[9] && prev' == s[9]
    requires Payload(r[0], r[3], r[2], prev) == Payload(s[0], s[3], s[2], prev')
    ensures r[0] == s[0] && r[3] == s[3] && r[2] == s[2] && prev == prev'
  {
    assert r[0] in r && r[2] in r && r[3] in r && r[9] in r;
    assert s[0] in s && s[2] in s && s[3] in s && s[9] in s;
    PayloadInjective(r[0], r[3], r[2], prev, s[0], s[3], s[2], prev');
  }

  lemma LastHashIsPayloadHash(hash: string -> string, rows: seq<Cells>)
    requires rows != [] && ChainOk(hash, rows) && WideRows(rows)
    ensures RowPayload(rows, |rows| - 1) in Payloads(rows)
    ensures LastHash(rows) == hash(RowPayload(rows, |rows| - 1))
  {
    var n := |rows| - 1;
    assert RowLinked(hash, rows[n], LastHash(rows[..n]));
  }

  lemma PrefixFacts(hash: string -> string, rows: seq<Cells>)
    requires rows != [] && ChainOk(hash, rows) && WideRows(rows) && BarFreeRows(rows)
    ensures var front := rows[..|rows| - 1];
      ChainOk(hash, front) && WideRows(front) && BarFreeRows(front) && Payloads(front) <= Payloads(rows)
  {
    hide ChainOk, LastHash, Payload, RowLinked;
    var n := |rows| - 1;
    var front := rows[..n];
    ChainSnoc(hash, front, rows[n]);
    assert rows == front + [rows[n]];
    forall p | p in Payloads(front) ensures p in Payloads(rows) {
      var k :| 0 <= k < n && p == RowPayload(front, k);
      assert front[..k] == rows[..k];
      assert p == RowPayload(rows, k);
    }
  }

  // ----- The status map -----

  function ParseStatus(s: string): Option<Status> {
    if s == "PENDING" then Some(Pending)
    else if s == "RUNNING" then Some(Running)
    else if s == "SUCCESS" then Some(Succeeded)
    else if s == "FAIL" then Some(Failed)
    else if s == "REWORK_REQUIRED" then Some(ReworkRequired)
    else None
  }

  function StatusText(s: Status): string {
    match s
    case Pending => "PENDING"
    case Running => "RUNNING"
    case Succeeded => "SUCCESS"
    case Failed => "FAIL"
    case ReworkRequired => "REWORK_REQUIRED"
  }

  /** Whether the status reader takes an entry from this row. */
  predicate CarriesStatus(row: Cells) {
    |row| >= 4 && row[0] != "" && ParseStatus(row[3]).Some?
  }

  /** The latest status of each prompt: later rows replace earlier ones. */
  function StatusMap(rows: seq<Cells>): map<string, Status> {
    if rows == [] then map[]
    else
      var front, last := rows[..|rows| - 1], rows[|rows| - 1];
      if CarriesStatus(last) then StatusMap(front)[last[0] := ParseStatus(last[3]).value] else StatusMap(front)
  }

  lemma StatusMapSnoc(rows: seq<Cells>, row: Cells)
    ensures StatusMap(rows + [row])
         == if CarriesStatus(row) then StatusMap(rows)[row[0] := ParseStatus(row[3]).value] else StatusMap(rows)
  {
    assert (rows + [row])[..|rows|] == rows;
  }

  lemma StatusTextParses(s: Status)
    ensures ParseStatus(StatusText(s)) == Some(s)
    ensures CleanCell(StatusText(s)) && OneLine(StatusText(s))
  {
  }
}
