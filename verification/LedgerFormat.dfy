/** The fixed lines of the ledger file and how a line of the status section is classified. */
module LedgerFormat {
  import opened PyText
  import opened LedgerRow

  const GENESIS := "GENESIS"
  const SECTION_HEADER := "## Prompt Execution Status"
  const HEADER_PREFIX := "| Prompt ID |"
  const RUN_COLUMNS := " Subsystem " + "| Execution Timestamp " + "| Execution Status " + "| Rework Attempt Number "
  const RESULT_COLUMNS := "| Files Modified " + "| Test Results " + "| Failure Reason " + "| Notes "
  const CHAIN_COLUMNS := "| Prev Hash " + "| Entry Hash |"
  const TABLE_HEADER := HEADER_PREFIX + RUN_COLUMNS + RESULT_COLUMNS + CHAIN_COLUMNS
  const DIVIDER_PREFIX := "|---|"
  const DIVIDER_COLUMNS := "---|---|---|---|---|" + "---|---|---|---|---|"
  const TABLE_DIVIDER := DIVIDER_PREFIX + DIVIDER_COLUMNS

  // ----- Digests -----

  predicate IsHex(c: char) { '0' <= c <= '9' || 'a' <= c <= 'f' }

  /** What hashlib.sha256(...).hexdigest() looks like. */
  predicate IsDigest(s: string) {
    |s| == 64 && forall c :: c in s ==> IsHex(c)
  }

  ghost predicate Digests(hash: string -> string) {
    forall x :: IsDigest(hash(x))
  }

  lemma DigestClean(s: string)
    requires IsDigest(s)
    ensures CleanCell(s) && OneLine(s) && s != GENESIS
  {
    assert s[0] in s && s[63] in s;
  }

  lemma GenesisClean()
    ensures CleanCell(GENESIS) && OneLine(GENESIS)
  {
  }

  // ----- The fixed lines -----

  lemma RunColumns()
    ensures OneLine(RUN_COLUMNS)
  {
    assert OneLine(" Subsystem ") && OneLine("| Execution Timestamp ");
    assert OneLine("| Execution Status ");
    assert OneLine("| Rework Attempt Number ");
  }

  lemma ResultColumns()
    ensures OneLine(RESULT_COLUMNS)
  {
    assert OneLine("| Files Modified ") && OneLine("| Test Results ");
    assert OneLine("| Failure Reason ") && OneLine("| Notes ");
  }

  lemma ShortColumns()
    ensures OneLine(HEADER_PREFIX) && OneLine(CHAIN_COLUMNS)
  {
    assert OneLine("| Prev Hash ") && OneLine("| Entry Hash |");
  }

  lemma DividerColumns()
    ensures OneLine(DIVIDER_PREFIX) && OneLine(DIVIDER_COLUMNS)
  {
    assert OneLine("---|---|---|---|---|");
  }

  lemma HeaderLine()
    ensures OneLine(TABLE_HEADER) && Trimmed(TABLE_HEADER, IsSpace)
    ensures HEADER_PREFIX <= TABLE_HEADER
    ensures TABLE_HEADER[|TABLE_HEADER| - 3] == 'h'
  {
    RunColumns();
    ResultColumns();
    ShortColumns();
    assert TABLE_HEADER[0] == '|' && TABLE_HEADER[|TABLE_HEADER| - 1] == '|';
  }

  lemma DividerLine()
    ensures OneLine(TABLE_DIVIDER) && Trimmed(TABLE_DIVIDER, IsSpace)
    ensures DIVIDER_PREFIX <= TABLE_DIVIDER
    ensures TABLE_DIVIDER[|TABLE_DIVIDER| - 3] == '-'
  {
    DividerColumns();
    assert TABLE_DIVIDER[0] == '|' && TABLE_DIVIDER[|TABLE_DIVIDER| - 1] == '|';
  }

  lemma SectionLine()
    ensures OneLine(SECTION_HEADER) && Trimmed(SECTION_HEADER, IsSpace)
    ensures SECTION_HEADER[0] == '#' && "## " <= SECTION_HEADER
  {
    assert SECTION_HEADER[0] == '#' && SECTION_HEADER[1] == '#' && SECTION_HEADER[2] == ' ';
    assert SECTION_HEADER[|SECTION_HEADER| - 1] == 's';
  }

  // ----- Lines of the status section -----

  /** A line the verifier and the status reader treat as a data row. */
  predicate IsRow(line: string) {
    "|" <= Strip(line) && Strip(line) != TABLE_HEADER && Strip(line) != TABLE_DIVIDER
  }

  /** Lines that repair and section set-up take for the table's header or divider. */
  predicate HeaderLike(line: string) { HEADER_PREFIX <= Strip(line) }

  predicate DividerLike(line: string) { DIVIDER_PREFIX <= Strip(line) }

  /** A line the repair treats as a data row. */
  predicate IsBodyRow(line: string) {
    "|" <= Strip(line) && !HeaderLike(line) && !DividerLike(line)
  }

  lemma CanonicalLines()
    ensures !IsRow(TABLE_HEADER) && !IsRow(TABLE_DIVIDER)
    ensures HeaderLike(TABLE_HEADER) && DividerLike(TABLE_DIVIDER)
    ensures !HeaderLike(TABLE_DIVIDER) && !DividerLike(TABLE_HEADER)
  {
    HeaderLine();
    DividerLine();
    StripFacts(TABLE_HEADER, IsSpace);
    StripFacts(TABLE_DIVIDER, IsSpace);
    assert TABLE_HEADER[1] == HEADER_PREFIX[1] == ' ';
    assert TABLE_DIVIDER[1] == DIVIDER_PREFIX[1] == '-';
  }

  lemma BodyRowIsRow(line: string)
    ensures IsBodyRow(line) ==> IsRow(line)
    ensures IsRow(line) ==> IsBodyRow(line) || HeaderLike(line) || DividerLike(line)
    ensures HeaderLike(line) || DividerLike(line) ==> "|" <= Strip(line)
  {
    HeaderLine();
    DividerLine();
  }

  /** A printed row that ends in a digest is a data row for every reader. */
  lemma PrintedRowIsRow(cells: seq<string>)
    requires |cells| >= 2 && IsDigest(cells[|cells| - 1])
    ensures Strip(RowText(cells)) == RowText(cells)
    ensures IsRow(RowText(cells)) && !DividerLike(RowText(cells)) && !("## " <= RowText(cells))
  {
    var row, last := RowText(cells), cells[|cells| - 1];
    RowInterior(cells);
    RowTail(cells);
    assert row[|row| - 3] == last[63] && last[63] in last;
    HeaderLine();
    DividerLine();
    assert row[0] == '|' && row[1] == ' ';
    assert DIVIDER_PREFIX[1] == '-';
  }

  lemma {:induction false} JoinTail(sep: string, parts: seq<string>)
    requires parts != []
    ensures |Join(sep, parts)| >= |parts[|parts| - 1]|
    ensures Join(sep, parts)[|Join(sep, parts)| - |parts[|parts| - 1]|..] == parts[|parts| - 1]
  {
    if |parts| > 1 {
      JoinTail(sep, parts[1..]);
    }
  }

  lemma RowTail(cells: seq<string>)
    requires cells != []
    ensures var last := cells[|cells| - 1];
      |RowText(cells)| >= |last| + 4 && RowText(cells)[|RowText(cells)| - 2 - |last|..|RowText(cells)| - 2] == last
  {
    JoinTail(" | ", cells);
    var j, last := Join(" | ", cells), cells[|cells| - 1];
    var row := "| " + j + " |";
    assert |row| == |j| + 4;
    assert row[2 + |j| - |last|..2 + |j|] == j[|j| - |last|..];
  }

  lemma FirstPiece(a: string, b: string, a': string, b': string)
    requires '|' !in a && '|' !in a' && a + "|" + b == a' + "|" + b'
    ensures a == a'
  {
    SplitConcat(a, b);
    SplitConcat(a', b');
    SplitNoBar(a);
    SplitNoBar(a');
    assert (Split(a) + Split(b))[0] == (Split(a') + Split(b'))[0];
  }

  lemma HeaderPrefixMeansId(id: string, rest: string)
    requires '|' !in id
    requires HEADER_PREFIX <= "| " + id + " |" + rest
    ensures id == "Prompt ID"
  {
    var row := "| " + id + " |" + rest;
    var tail := row[|HEADER_PREFIX|..];
    assert row == HEADER_PREFIX + tail;
    HeaderRegrouped(tail);
    RowRegrouped(id, rest);
    FirstPiece(" " + id + " ", rest, " " + "Prompt ID" + " ", tail);
    assert id == (" " + id + " ")[1..|id| + 1];
    assert "Prompt ID" == (" " + "Prompt ID" + " ")[1..10];
  }

  lemma RowRegrouped(id: string, rest: string)
    ensures ("| " + id + " |" + rest)[1..] == (" " + id + " ") + "|" + rest
  {
  }

  lemma HeaderRegrouped(tail: string)
    ensures (HEADER_PREFIX + tail)[1..] == (" " + "Prompt ID" + " ") + "|" + tail
  {
    RowRegrouped("Prompt ID", tail);
    assert HEADER_PREFIX == "| " + "Prompt ID" + " |";
  }

  /** A printed row looks like a header exactly when its first cell is "Prompt ID". */
  lemma PrintedRowHeaderLike(cells: seq<string>)
    requires |cells| >= 2 && IsDigest(cells[|cells| - 1]) && '|' !in cells[0]
    ensures HeaderLike(RowText(cells)) <==> cells[0] == "Prompt ID"
  {
    PrintedRowIsRow(cells);
    var id, rest := cells[0], " " + Join(" | ", cells[1..]) + " |";
    assert RowText(cells) == "| " + id + " |" + rest;
    if HeaderLike(RowText(cells)) {
      HeaderPrefixMeansId(id, rest);
    } else {
      assert HEADER_PREFIX == "| " + "Prompt ID" + " |";
    }
  }
}
