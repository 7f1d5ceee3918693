/** Setting up the status section before an append (prompt_engine/ledger_updater.py, _ensure_status_section). */
module LedgerSetup {
  import opened Wrappers
  import opened PyText
  import opened LedgerRow
  import opened LedgerFormat
  import opened LedgerChain
  import opened LedgerSection

  const TITLE_TEXT := " PROMPTS_LEDGER\n\n"
  const PURPOSE := "Purpose: Track every prompt " + "executed by Codex or AI tools.\n\n"
  const POLICY := "Policy:\n- Append-only entries.\n\n"
  const PREAMBLE := "#" + TITLE_TEXT + PURPOSE + POLICY

  const NEW_SECTION := "\n" + SECTION_HEADER + "\n" + "" + "\n" + TABLE_HEADER + "\n" + TABLE_DIVIDER + "\n"

  /**
    The positions of the table's header and divider: the first divider that has a header
    before it, and the last header before that divider.
  */
  function FindTable(lines: seq<string>, i: nat, header: Option<nat>): Option<(nat, nat)>
    requires i <= |lines|
    decreases |lines| - i
  {
    if i == |lines| then None
    else if HeaderLike(lines[i]) then FindTable(lines, i + 1, Some(i))
    else if DividerLike(lines[i]) && header.Some? then Some((header.value, i))
    else FindTable(lines, i + 1, header)
  }

  predicate CanonicalTable(lines: seq<string>, header: nat, divider: nat)
    requires header < |lines| && divider < |lines|
  {
    Strip(lines[header]) == TABLE_HEADER && Strip(lines[divider]) == TABLE_DIVIDER
  }

  lemma {:induction false} FindTableFacts(lines: seq<string>, i: nat, header: Option<nat>)
    requires i <= |lines|
    requires header.Some? ==> header.value < i && HeaderLike(lines[header.value])
    ensures var t := FindTable(lines, i, header);
      t.Some? ==>
        && t.value.0 < t.value.1 < |lines| && i <= t.value.1
        && HeaderLike(lines[t.value.0]) && DividerLike(lines[t.value.1]) && !HeaderLike(lines[t.value.1])
        && (t.value.0 >= i || header == Some(t.value.0))
    decreases |lines| - i
  {
    if i < |lines| && !(DividerLike(lines[i]) && !HeaderLike(lines[i]) && header.Some?) {
      FindTableFacts(lines, i + 1, if HeaderLike(lines[i]) then Some(i) else header);
    }
  }

  /** Replacing lines by lines of the same kind does not move the table. */
  lemma {:induction false} FindTableSameKinds(lines: seq<string>, lines': seq<string>, i: nat, header: Option<nat>)
    requires i <= |lines| == |lines'|
    requires forall k :: i <= k < |lines| ==>
      (HeaderLike(lines'[k]) <==> HeaderLike(lines[k])) &&
      (!HeaderLike(lines[k]) ==> (DividerLike(lines'[k]) <==> DividerLike(lines[k])))
    ensures FindTable(lines', i, header) == FindTable(lines, i, header)
    decreases |lines| - i
  {
    if i < |lines| {
      FindTableSameKinds(lines, lines', i + 1, if HeaderLike(lines[i]) then Some(i) else header);
    }
  }

  /** A line that is no divider, added at the end, cannot complete a table. */
  lemma {:induction false} FindTableAppend(lines: seq<string>, line: string, i: nat, header: Option<nat>)
    requires i <= |lines| && !DividerLike(line)
    ensures FindTable(lines + [line], i, header) == FindTable(lines, i, header)
    decreases |lines| - i
  {
    if i < |lines| {
      FindTableAppend(lines, line, i + 1, if HeaderLike(lines[i]) then Some(i) else header);
    } else {
      assert (lines + [line])[i] == line;
      assert FindTable(lines + [line], i + 1, if HeaderLike(line) then Some(i) else header) == None;
    }
  }

  /** The text after _ensure_status_section; None is a file that does not exist. */
  function EnsureText(file: Option<string>): string {
    var text := if file.None? then PREAMBLE else file.value;
    if !Contains(text, SECTION_HEADER) then
      text + (if EndsWithNewline(text) then "" else "\n") + NEW_SECTION
    else
      EnsureTable(text)
  }

  /** The part for a text that already mentions the heading: canonicalise the table's two lines. */
  function EnsureTable(text: string): string {
    var lines := SplitLines(text);
    if !HasSection(lines) then text
    else
      var table := FindTable(lines, FirstStart(lines) + 1, None);
      if table.None? then text
      else
        FindTableFacts(lines, FirstStart(lines) + 1, None);
        var (header, divider) := table.value;
        if CanonicalTable(lines, header, divider) then text
        else Unlines(Rewrite(lines, header, divider))
  }

  function Rewrite(lines: seq<string>, header: nat, divider: nat): (r: seq<string>)
    requires header < |lines| && divider < |lines|
    ensures |r| == |lines|
  {
    lines[header := TABLE_HEADER][divider := TABLE_DIVIDER]
  }

  /** The set-up step finds nothing to rewrite from line i on. */
  predicate EnsuredTable(lines: seq<string>, i: nat)
    requires i <= |lines|
  {
    FindTableFacts(lines, i, None);
    var table := FindTable(lines, i, None);
    table.Some? ==> CanonicalTable(lines, table.value.0, table.value.1)
  }

  /** A ledger whose next append lands at the end of its status section. */
  predicate Ready(text: string) {
    && EndsWithNewline(text)
    && Contains(text, SECTION_HEADER)
    && SectionIsLast(SplitLines(text))
    && EnsuredTable(SplitLines(text), FirstStart(SplitLines(text)) + 1)
  }

  /** The status section's table is there. */
  predicate HasTable(lines: seq<string>) {
    HasSection(lines) && FindTable(lines, FirstStart(lines) + 1, None).Some?
  }

  /** The data rows every reader sees. */
  function RowsOf(file: Option<string>): seq<Cells> {
    match file
    case None => []
    case Some(text) => DataRows(Section(SplitLines(text)))
  }

  // ----- A fresh section -----

  lemma OneMoreLine(text: string, line: string)
    requires EndsWithNewline(text) && OneLine(line)
    ensures SplitLines(text + line + "\n") == SplitLines(text) + [line]
    ensures EndsWithNewline(text + line + "\n")
  {
    AppendLine(text, line);
    assert text + (line + "\n") == text + line + "\n";
  }

  lemma TwoMoreLines(text: string, a: string, b: string)
    requires EndsWithNewline(text) && OneLine(a) && OneLine(b)
    ensures SplitLines(text + a + "\n" + b + "\n") == SplitLines(text) + [a, b]
    ensures EndsWithNewline(text + a + "\n" + b + "\n")
  {
    OneMoreLine(text, a);
    OneMoreLine(text + a + "\n", b);
    assert SplitLines(text) + [a] + [b] == SplitLines(text) + [a, b];
  }

  lemma BlankLine()
    ensures SplitLines("\n") == [""]
  {
    SplitLinesOne("");
    assert "" + "\n" == "\n";
  }

  lemma FourLines(h: string, t: string, d: string)
    requires OneLine(h) && OneLine(t) && OneLine(d)
    ensures SplitLines("\n" + h + "\n" + "" + "\n" + t + "\n" + d + "\n") == ["", h, "", t, d]
  {
    BlankLine();
    var text := "\n" + h + "\n" + "" + "\n";
    TwoMoreLines("\n", h, "");
    assert SplitLines(text) == [""] + [h, ""];
    TwoMoreLines(text, t, d);
  }

  lemma NewSectionLines()
    ensures SplitLines(NEW_SECTION) == ["", SECTION_HEADER, "", TABLE_HEADER, TABLE_DIVIDER]
    ensures EndsWithNewline(NEW_SECTION)
  {
    HeaderLine();
    DividerLine();
    SectionLine();
    FourLines(SECTION_HEADER, TABLE_HEADER, TABLE_DIVIDER);
  }

  lemma FreshTable(lines: seq<string>, before: seq<string>)
    requires lines == before + ["", SECTION_HEADER, "", TABLE_HEADER, TABLE_DIVIDER]
    requires forall l :: l in before ==> !IsSectionStart(l)
    ensures SectionIsLast(lines) && FirstStart(lines) == |before| + 1
    ensures Section(lines) == ["", TABLE_HEADER, TABLE_DIVIDER]
    ensures EnsuredTable(lines, |before| + 2) && HasTable(lines)
  {
    hide FirstStart, SectionEnd, IsSectionStart, EnsuredTable;
    HeadingStarts();
    FixedLinesDoNotStop();
    var body := ["", TABLE_HEADER, TABLE_DIVIDER];
    SectionIs(before + [""], SECTION_HEADER, body, []);
    assert lines == (before + [""]) + [SECTION_HEADER] + body + [];
    FreshTableFound(lines, |before| + 2);
  }

  lemma HeadingStarts()
    ensures IsSectionStart(SECTION_HEADER)
  {
    SectionLine();
    StripFacts(SECTION_HEADER, IsSpace);
  }

  lemma FreshTableFound(lines: seq<string>, i: nat)
    requires i + 3 == |lines| && lines[i..] == ["", TABLE_HEADER, TABLE_DIVIDER]
    ensures EnsuredTable(lines, i) && FindTable(lines, i, None).Some?
  {
    CanonicalLines();
    HeaderLine();
    DividerLine();
    StripFacts(TABLE_HEADER, IsSpace);
    StripFacts(TABLE_DIVIDER, IsSpace);
    assert lines[i] == lines[i..][0] == "" && lines[i + 1] == lines[i..][1] && lines[i + 2] == lines[i..][2];
    assert Strip("") == "";
    assert FindTable(lines, i + 2, Some(i + 1)) == Some((i + 1, i + 2));
    assert FindTable(lines, i + 1, None) == FindTable(lines, i + 2, Some(i + 1));
    assert FindTable(lines, i, None) == FindTable(lines, i + 1, None);
  }

  lemma FixedLinesDoNotStop()
    ensures !IsSectionStop("") && !IsSectionStop(TABLE_HEADER) && !IsSectionStop(TABLE_DIVIDER)
    ensures !IsSectionStart("")
  {
    HeaderLine();
    DividerLine();
    SectionLine();
    assert TABLE_HEADER[0] == HEADER_PREFIX[0] == '|';
    assert TABLE_DIVIDER[0] == DIVIDER_PREFIX[0] == '|';
    assert Strip("") == "";
  }

  lemma FreshRows()
    ensures DataRows(["", TABLE_HEADER, TABLE_DIVIDER]) == []
  {
    CanonicalLines();
    assert ["", TABLE_HEADER, TABLE_DIVIDER] == ([] + [""]) + [TABLE_HEADER] + [TABLE_DIVIDER];
    DataRowsSnoc([], "");
    DataRowsSnoc([] + [""], TABLE_HEADER);
    DataRowsSnoc(([] + [""]) + [TABLE_HEADER], TABLE_DIVIDER);
  }

  /** Adding a section to text that has none yields a ready, empty ledger and keeps every line. */
  lemma FreshSection(base: string)
    requires EndsWithNewline(base) && !Contains(base, SECTION_HEADER)
    ensures Ready(base + NEW_SECTION)
    ensures RowsOf(Some(base + NEW_SECTION)) == [] && HasTable(SplitLines(base + NEW_SECTION))
    ensures SplitLines(base) <= SplitLines(base + NEW_SECTION)
  {
    var text := base + NEW_SECTION;
    NoHeadingNoSection(base);
    NewSectionLines();
    SplitLinesConcat(base, NEW_SECTION);
    var lines := SplitLines(text);
    FreshTable(lines, SplitLines(base));
    FreshRows();
    HeadingContained(text, lines);
  }

  lemma HeadingContained(text: string, lines: seq<string>)
    requires lines == SplitLines(text) && HasSection(lines)
    ensures Contains(text, SECTION_HEADER)
  {
    var l := lines[FirstStart(lines)];
    LineContained(text, l);
    StripContained(l, IsSpace);
    ContainsTransitive(text, l, SECTION_HEADER);
  }

  lemma NewlineHidesNothing(text: string, sub: string)
    requires sub != "" && sub[|sub| - 1] != '\n'
    ensures Contains(text + "\n", sub) ==> Contains(text, sub)
  {
    var s := text + "\n";
    if i :| 0 <= i <= |s| && sub <= s[i..] {
      assert s[i..][|sub| - 1] == sub[|sub| - 1];
      assert i + |sub| <= |text|;
      assert s[i..][..|sub|] == text[i..][..|sub|];
      assert sub <= text[i..];
    }
  }

  lemma HeadingChars()
    ensures |SECTION_HEADER| >= 2 && SECTION_HEADER[|SECTION_HEADER| - 1] == 's'
    ensures SECTION_HEADER[1] == '#'
  {
  }

  lemma NoLaterHash(s: string)
    requires forall k :: 0 < k < |s| ==> s[k] != '#'
    ensures !Contains(s, SECTION_HEADER)
  {
    HeadingChars();
    forall i | 0 <= i <= |s| ensures !(SECTION_HEADER <= s[i..]) {
      assert i + 1 < |s| ==> s[i..][1] == s[i + 1];
    }
  }

  lemma PurposeChars()
    ensures '#' !in PURPOSE
  {
    assert '#' !in "Purpose: Track every prompt ";
    assert '#' !in "executed by Codex or AI tools.\n\n";
  }

  lemma OtherChars()
    ensures '#' !in TITLE_TEXT && '#' !in POLICY && POLICY != "" && EndsWithNewline(POLICY)
  {
  }

  lemma PreambleHasNoHeading()
    ensures !Contains(PREAMBLE, SECTION_HEADER) && EndsWithNewline(PREAMBLE)
  {
    PurposeChars();
    OtherChars();
    OnlyFirstHash(TITLE_TEXT, PURPOSE, POLICY);
  }

  lemma OnlyFirstHash(a: string, b: string, c: string)
    requires '#' !in a && '#' !in b && '#' !in c && EndsWithNewline(c) && c != ""
    ensures !Contains("#" + a + b + c, SECTION_HEADER) && EndsWithNewline("#" + a + b + c)
  {
    var rest := a + b + c;
    var text := "#" + a + b + c;
    assert text == ['#'] + rest;
    forall k | 0 < k < |text| ensures text[k] != '#' {
      assert text[k] == rest[k - 1] && rest[k - 1] in rest;
    }
    NoLaterHash(text);
  }

  /** The first append to a missing file, or to a file that never mentions the heading. */
  lemma EnsureMakesFresh(file: Option<string>)
    requires file.None? || !Contains(file.value, SECTION_HEADER)
    ensures Ready(EnsureText(file)) && RowsOf(Some(EnsureText(file))) == [] && HasTable(SplitLines(EnsureText(file)))
  {
    if file.None? {
      PreambleHasNoHeading();
      FreshSection(PREAMBLE);
      assert PREAMBLE + "" == PREAMBLE;
    } else if EndsWithNewline(file.value) {
      FreshSection(file.value);
      assert file.value + "" == file.value;
    } else {
      HeadingChars();
      NewlineHidesNothing(file.value, SECTION_HEADER);
      FreshSection(file.value + "\n");
    }
  }

  // ----- Setting up again, and appending -----

  lemma TrimmedFixedLines()
    ensures Strip(TABLE_HEADER) == TABLE_HEADER && Strip(TABLE_DIVIDER) == TABLE_DIVIDER
    ensures OneLine(TABLE_HEADER) && OneLine(TABLE_DIVIDER)
  {
    HeaderLine();
    DividerLine();
    StripFacts(TABLE_HEADER, IsSpace);
    StripFacts(TABLE_DIVIDER, IsSpace);
  }

  lemma RewrittenTable(lines: seq<string>, start: nat, h: nat, d: nat, lines': seq<string>)
    requires start < |lines| && FirstStart(lines) == start
    requires FindTable(lines, start + 1, None) == Some((h, d))
    requires h < |lines| && d < |lines| && lines' == Rewrite(lines, h, d)
    ensures FirstStart(lines') == start && EnsuredTable(lines', start + 1)
  {
    hide FindTable, HeaderLike, DividerLike, IsSectionStart;
    FindTableFacts(lines, start + 1, None);
    FirstStartIs(lines', start);
    CanonicalLines();
    FindTableSameKinds(lines, lines', start + 1, None);
    TrimmedFixedLines();
  }

  lemma EnsureTableIdempotent(text: string)
    requires Contains(text, SECTION_HEADER)
    ensures Contains(EnsureTable(text), SECTION_HEADER)
    ensures EnsureTable(EnsureTable(text)) == EnsureTable(text)
  {
    var lines := SplitLines(text);
    if HasSection(lines) {
      var table := FindTable(lines, FirstStart(lines) + 1, None);
      if table.Some? {
        FindTableFacts(lines, FirstStart(lines) + 1, None);
        if !CanonicalTable(lines, table.value.0, table.value.1) {
          RewriteStays(text, lines, table.value.0, table.value.1);
        }
      }
    }
  }

  lemma EnsuredMeansUnchanged(text: string)
    requires Ready(text)
    ensures EnsureText(Some(text)) == text
  {
  }

  /** Setting up the section twice changes nothing more than setting it up once, for every file. */
  lemma EnsureIdempotent(file: Option<string>)
    ensures EnsureText(Some(EnsureText(file))) == EnsureText(file)
  {
    if file.None? || !Contains(file.value, SECTION_HEADER) {
      EnsureMakesFresh(file);
      EnsuredMeansUnchanged(EnsureText(file));
    } else {
      EnsureTableIdempotent(file.value);
    }
  }

  lemma RewriteStays(text: string, lines: seq<string>, h: nat, d: nat)
    requires lines == SplitLines(text) && HasSection(lines)
    requires FindTable(lines, FirstStart(lines) + 1, None) == Some((h, d))
    requires h < |lines| && d < |lines|
    ensures var text' := Unlines(Rewrite(lines, h, d)); Contains(text', SECTION_HEADER) && EnsureTable(text') == text'
  {
    hide SplitLines, Unlines, FindTable, OneLine, Contains, EnsureTable, EnsuredTable, FirstStart, Rewrite;
    hide IsSectionStart;
    var lines' := Rewrite(lines, h, d);
    RewrittenTable(lines, FirstStart(lines), h, d, lines');
    LinesAreOneLine(text);
    RewriteIsOneLine(lines, h, d);
    SplitUnlines(lines');
    TableStays(Unlines(lines'), lines');
  }

  lemma RewriteIsOneLine(lines: seq<string>, h: nat, d: nat)
    requires h < |lines| && d < |lines| && forall l :: l in lines ==> OneLine(l)
    ensures forall l :: l in Rewrite(lines, h, d) ==> OneLine(l)
  {
    hide OneLine, Strip;
    TrimmedFixedLines();
  }

  lemma TableStays(text: string, lines: seq<string>)
    requires lines == SplitLines(text) && HasSection(lines) && EnsuredTable(lines, FirstStart(lines) + 1)
    ensures Contains(text, SECTION_HEADER) && EnsureTable(text) == text
  {
    hide SplitLines, Contains, FindTable, FirstStart;
    HeadingContained(text, lines);
  }

  /** Appending one row line to a ready ledger keeps it ready and adds exactly that row. */
  lemma AppendToReady(text: string, line: string)
    requires Ready(text)
    requires OneLine(line) && !IsSectionStop(line) && !DividerLike(line)
    ensures Ready(text + (line + "\n"))
    ensures RowsOf(Some(text + (line + "\n")))
         == RowsOf(Some(text)) + (if IsRow(line) then [SplitRow(line)] else [])
  {
    var lines, text' := SplitLines(text), text + (line + "\n");
    AppendLine(text, line);
    AppendToSection(lines, line);
    DataRowsSnoc(Section(lines), line);
    HeadingContained(text', lines + [line]);
    var start := FirstStart(lines);
    FirstStartIs(lines + [line], start);
    FindTableAppend(lines, line, start + 1, None);
    FindTableFacts(lines, start + 1, None);
  }
}
