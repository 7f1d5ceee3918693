/**
  What setting up and repairing a ledger do to each line of the file (prompt_engine/ledger_updater.py,
  _ensure_status_section and repair_hash_chain).
*/
module LedgerLinesKept {
  import opened Wrappers
  import opened PyText
  import opened LedgerRow
  import opened LedgerFormat
  import opened LedgerChain
  import opened LedgerSection
  import opened LedgerSetup
  import opened LedgerRepair

  // ----- Repair -----

  /**
    The cells of a rewritten row: the nine descriptive ones as they were, then two hashes of which the second
    covers the row.
  */
  predicate RelinkedFrom(hash: string -> string, before: Cells, cells: Cells) {
    && |before| >= 9 && |cells| == 11
    && cells[..9] == before[..9]
    && cells[10] == hash(before[0] + "|" + before[3] + "|" + before[2] + "|" + cells[9])
  }

  /** What the repair makes of one line of the section. */
  predicate LineRepaired(hash: string -> string, line: string, out: string) {
    var stripped := Strip(line);
    if !("|" <= stripped) then out == line
    else if HEADER_PREFIX <= stripped then out == TABLE_HEADER
    else if DIVIDER_PREFIX <= stripped then out == TABLE_DIVIDER
    else if |SplitRow(line)| < 9 then out == line
    else RelinkedFrom(hash, SplitRow(line), SplitRow(out))
  }

  predicate NoHeaderLine(section: seq<string>) {
    forall l :: l in section ==> !(HEADER_PREFIX <= Strip(l))
  }

  /** The lines put in front of the section's own: the table's two when it had no header. */
  function Inserted(section: seq<string>): nat { if NoHeaderLine(section) then 2 else 0 }

  /** Line by line: what is outside the section, what is inserted, and what becomes of the section. */
  predicate FileRepaired(hash: string -> string, lines: seq<string>, lines': seq<string>)
    requires HasSection(lines)
  {
    var s, e, shift := FirstStart(lines), SectionEnd(lines), Inserted(Section(lines));
    && |lines'| == |lines| + shift
    && (forall k :: 0 <= k <= s ==> lines'[k] == lines[k])
    && (shift == 2 ==> lines'[s + 1] == TABLE_HEADER && lines'[s + 2] == TABLE_DIVIDER)
    && (forall k :: s < k < e ==> LineRepaired(hash, lines[k], lines'[k + shift]))
    && (forall k :: e <= k < |lines| ==> lines'[k + shift] == lines[k])
  }

  lemma EachLineRepaired(hash: string -> string, line: string, prev: string)
    requires Digests(hash) && OneLine(line) && CleanCell(prev) && OneLine(prev)
    ensures LineRepaired(hash, line, RepairedLine(hash, line, prev))
  {
    HeaderLine();
    DividerLine();
    if IsFullRow(line) {
      RelinkedRow(hash, line, prev);
      CellsRelinked(hash, SplitRow(line), prev);
    }
  }

  lemma CellsRelinked(hash: string -> string, cells: Cells, prev: string)
    requires |cells| >= 9
    ensures RelinkedFrom(hash, cells, RelinkedCells(hash, cells, prev))
  {
  }

  lemma {:induction false} SectionRepaired(hash: string -> string, section: seq<string>)
    requires Digests(hash) && SectionLines(section)
    ensures forall k :: 0 <= k < |section| ==> LineRepaired(hash, section[k], Repaired(hash, section)[k])
  {
    hide LineRepaired, RepairedLine, CleanCell, OneLine, RepairPrev;
    if section != [] {
      var front, last := section[..|section| - 1], section[|section| - 1];
      SectionRepaired(hash, front);
      RepairPrevClean(hash, front);
      EachLineRepaired(hash, last, RepairPrev(hash, front));
    }
  }

  lemma BodyLines(hash: string -> string, section: seq<string>)
    requires Digests(hash) && SectionLines(section)
    ensures var body, shift := RepairBody(hash, section), Inserted(section);
      && |body| == |section| + shift
      && (shift == 2 ==> body[0] == TABLE_HEADER && body[1] == TABLE_DIVIDER)
      && forall k :: 0 <= k < |section| ==> LineRepaired(hash, section[k], body[k + shift])
  {
    hide LineRepaired, Repaired, SectionLines;
    SectionRepaired(hash, section);
    assert HasHeader(section) <==> !NoHeaderLine(section);
  }

  /**
    The repair keeps every line it does not have to rewrite at its place: lines outside the section, blank
    lines, prose and short rows inside it. Header-like and divider-like lines become the table's two fixed
    lines, full rows keep their nine descriptive cells, and only a missing table header is added.
  */
  lemma RepairKeepsLines(hash: string -> string, text: string)
    requires Digests(hash)
    ensures var lines := SplitLines(text);
      if HasSection(lines) then FileRepaired(hash, lines, SplitLines(RepairText(hash, text)))
      else RepairText(hash, text) == text
  {
    hide SplitLines, RepairText, LineRepaired, RepairBody, FirstStart, SectionEnd, Inserted, SectionLines;
    var lines := SplitLines(text);
    if HasSection(lines) {
      var lines' := SplitLines(RepairText(hash, text));
      var section := Section(lines);
      SectionOfText(text);
      RepairedLines(hash, text);
      BodyLines(hash, section);
      Assembled(hash, lines, lines', RepairBody(hash, section));
    } else {
      NothingRepaired(hash, text);
    }
  }

  lemma NothingRepaired(hash: string -> string, text: string)
    requires !HasSection(SplitLines(text))
    ensures RepairText(hash, text) == text
  {
  }

  /** Where the lines stand when body takes the place of section between the same lines. */
  lemma Shifted(lines: seq<string>, lines': seq<string>, s: nat, e: nat, e': nat, shift: nat)
    requires s < e <= |lines| && s < e' <= |lines'| && e' == e + shift
    requires lines'[..s + 1] == lines[..s + 1] && lines'[e'..] == lines[e..]
    ensures |lines'| == |lines| + shift
    ensures forall k :: 0 <= k <= s ==> lines'[k] == lines[k]
    ensures forall k :: e <= k < |lines| ==> lines'[k + shift] == lines[k]
  {
    assert |lines'[e'..]| == |lines[e..]|;
    forall k | 0 <= k <= s ensures lines'[k] == lines[k] {
      assert lines'[..s + 1][k] == lines[..s + 1][k];
    }
    forall k | e <= k < |lines| ensures lines'[k + shift] == lines[k] {
      assert lines'[e'..][k - e] == lines[e..][k - e];
    }
  }

  lemma BodyRepaired(hash: string -> string, lines: seq<string>, lines': seq<string>, s: nat, e: nat, e': nat,
                     shift: nat,
                     section: seq<string>, body: seq<string>)
    requires s < e <= |lines| && s < e' <= |lines'| && e' == e + shift
    requires section == lines[s + 1..e] && body == lines'[s + 1..e']
    requires forall k :: 0 <= k < |section| ==> LineRepaired(hash, section[k], body[k + shift])
    ensures forall k :: s < k < e ==> LineRepaired(hash, lines[k], lines'[k + shift])
  {
    hide LineRepaired;
    forall k | s < k < e ensures LineRepaired(hash, lines[k], lines'[k + shift]) {
      var i := k - s - 1;
      assert section[i] == lines[k] && body[i + shift] == lines'[k + shift];
    }
  }

  lemma Assembled(hash: string -> string, lines: seq<string>, lines': seq<string>, body: seq<string>)
    requires HasSection(lines) && HasSection(lines') && Section(lines') == body &&
      FirstStart(lines') == FirstStart(lines)
    requires lines'[..FirstStart(lines) + 1] == lines[..FirstStart(lines) + 1]
    requires lines'[SectionEnd(lines')..] == lines[SectionEnd(lines)..]
    requires var section := Section(lines);
      && |body| == |section| + Inserted(section)
      && (Inserted(section) == 2 ==> body[0] == TABLE_HEADER && body[1] == TABLE_DIVIDER)
      && forall k :: 0 <= k < |section| ==> LineRepaired(hash, section[k], body[k + Inserted(section)])
    ensures FileRepaired(hash, lines, lines')
  {
    hide LineRepaired, Inserted, IsSectionStart, FirstStart, SectionEnd;
    var s, e, e' := FirstStart(lines), SectionEnd(lines), SectionEnd(lines');
    var shift := Inserted(Section(lines));
    SectionIsSlice(lines);
    SectionIsSlice(lines');
    Shifted(lines, lines', s, e, e', shift);
    BodyRepaired(hash, lines, lines', s, e, e', shift, Section(lines), body);
  }

  lemma SectionIsSlice(lines: seq<string>)
    requires HasSection(lines)
    ensures FirstStart(lines) < SectionEnd(lines) <= |lines|
    ensures Section(lines) == lines[FirstStart(lines) + 1..SectionEnd(lines)]
  {
    hide FirstStart, SectionEnd, IsSectionStart, IsSectionStop;
  }

  // ----- Set-up -----

  predicate IsHeader(line: string) { HEADER_PREFIX <= Strip(line) }

  predicate IsDivider(line: string) { DIVIDER_PREFIX <= Strip(line) && !IsHeader(line) }

  /** No divider from start up to end has a header before it. */
  predicate NoTable(lines: seq<string>, start: nat, end: nat)
    requires end <= |lines|
  {
    forall k, j :: start <= j < k < end && IsDivider(lines[k]) ==> !IsHeader(lines[j])
  }

  /** The first divider with a header before it, and the last header before that divider. */
  predicate FirstTable(lines: seq<string>, start: nat, h: nat, d: nat) {
    && start <= h < d < |lines|
    && IsHeader(lines[h]) && IsDivider(lines[d])
    && (forall k :: h < k < d ==> !IsHeader(lines[k]))
    && NoTable(lines, start, d)
  }

  /** What the search knows at line i. */
  ghost predicate Searching(lines: seq<string>, start: nat, i: nat, header: Option<nat>) {
    && start <= i <= |lines|
    && NoTable(lines, start, i)
    && match header
       case None => forall k :: start <= k < i ==> !IsHeader(lines[k])
       case Some(x) => start <= x < i && IsHeader(lines[x]) && forall k :: x < k < i ==> !IsHeader(lines[k])
  }

  lemma {:induction false} SearchFindsFirst(lines: seq<string>, start: nat, i: nat, header: Option<nat>)
    requires Searching(lines, start, i, header)
    ensures match FindTable(lines, i, header)
      case None => NoTable(lines, start, |lines|)
      case Some((h, d)) => FirstTable(lines, start, h, d)
    decreases |lines| - i
  {
    hide Strip;
    if i < |lines| {
      if IsHeader(lines[i]) {
        SearchFindsFirst(lines, start, i + 1, Some(i));
      } else if !(IsDivider(lines[i]) && header.Some?) {
        SearchFindsFirst(lines, start, i + 1, header);
      }
    }
  }

  /** The table's two lines are as the ledger writes them, blanks around them aside. */
  predicate Canonical(lines: seq<string>, h: nat, d: nat)
    requires h < |lines| && d < |lines|
  {
    Strip(lines[h]) == TABLE_HEADER && Strip(lines[d]) == TABLE_DIVIDER
  }

  /** The set-up of a text that has the heading somewhere. */
  ghost predicate TableSetUp(text: string, out: string) {
    var lines := SplitLines(text);
    if !HasSection(lines) then out == text
    else
      var start := FirstStart(lines) + 1;
      && (NoTable(lines, start, |lines|) ==> out == text)
      && forall h: nat, d: nat :: FirstTable(lines, start, h, d) ==>
           if Canonical(lines, h, d) then out == text
           else SplitLines(out) == lines[h := TABLE_HEADER][d := TABLE_DIVIDER]
  }

  lemma FirstTableUnique(lines: seq<string>, start: nat, h: nat, d: nat, h': nat, d': nat)
    requires FirstTable(lines, start, h, d) && FirstTable(lines, start, h', d')
    ensures h == h' && d == d'
  {
    hide IsHeader, IsDivider;
  }

  lemma TableExcludesNone(lines: seq<string>, start: nat, h: nat, d: nat)
    requires FirstTable(lines, start, h, d)
    ensures !NoTable(lines, start, |lines|)
  {
    hide IsHeader, IsDivider;
  }

  lemma HeadingSetUp(text: string)
    ensures TableSetUp(text, EnsureTable(text))
  {
    hide SplitLines, Unlines, FindTable, FirstStart, FirstTable, NoTable, Canonical, IsHeader, IsDivider;
    var lines := SplitLines(text);
    if HasSection(lines) {
      var start := FirstStart(lines) + 1;
      StartSearching(lines, start);
      SearchFindsFirst(lines, start, start, None);
      match FindTable(lines, start, None)
      case None =>
        forall h: nat, d: nat | FirstTable(lines, start, h, d) ensures false {
          TableExcludesNone(lines, start, h, d);
        }
      case Some((h, d)) =>
        TableExcludesNone(lines, start, h, d);
        FindTableFacts(lines, start, None);
        forall h': nat, d': nat | FirstTable(lines, start, h', d') ensures h' == h && d' == d {
          FirstTableUnique(lines, start, h, d, h', d');
        }
        CanonicalIs(lines, h, d);
        if !Canonical(lines, h, d) {
          RewriteSplits(text, lines, h, d);
        }
    }
  }

  lemma StartSearching(lines: seq<string>, start: nat)
    requires start <= |lines|
    ensures Searching(lines, start, start, None)
  {
    hide IsHeader, IsDivider;
  }

  lemma CanonicalIs(lines: seq<string>, h: nat, d: nat)
    requires h < |lines| && d < |lines|
    ensures Canonical(lines, h, d) <==> CanonicalTable(lines, h, d)
  {
  }

  lemma RewriteSplits(text: string, lines: seq<string>, h: nat, d: nat)
    requires lines == SplitLines(text) && h < |lines| && d < |lines|
    ensures SplitLines(Unlines(Rewrite(lines, h, d))) == lines[h := TABLE_HEADER][d := TABLE_DIVIDER]
  {
    hide SplitLines, Unlines, OneLine;
    LinesAreOneLine(text);
    RewriteIsOneLine(lines, h, d);
    SplitUnlines(Rewrite(lines, h, d));
  }

  /**
    The set-up keeps what is in the file. Without the heading it only adds a section at the end; with it
    nothing changes but the first table's header and divider lines, when they are not as they should be.
  */
  lemma SetupKeepsLines(text: string)
    ensures !Contains(text, SECTION_HEADER) ==> EnsureText(Some(text)) == text + Gap(text) + FreshLines()
    ensures Contains(text, SECTION_HEADER) ==> TableSetUp(text, EnsureText(Some(text)))
  {
    hide Contains, EnsureTable, FreshLines, TableSetUp, EnsureText;
    if Contains(text, SECTION_HEADER) {
      SetupOfHeading(text);
      HeadingSetUp(text);
    } else {
      FreshLinesAre();
      SetupAdds(text, NEW_SECTION);
    }
  }

  /** What completes an unfinished last line. */
  function Gap(text: string): string { if text != "" && text[|text| - 1] == '\n' then "" else "\n" }

  lemma SetupOfHeading(text: string)
    requires Contains(text, SECTION_HEADER)
    ensures EnsureText(Some(text)) == EnsureTable(text)
  {
    hide Contains, EnsureTable;
  }

  lemma SetupAdds(text: string, section: string)
    requires !Contains(text, SECTION_HEADER) && section == NEW_SECTION
    ensures EnsureText(Some(text)) == text + Gap(text) + section
  {
    hide Contains, EnsureTable;
  }

  /** A blank line, the heading, a blank line and the table's two lines. */
  function FreshLines(): string {
    "\n" + SECTION_HEADER + "\n" + "\n" + TABLE_HEADER + "\n" + TABLE_DIVIDER + "\n"
  }

  lemma FreshLinesAre()
    ensures NEW_SECTION == FreshLines()
  {
    assert "\n" + SECTION_HEADER + "\n" + "" == "\n" + SECTION_HEADER + "\n";
  }
}
