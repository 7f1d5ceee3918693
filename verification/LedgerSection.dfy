/**
  Where the status section lies in the ledger's lines, how it is set up, and what
  appending a line at the end of the file does to it (prompt_engine/ledger_updater.py).
*/
module LedgerSection {
  import opened PyText
  import opened LedgerFormat

  // ----- Location -----

  predicate IsSectionStart(line: string) { Strip(line) == SECTION_HEADER }

  predicate IsSectionStop(line: string) { "## " <= line }

  function FirstStart(lines: seq<string>): (i: nat)
    ensures i <= |lines|
    ensures i < |lines| ==> IsSectionStart(lines[i])
    ensures forall k :: 0 <= k < i ==> !IsSectionStart(lines[k])
  {
    if lines == [] || IsSectionStart(lines[0]) then 0 else 1 + FirstStart(lines[1..])
  }

  function FirstStop(lines: seq<string>): (i: nat)
    ensures i <= |lines|
    ensures i < |lines| ==> IsSectionStop(lines[i])
    ensures forall k :: 0 <= k < i ==> !IsSectionStop(lines[k])
  {
    if lines == [] || IsSectionStop(lines[0]) then 0 else 1 + FirstStop(lines[1..])
  }

  predicate HasSection(lines: seq<string>) { FirstStart(lines) < |lines| }

  function SectionEnd(lines: seq<string>): (e: nat)
    requires HasSection(lines)
    ensures FirstStart(lines) < e <= |lines|
  {
    FirstStart(lines) + 1 + FirstStop(lines[FirstStart(lines) + 1..])
  }

  /** The lines between the section's heading and the next second-level heading. */
  function Section(lines: seq<string>): seq<string> {
    if HasSection(lines) then lines[FirstStart(lines) + 1..SectionEnd(lines)] else []
  }

  /** No later heading ends the section before the end of the file. */
  predicate SectionIsLast(lines: seq<string>) {
    HasSection(lines) && SectionEnd(lines) == |lines|
  }

  lemma FirstStartIs(lines: seq<string>, i: nat)
    requires i <= |lines| && (i < |lines| ==> IsSectionStart(lines[i]))
    requires forall k :: 0 <= k < i ==> !IsSectionStart(lines[k])
    ensures FirstStart(lines) == i
  {
  }

  lemma FirstStopIs(lines: seq<string>, i: nat)
    requires i <= |lines| && (i < |lines| ==> IsSectionStop(lines[i]))
    requires forall k :: 0 <= k < i ==> !IsSectionStop(lines[k])
    ensures FirstStop(lines) == i
  {
  }

  /** A section is determined by its heading, its body and where the body stops. */
  lemma SectionIs(before: seq<string>, heading: string, body: seq<string>, after: seq<string>)
    requires forall l :: l in before ==> !IsSectionStart(l)
    requires IsSectionStart(heading)
    requires forall l :: l in body ==> !IsSectionStop(l)
    requires after == [] || IsSectionStop(after[0])
    ensures var lines := before + [heading] + body + after;
      && HasSection(lines) && FirstStart(lines) == |before|
      && SectionEnd(lines) == |before| + 1 + |body| && Section(lines) == body
  {
    var lines := before + [heading] + body + after;
    FirstStartIs(lines, |before|);
    assert lines[|before| + 1..] == body + after;
    FirstStopIs(body + after, |body|);
    assert lines[|before| + 1..|before| + 1 + |body|] == body;
  }

  lemma SplitAtSection(lines: seq<string>)
    requires HasSection(lines)
    ensures var s, e := FirstStart(lines), SectionEnd(lines);
      && lines == lines[..s] + [lines[s]] + Section(lines) + lines[e..]
      && (forall l :: l in lines[..s] ==> !IsSectionStart(l))
      && (forall l :: l in Section(lines) ==> !IsSectionStop(l))
      && (lines[e..] == [] || IsSectionStop(lines[e..][0]))
  {
    var s, e := FirstStart(lines), SectionEnd(lines);
    CutTwice(lines, s, e);
    SectionLinesDoNotStop(lines);
  }

  lemma CutTwice(lines: seq<string>, s: nat, e: nat)
    requires s < e <= |lines|
    ensures lines == lines[..s] + [lines[s]] + lines[s + 1..e] + lines[e..]
  {
  }

  lemma SectionLinesDoNotStop(lines: seq<string>)
    requires HasSection(lines)
    ensures forall l :: l in Section(lines) ==> !IsSectionStop(l)
  {
    var s, e := FirstStart(lines), SectionEnd(lines);
    var rest := lines[s + 1..];
    forall l | l in Section(lines) ensures !IsSectionStop(l) {
      var k :| 0 <= k < e - s - 1 && Section(lines)[k] == l;
      assert rest[k] == l;
    }
  }

  /** A line at the end of the file belongs to the section exactly when the section is last. */
  lemma AppendToSection(lines: seq<string>, line: string)
    requires HasSection(lines) && !IsSectionStop(line)
    ensures HasSection(lines + [line])
    ensures SectionIsLast(lines) ==>
      SectionIsLast(lines + [line]) && Section(lines + [line]) == Section(lines) + [line]
    ensures !SectionIsLast(lines) ==> Section(lines + [line]) == Section(lines)
  {
    hide IsSectionStart, IsSectionStop, FirstStart, FirstStop;
    var s, e := FirstStart(lines), SectionEnd(lines);
    SplitAtSection(lines);
    var before, heading, body, after := lines[..s], lines[s], Section(lines), lines[e..];
    if after == [] {
      SectionIs(before, heading, body + [line], []);
      assert lines + [line] == before + [heading] + (body + [line]) + [];
    } else {
      SectionIs(before, heading, body, after + [line]);
      assert lines + [line] == before + [heading] + body + (after + [line]);
    }
  }

  // ----- Substrings -----

  predicate Contains(text: string, sub: string) {
    exists i :: 0 <= i <= |text| && sub <= text[i..]
  }

  lemma ContainsSlice(text: string, i: nat, j: nat)
    requires i <= j <= |text|
    ensures Contains(text, text[i..j])
  {
    assert text[i..][..j - i] == text[i..j];
    assert text[i..j] <= text[i..];
  }

  lemma PrefixContained(text: string, sub: string)
    ensures sub <= text ==> Contains(text, sub)
  {
    assert text[0..] == text;
  }

  lemma ContainsTransitive(a: string, b: string, c: string)
    requires Contains(a, b) && Contains(b, c)
    ensures Contains(a, c)
  {
    var i :| 0 <= i <= |a| && b <= a[i..];
    var j :| 0 <= j <= |b| && c <= b[j..];
    assert a[i..][j..] == a[i + j..];
    assert c <= a[i + j..];
  }

  lemma {:induction false} TrimContained(s: string, drop: char -> bool)
    ensures Contains(s, TrimLeft(s, drop)) && Contains(s, TrimRight(s, drop))
  {
    TrimRightFacts(s, drop);
    assert s[0..] == s;
    assert TrimRight(s, drop) <= s[0..];
    if s != "" && drop(s[0]) {
      TrimContained(s[1..], drop);
      ContainsSlice(s, 1, |s|);
      assert s[1..|s|] == s[1..];
      ContainsTransitive(s, s[1..], TrimLeft(s, drop));
    } else {
      assert TrimLeft(s, drop) <= s[0..];
    }
  }

  lemma StripContained(s: string, drop: char -> bool)
    ensures Contains(s, StripChars(s, drop))
  {
    TrimContained(s, drop);
    TrimContained(TrimLeft(s, drop), drop);
    ContainsTransitive(s, TrimLeft(s, drop), StripChars(s, drop));
  }

  lemma {:induction false} LineContained(s: string, line: string)
    requires line in SplitLines(s)
    ensures Contains(s, line)
    decreases |s|
  {
    var i := FirstBreak(s);
    if i == |s| {
      ContainsSlice(s, 0, |s|);
      assert s[0..|s|] == s;
    } else if line == s[..i] {
      ContainsSlice(s, 0, i);
      assert s[0..i] == s[..i];
    } else {
      var j := AfterBreak(s, i);
      LineContained(s[j..], line);
      ContainsSlice(s, j, |s|);
      assert s[j..|s|] == s[j..];
      ContainsTransitive(s, s[j..], line);
    }
  }

  lemma {:induction false} PieceContained(s: string, piece: string)
    requires piece in Split(s)
    ensures Contains(s, piece)
    ensures piece == Split(s)[0] ==> piece <= s
  {
    hide Contains;
    PrefixContained(s, piece);
    if s != "" {
      var rest := Split(s[1..]);
      PieceContained(s[1..], rest[0]);
      ContainsSlice(s, 1, |s|);
      assert s[1..|s|] == s[1..];
      if s[0] == '|' {
        if piece != "" {
          PieceContained(s[1..], piece);
          ContainsTransitive(s, s[1..], piece);
        }
      } else if piece == [s[0]] + rest[0] {
        assert s == [s[0]] + s[1..];
      } else {
        assert piece in rest[1..];
        PieceContained(s[1..], piece);
        ContainsTransitive(s, s[1..], piece);
      }
    }
  }

  lemma NoHeadingNoSection(text: string)
    requires !Contains(text, SECTION_HEADER)
    ensures forall l :: l in SplitLines(text) ==> !IsSectionStart(l)
  {
    forall l | l in SplitLines(text) ensures !IsSectionStart(l) {
      LineContained(text, l);
      StripContained(l, IsSpace);
      if IsSectionStart(l) {
        ContainsTransitive(text, l, Strip(l));
      }
    }
  }
}
