/**
 * The section-length checker and the parser that reads its report back: the
 * checker prints one line per `##` section, and the rewrite tool collects
 * the headings of the lines that say a section is short.
 */
module SectionCheck {
  import opened JsText
  import opened Outcomes
  import opened Decimal
  import opened MdSections

  /** The threshold's default, and what the command line passes. */
  const DefaultMinLength: nat := 200

  const CountLabel: string := "検出されたセクション数: "
  const ShortMid: string := "」の本文が"
  const ShortEnd: string := "文字と少なめです"
  const OkMid: string := "」の本文は"
  const OkEnd: string := "文字（OK）"

  /** The line printed for a short section. */
  function ShortLine(heading: string, len: nat): string {
    "「" + heading + ShortMid + Show(len) + ShortEnd
  }

  /** The line printed for a section long enough. */
  function OkLine(heading: string, len: nat): string {
    "「" + heading + OkMid + Show(len) + OkEnd
  }

  /** The line printed for a section with heading `h` and a body of `len` UTF-16 units. */
  function Report(h: string, len: nat, minLength: nat): (line: string)
    ensures len < minLength ==> line == ShortLine(h, len)
    ensures len >= minLength ==> line == OkLine(h, len)
  {
    if len < minLength then ShortLine(h, len) else OkLine(h, len)
  }

  /** The verdict on one section: short when its body has fewer than `minLength` UTF-16 units. */
  function SectionLine(raw: string, minLength: nat): string {
    Report(Heading(raw), Utf16Length(Body(raw)), minLength)
  }

  function LineOf(minLength: nat): Section -> string {
    (sec: Section) => SectionLine(sec.raw, minLength)
  }

  /** One verdict line per section, in order. */
  function SectionLines(secs: seq<Section>, minLength: nat): seq<string> {
    MapSeq(LineOf(minLength), secs)
  }

  /**
   * `checkSectionLengths(mdPath, minLength)`: what it prints on standard
   * output for the file's contents (`None` when the file cannot be read,
   * which is reported on standard error only). With no section it prints
   * the count and a warning on standard error.
   */
  function CheckOutput(file: Option<string>, minLength: nat): (out: string)
    ensures file.None? ==> out == ""
    ensures file.Some? ==> StartsWith(out, CountLabel + Show(|SplitSections(file.value).sections|) + "\n")
  {
    match file
    case None => ""
    case Some(raw) => ReportText(SplitSections(raw).sections, minLength)
  }

  /** The count line, then one line per section. */
  function ReportText(secs: seq<Section>, minLength: nat): (out: string)
    ensures StartsWith(out, CountLabel + Show(|secs|) + "\n")
  {
    CountLabel + Show(|secs|) + "\n" + Terminated(SectionLines(secs, minLength), '\n')
  }

  /** An article without a `##` heading gets the count 0 and no section line. */
  lemma NoHeadingReport(raw: string, minLength: nat)
    requires NoHeadingLine(raw, true)
    ensures CheckOutput(Some(raw), minLength) == CountLabel + "0\n"
  {
    assert SplitSections(raw).sections == [];
    assert Show(0) == "0";
  }

  // ---------------------------------------------------------------------------
  // Reading the report: `line.match(/^「(.+)」の本文が(\d+)文字と少なめです/)`

  /** The rest of the pattern, `」の本文が(\d+)文字と少なめです`, matches at position `j`. */
  predicate TailAt(line: string, j: nat)
    requires j <= |line|
  {
    var t := line[j..];
    StartsWith(t, ShortMid) && DigitRun(t[5..]) > 0 && StartsWith(t[5 + DigitRun(t[5..])..], ShortEnd)
  }

  /** Positions of `line` where the rest of the pattern matches. */
  function TailFits(line: string): nat -> bool {
    (k: nat) => k <= |line| && TailAt(line, k)
  }

  /** The greedy `(.+)`: the last end position, from `j` down to 2, after which the rest matches. */
  function LastTail(line: string, j: nat): Option<nat> {
    LastWhere(TailFits(line), 2, j)
  }

  /** The captured heading of a short-section line; `.` stops at a line terminator. */
  function ParseShortLine(line: string): (r: Option<string>)
    ensures r.Some? ==> r.value != [] && forall i :: 0 <= i < |r.value| ==> !IsLineTerminator(r.value[i])
  {
    if line == [] || line[0] != '「' then None
    else
      var lim := 1 + LineRun(line[1..]);
      match LastTail(line, lim)
      case None => None
      case Some(j) =>
        assert forall i :: 1 <= i < j ==> line[i] == line[1..][i - 1];
        Some(line[1..j])
  }

  function ParsedHeadings(lines: seq<string>): (r: seq<string>)
    ensures |r| <= |lines|
  {
    if lines == [] then []
    else match ParseShortLine(lines[0])
      case None => ParsedHeadings(lines[1..])
      case Some(h) => [h] + ParsedHeadings(lines[1..])
  }

  /**
   * `getShortSections(mdPath)`: the headings the checker reported short, in
   * order; `None` is a checker process that failed, which gives no heading.
   */
  function GetShortSections(output: Option<string>): (r: seq<string>)
    ensures output.None? ==> r == []
  {
    match output
    case None => []
    case Some(out) => ParsedHeadings(Split(out, '\n'))
  }

  // ---------------------------------------------------------------------------
  // The round trip

  /** Headings the parser can give back: one non-empty line without a closing bracket `」`. */
  predicate Printable(h: string) {
    h != [] && '」' !in h && forall i :: 0 <= i < |h| ==> !IsLineTerminator(h[i]) && h[i] != '\n'
  }

  /** A position holding `」の本文が` followed by digits and `文字と少なめです` is where the rest of the pattern matches. */
  lemma TailAtOf(line: string, j: nat, d: string)
    requires j <= |line| && line[j..] == ShortMid + d + ShortEnd
    requires d != [] && AllDigits(d)
    ensures TailAt(line, j)
  {
    assert line[j..][5..] == d + ShortEnd;
    DigitRunPrefix(d, ShortEnd);
    assert (d + ShortEnd)[|d|..] == ShortEnd;
  }

  /** The rest of the pattern needs `」` at the position and `が` four characters on. */
  lemma NotTail(line: string, k: nat)
    requires k <= |line|
    requires !(k + 5 <= |line| && line[k] == '」' && line[k + 4] == 'が')
    ensures !TailAt(line, k)
  {
    if k + 5 <= |line| {
      assert line[k..][0] == line[k] && line[k..][4] == line[k + 4];
    }
  }

  /** Where no `」` occurs, the rest of the pattern matches nowhere. */
  lemma NoTailIn(line: string, from: nat, to: nat)
    requires from <= to <= |line| && '」' !in line[from..to]
    ensures forall k :: from <= k < to ==> !TailAt(line, k)
  {
    forall k | from <= k < to
      ensures !TailAt(line, k)
    {
      assert line[k] == line[from..to][k - from];
      NotTail(line, k);
    }
  }

  /** A line on which the rest of the pattern matches after no heading character does not parse. */
  lemma NoTailNone(line: string)
    requires forall k :: 2 <= k <= |line| ==> !TailAt(line, k)
    ensures ParseShortLine(line) == None
  {
    if line != [] && line[0] == '「' {
      assert LastTail(line, 1 + LineRun(line[1..])).None?;
    }
  }

  /** The rest of the pattern matches right after the heading. */
  lemma ShortTailAt(h: string, len: nat)
    ensures TailAt(ShortLine(h, len), 1 + |h|)
  {
    var d := Show(len);
    var line := ShortLine(h, len);
    assert line == ("「" + h) + (ShortMid + d + ShortEnd);
    assert line[1 + |h|..] == ShortMid + d + ShortEnd;
    TailAtOf(line, 1 + |h|, d);
  }

  /** Nothing after the heading's closing bracket opens another match. */
  lemma NoTailAfter(h: string, len: nat)
    ensures forall k :: 1 + |h| < k <= |ShortLine(h, len)| ==> !TailAt(ShortLine(h, len), k)
  {
    var d := Show(len);
    var line := ShortLine(h, len);
    var u := "の本文が" + d + ShortEnd;
    assert line == ("「" + h + "」") + u;
    assert line[2 + |h|..] == u;
    assert '」' !in d;
    NoTailAfterText(line, 2 + |h|, u);
  }

  /** A printable heading keeps the whole line inside `.`'s reach. */
  lemma ShortLineOneLine(h: string, len: nat)
    requires Printable(h)
    ensures LineRun(ShortLine(h, len)[1..]) == |ShortLine(h, len)| - 1
  {
    var line := ShortLine(h, len);
    assert line == "「" + h + ShortMid + Show(len) + ShortEnd;
    assert forall i :: 0 <= i < |line| ==> !IsLineTerminator(line[i]);
  }

  /** A short-section line reads back as its heading. */
  lemma ParseShortLineRoundTrip(h: string, len: nat)
    requires Printable(h)
    ensures ParseShortLine(ShortLine(h, len)) == Some(h)
  {
    var line := ShortLine(h, len);
    ShortTailAt(h, len);
    NoTailAfter(h, len);
    ShortLineOneLine(h, len);
    LastMatchParsed(line, 1 + |h|);
    assert line[1..1 + |h|] == h;
  }

  /** On one line opened by `「`, the last position the rest matches at ends the capture. */
  lemma LastMatchParsed(line: string, j: nat)
    requires line != [] && line[0] == '「' && LineRun(line[1..]) == |line| - 1
    requires 2 <= j <= |line| && TailAt(line, j)
    requires forall k :: j < k <= |line| ==> !TailAt(line, k)
    ensures ParseShortLine(line) == Some(line[1..j])
  {
    var p := TailFits(line);
    forall k | j < k <= |line|
      ensures !p(k)
    {
    }
    LastWhereAt(p, 2, |line|, j);
  }

  /** An OK line never reads as a short one. */
  lemma ParseOkLine(h: string, len: nat)
    requires Printable(h)
    ensures ParseShortLine(OkLine(h, len)) == None
  {
    var d := Show(len);
    var u := "の本文は" + d + OkEnd;
    assert '」' !in u by {
      assert '」' !in d;
    }
    assert OkLine(h, len) == ("「" + h) + ("」" + u);
    BracketThenNoTail(h, u, OkLine(h, len));
    NoTailNone(OkLine(h, len));
  }

  /** `「h」u` with no other `」` and no `が` four characters after the bracket: no match of the rest anywhere. */
  lemma BracketThenNoTail(h: string, u: string, line: string)
    requires '」' !in h && '」' !in u && |u| >= 4 && u[3] != 'が'
    requires line == ("「" + h) + ("」" + u)
    ensures forall k :: 2 <= k <= |line| ==> !TailAt(line, k)
  {
    var j0 := 1 + |h|;
    assert forall k :: 1 <= k < j0 ==> !TailAt(line, k) by {
      assert line[1..j0] == h;
      NoTailIn(line, 1, j0);
    }
    assert !TailAt(line, j0) by {
      assert line[j0 + 4] == u[3];
      NotTail(line, j0);
    }
    assert forall k :: j0 < k <= |line| ==> !TailAt(line, k) by {
      assert line[j0 + 1..] == u;
      NoTailAfterText(line, j0 + 1, u);
    }
  }

  /** After a position from which no `」` follows, the rest of the pattern matches nowhere. */
  lemma NoTailAfterText(line: string, j: nat, u: string)
    requires j <= |line| && line[j..] == u && '」' !in u
    ensures forall k :: j <= k <= |line| ==> !TailAt(line, k)
  {
    NoTailIn(line, j, |line|);
    NotTail(line, |line|);
  }

  /** The report's first line, the count, never reads as a heading. */
  lemma ParseCountLine(n: nat)
    ensures ParseShortLine(CountLabel + Show(n)) == None
  {
    assert (CountLabel + Show(n))[0] == '検';
  }

  /** The headings of the short sections, in document order. */
  function ShortHeadings(secs: seq<Section>, minLength: nat): (r: seq<string>)
    ensures |r| <= |secs|
  {
    if secs == [] then []
    else if IsShort(secs[0].raw, minLength) then [Heading(secs[0].raw)] + ShortHeadings(secs[1..], minLength)
    else ShortHeadings(secs[1..], minLength)
  }

  lemma {:induction false} ParsedSectionLines(secs: seq<Section>, minLength: nat)
    requires forall i :: 0 <= i < |secs| ==> Printable(Heading(secs[i].raw))
    ensures ParsedHeadings(SectionLines(secs, minLength)) == ShortHeadings(secs, minLength)
  {
    if secs != [] {
      var raw := secs[0].raw;
      ParsedSectionLines(secs[1..], minLength);
      assert SectionLines(secs, minLength)[1..] == SectionLines(secs[1..], minLength);
      var len := Utf16Length(Body(raw));
      if len < minLength {
        ParseShortLineRoundTrip(Heading(raw), len);
      } else {
        ParseOkLine(Heading(raw), len);
      }
    }
  }

  lemma ReportOneLine(h: string, len: nat, minLength: nat)
    requires '\n' !in h
    ensures '\n' !in Report(h, len, minLength)
  {
    var d := Show(len);
    assert '\n' !in d;
    if len < minLength {
      assert Report(h, len, minLength) == "「" + h + ShortMid + d + ShortEnd;
    } else {
      assert Report(h, len, minLength) == "「" + h + OkMid + d + OkEnd;
    }
  }

  /** Every line of the report is one line: headings are trimmed first lines. */
  lemma SectionLineOneLine(raw: string, minLength: nat)
    ensures '\n' !in SectionLine(raw, minLength)
  {
    TrimKeepsOut(FirstLine(raw), '\n');
    ReportOneLine(Heading(raw), Utf16Length(Body(raw)), minLength);
  }

  lemma SectionLinesOneLine(secs: seq<Section>, minLength: nat)
    ensures forall i :: 0 <= i < |secs| ==> '\n' !in SectionLines(secs, minLength)[i]
  {
    forall i | 0 <= i < |secs|
      ensures '\n' !in SectionLines(secs, minLength)[i]
    {
      MapSeqAt(LineOf(minLength), secs, i);
      SectionLineOneLine(secs[i].raw, minLength);
    }
  }

  /** The report on any list of sections, after a first line that does not parse, reads back as the short ones' headings. */
  lemma ReadReport(first: string, secs: seq<Section>, minLength: nat)
    requires '\n' !in first && ParseShortLine(first) == None
    requires forall i :: 0 <= i < |secs| ==> Printable(Heading(secs[i].raw))
    ensures ParsedHeadings(Split(first + "\n" + Terminated(SectionLines(secs, minLength), '\n'), '\n')) == ShortHeadings(secs, minLength)
  {
    var lines := SectionLines(secs, minLength);
    SectionLinesOneLine(secs, minLength);
    SplitTerminated([first] + lines, '\n');
    assert first + "\n" + Terminated(lines, '\n') == Terminated([first] + lines, '\n');
    assert [first] + lines + [""] == [first] + (lines + [""]);
    ReadLines(first, secs, minLength);
  }

  /** The report on a list of sections reads back as the short ones' headings. */
  lemma ReadReportText(secs: seq<Section>, minLength: nat)
    requires forall i :: 0 <= i < |secs| ==> Printable(Heading(secs[i].raw))
    ensures GetShortSections(Some(ReportText(secs, minLength))) == ShortHeadings(secs, minLength)
  {
    var first := CountLabel + Show(|secs|);
    assert '\n' !in first by {
      assert '\n' !in CountLabel;
      assert '\n' !in Show(|secs|);
    }
    assert ParseShortLine(first) == None by {
      ParseCountLine(|secs|);
    }
    ReadReport(first, secs, minLength);
  }

  /**
   * Reading the checker's report of an article gives exactly the headings of
   * its short sections, in order, as long as every heading is printable.
   */
  lemma ReportRoundTrip(raw: string, minLength: nat)
    requires forall i :: 0 <= i < |SplitSections(raw).sections| ==> Printable(Heading(SplitSections(raw).sections[i].raw))
    ensures GetShortSections(Some(CheckOutput(Some(raw), minLength))) == ShortHeadings(SplitSections(raw).sections, minLength)
  {
    ReadReportText(SplitSections(raw).sections, minLength);
  }

  lemma ReadLines(first: string, secs: seq<Section>, minLength: nat)
    requires ParseShortLine(first) == None
    requires forall i :: 0 <= i < |secs| ==> Printable(Heading(secs[i].raw))
    ensures ParsedHeadings([first] + (SectionLines(secs, minLength) + [""])) == ShortHeadings(secs, minLength)
  {
    var lines := SectionLines(secs, minLength);
    ParsedSkips(first, lines + [""]);
    ParsedAppendEmpty(lines);
    ParsedSectionLines(secs, minLength);
  }

  lemma ParsedSkips(line: string, rest: seq<string>)
    requires ParseShortLine(line) == None
    ensures ParsedHeadings([line] + rest) == ParsedHeadings(rest)
  {
    assert ([line] + rest)[1..] == rest;
  }

  lemma {:induction false} ParsedAppendEmpty(lines: seq<string>)
    ensures ParsedHeadings(lines + [""]) == ParsedHeadings(lines)
  {
    if lines == [] {
      assert ParseShortLine("") == None;
    } else {
      assert (lines + [""])[1..] == lines[1..] + [""];
      ParsedAppendEmpty(lines[1..]);
    }
  }

  /** A section whose heading line is blank is never reported back: `(.+)` needs a character. */
  lemma BlankHeadingNotReported(len: nat)
    ensures ParseShortLine(ShortLine("", len)) == None
  {
    var d := Show(len);
    var line := ShortLine("", len);
    assert forall k :: 2 <= k <= |line| ==> !TailAt(line, k) by {
      var u := "の本文が" + d + ShortEnd;
      assert line == "「」" + u;
      assert line[2..] == u;
      assert '」' !in d;
      NoTailAfterText(line, 2, u);
    }
    NoTailNone(line);
  }

  /** An unreadable file prints nothing, so the rewrite tool sees no short section. */
  lemma UnreadableReportsNothing(minLength: nat)
    ensures GetShortSections(Some(CheckOutput(None, minLength))) == []
  {
    assert Split("", '\n') == [""];
    assert ParseShortLine("") == None;
  }
}
