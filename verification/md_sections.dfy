/**
 * Markdown section handling shared by the article generator and the
 * rewrite-and-check tool: the split of an article on level-2-or-deeper
 * headings (the JavaScript `raw.split(/^##+ /m)`), the heading and body a
 * section is judged by, the splice that replaces a section body, and the
 * reassembly both tools write back.
 */
module MdSections {
  import opened JsText

  /** Number of '#' characters that open `s`. */
  function HashRun(s: string): (n: nat)
    ensures n <= |s|
    ensures forall i :: 0 <= i < n ==> s[i] == '#'
    ensures n < |s| ==> s[n] != '#'
  {
    if s != [] && s[0] == '#' then 1 + HashRun(s[1..]) else 0
  }

  /** A heading marker as the split consumes it: two or more '#' and one space. */
  predicate IsMarker(m: string) {
    |m| >= 3 && m[|m| - 1] == ' ' && forall i :: 0 <= i < |m| - 1 ==> m[i] == '#'
  }

  /** Length of the marker `##+ ` that opens `s`, or 0 when none does. */
  function MarkerLen(s: string): (n: nat)
    ensures n > 0 ==> n <= |s| && IsMarker(s[..n])
  {
    var k := HashRun(s);
    if 2 <= k < |s| && s[k] == ' ' then k + 1 else 0
  }

  /** Once the run of '#' ends inside `u`, nothing after `u` changes the verdict. */
  lemma {:induction false} MarkerLenExtend(u: string, v: string)
    requires HashRun(u) < |u|
    ensures HashRun(u + v) == HashRun(u)
    ensures MarkerLen(u + v) == MarkerLen(u)
  {
    if u[0] == '#' {
      assert (u + v)[1..] == u[1..] + v;
      MarkerLenExtend(u[1..], v);
    }
  }

  /** A marker that opens a prefix opens the whole string. */
  lemma MarkerLenPrefix(u: string, v: string)
    ensures MarkerLen(u) > 0 ==> MarkerLen(u + v) == MarkerLen(u)
  {
    if MarkerLen(u) > 0 {
      MarkerLenExtend(u, v);
    }
  }

  /** One `## ` heading of the article: the marker the split consumed and the text up to the next heading. */
  datatype Section = Section(marker: string, raw: string)

  /** The text before the first heading, then the sections in order. */
  datatype Document = Document(firstPart: string, sections: seq<Section>)

  /**
   * The split scan: `lineStart` says whether the current position opens a
   * line (the `m` flag makes `^` match after LF, CR, U+2028 and U+2029).
   * Returns the text up to the next heading and the sections after it.
   */
  function Scan(s: string, lineStart: bool): (r: (string, seq<Section>))
    decreases |s|
  {
    if s == [] then ("", [])
    else if lineStart && MarkerLen(s) > 0 then
      var m := MarkerLen(s);
      var rest := Scan(s[m..], false);
      ("", [Section(s[..m], rest.0)] + rest.1)
    else
      var rest := Scan(s[1..], IsLineTerminator(s[0]));
      ([s[0]] + rest.0, rest.1)
  }

  function Concat(secs: seq<Section>): string {
    if secs == [] then "" else secs[0].marker + secs[0].raw + Concat(secs[1..])
  }

  /** The inverse of the split: put every consumed marker back. */
  function Unsplit(d: Document): string {
    d.firstPart + Concat(d.sections)
  }

  /** No heading marker opens a line of `u`; `lineStart` says whether position 0 opens one. */
  predicate NoHeadingLine(u: string, lineStart: bool) {
    forall q :: 0 <= q < |u| && (if q == 0 then lineStart else IsLineTerminator(u[q - 1])) ==> MarkerLen(u[q..]) == 0
  }

  lemma ConcatCons(sec: Section, rest: seq<Section>)
    ensures Concat([sec] + rest) == sec.marker + sec.raw + Concat(rest)
  {
    assert ([sec] + rest)[1..] == rest;
  }

  lemma {:induction false} ScanUnsplit(s: string, lineStart: bool)
    ensures Scan(s, lineStart).0 + Concat(Scan(s, lineStart).1) == s
    decreases |s|
  {
    if s == [] {
    } else if lineStart && MarkerLen(s) > 0 {
      var m := MarkerLen(s);
      ScanUnsplit(s[m..], false);
      var rest := Scan(s[m..], false);
      UnsplitMarkerStep(s, m, rest.0, rest.1);
    } else {
      ScanUnsplit(s[1..], IsLineTerminator(s[0]));
      var rest := Scan(s[1..], IsLineTerminator(s[0]));
      UnsplitCharStep(s, rest.0, rest.1);
    }
  }

  lemma UnsplitMarkerStep(s: string, m: nat, r0: string, r1: seq<Section>)
    requires m <= |s| && r0 + Concat(r1) == s[m..]
    ensures "" + Concat([Section(s[..m], r0)] + r1) == s
  {
    ConcatCons(Section(s[..m], r0), r1);
    assert s == s[..m] + s[m..];
  }

  lemma UnsplitCharStep(s: string, r0: string, r1: seq<Section>)
    requires s != [] && r0 + Concat(r1) == s[1..]
    ensures ([s[0]] + r0) + Concat(r1) == s
  {
    assert s == [s[0]] + s[1..];
  }

  lemma {:induction false} ScanMarkers(s: string, lineStart: bool)
    ensures forall i :: 0 <= i < |Scan(s, lineStart).1| ==> IsMarker(Scan(s, lineStart).1[i].marker)
    decreases |s|
  {
    if s == [] {
    } else if lineStart && MarkerLen(s) > 0 {
      ScanMarkers(s[MarkerLen(s)..], false);
    } else {
      ScanMarkers(s[1..], IsLineTerminator(s[0]));
    }
  }

  /** The scan's leading text is a prefix of what it scanned. */
  lemma {:induction false} ScanPrefix(s: string, lineStart: bool)
    ensures StartsWith(s, Scan(s, lineStart).0)
    decreases |s|
  {
    if s != [] && !(lineStart && MarkerLen(s) > 0) {
      ScanPrefix(s[1..], IsLineTerminator(s[0]));
    }
  }

  /** No section body has a heading line in it. */
  predicate CleanSections(secs: seq<Section>) {
    forall i :: 0 <= i < |secs| ==> NoHeadingLine(secs[i].raw, false)
  }

  lemma CleanCons(sec: Section, rest: seq<Section>)
    requires NoHeadingLine(sec.raw, false) && CleanSections(rest)
    ensures CleanSections([sec] + rest)
  {
    var secs := [sec] + rest;
    forall i | 0 <= i < |secs|
      ensures NoHeadingLine(secs[i].raw, false)
    {
      if i > 0 {
        assert secs[i] == rest[i - 1];
      }
    }
  }

  /** A character in front of heading-free text keeps it heading-free when no marker opens the result. */
  lemma NoHeadingLineCons(c0: char, c: string, lineStart: bool)
    requires lineStart ==> MarkerLen([c0] + c) == 0
    requires NoHeadingLine(c, IsLineTerminator(c0))
    ensures NoHeadingLine([c0] + c, lineStart)
  {
    var u := [c0] + c;
    forall q | 0 <= q < |u| && (if q == 0 then lineStart else IsLineTerminator(u[q - 1]))
      ensures MarkerLen(u[q..]) == 0
    {
      if q == 0 {
        assert u[q..] == u;
      } else {
        assert u[q..] == c[q - 1..];
        assert u[q - 1] == if q == 1 then c0 else c[q - 2];
      }
    }
  }

  /** Heading-free text stays heading-free without its first character. */
  lemma NoHeadingLineTail(u: string, lineStart: bool)
    requires u != [] && NoHeadingLine(u, lineStart)
    ensures NoHeadingLine(u[1..], IsLineTerminator(u[0]))
  {
    forall q | 0 <= q < |u[1..]| && (if q == 0 then IsLineTerminator(u[0]) else IsLineTerminator(u[1..][q - 1]))
      ensures MarkerLen(u[1..][q..]) == 0
    {
      assert u[1..][q..] == u[q + 1..];
    }
  }

  /** Neither the leading text nor any section body has a heading line left in it. */
  lemma {:induction false} ScanClean(s: string, lineStart: bool)
    ensures NoHeadingLine(Scan(s, lineStart).0, lineStart)
    ensures CleanSections(Scan(s, lineStart).1)
    decreases |s|
  {
    if s == [] {
    } else if lineStart && MarkerLen(s) > 0 {
      var m := MarkerLen(s);
      ScanClean(s[m..], false);
      var rest := Scan(s[m..], false);
      assert Scan(s, lineStart) == ("", [Section(s[..m], rest.0)] + rest.1);
      CleanCons(Section(s[..m], rest.0), rest.1);
    } else {
      var ls := IsLineTerminator(s[0]);
      ScanClean(s[1..], ls);
      ScanPrefix(s[1..], ls);
      var c := Scan(s[1..], ls).0;
      var u := [s[0]] + c;
      assert Scan(s, lineStart) == (u, Scan(s[1..], ls).1);
      if lineStart {
        assert MarkerLen(u) == 0 by {
          assert s[1..][..|c|] == c;
          assert s == u + s[|u|..];
          MarkerLenPrefix(u, s[|u|..]);
        }
      }
      NoHeadingLineCons(s[0], c, lineStart);
    }
  }

  /** Text without heading lines scans as one leading part. */
  lemma {:induction false} ScanNoHeading(u: string, lineStart: bool)
    requires NoHeadingLine(u, lineStart)
    ensures Scan(u, lineStart) == (u, [])
    decreases |u|
  {
    if u != [] {
      if lineStart {
        assert MarkerLen(u[0..]) == 0;
        assert u[0..] == u;
      }
      NoHeadingLineTail(u, lineStart);
      ScanNoHeading(u[1..], IsLineTerminator(u[0]));
      assert [u[0]] + u[1..] == u;
    }
  }

  lemma ScanEmptyIff(s: string)
    ensures Scan(s, true).1 == [] <==> NoHeadingLine(s, true)
  {
    if NoHeadingLine(s, true) {
      ScanNoHeading(s, true);
    }
    if Scan(s, true).1 == [] {
      ScanUnsplit(s, true);
      ScanClean(s, true);
      assert Scan(s, true).0 == s;
    }
  }

  /**
   * `raw.split(/^##+ /m)`: the text before the first heading, then one
   * section per heading. Putting the markers back gives the article again,
   * and no line inside a part opens with a heading marker.
   */
  function SplitSections(s: string): (d: Document)
    ensures Unsplit(d) == s
    ensures forall i :: 0 <= i < |d.sections| ==> IsMarker(d.sections[i].marker)
    ensures NoHeadingLine(d.firstPart, true)
    ensures forall i :: 0 <= i < |d.sections| ==> NoHeadingLine(d.sections[i].raw, false)
    ensures d.sections == [] <==> NoHeadingLine(s, true)
  {
    var r := Scan(s, true);
    ScanUnsplit(s, true);
    ScanMarkers(s, true);
    ScanClean(s, true);
    ScanEmptyIff(s);
    Document(r.0, r.1)
  }

  // ---------------------------------------------------------------------------
  // Heading and body of a section

  function FirstLine(raw: string): string {
    Split(raw, '\n')[0]
  }

  /** `lines[0].trim()`. */
  function Heading(raw: string): string {
    Trim(FirstLine(raw))
  }

  /** Lines from `i` on, each passed through `edit`, concatenated up to the first one `stop` holds for. */
  function Gather(lines: seq<string>, i: nat, stop: string -> bool, edit: string -> string): string
    decreases |lines| - i
  {
    if i >= |lines| || stop(lines[i]) then ""
    else edit(lines[i]) + Gather(lines, i + 1, stop, edit)
  }

  /** Where the body loop stops: a line that opens with a heading marker or with `---`. */
  predicate BodyStop(line: string) {
    MarkerLen(line) > 0 || StartsWith(line, "---")
  }

  predicate RuleStop(line: string) {
    StartsWith(line, "---")
  }

  /** The body loop: trimmed lines concatenated from line `i` on, up to the first stop line. */
  function BodyFrom(lines: seq<string>, i: nat): string {
    Gather(lines, i, BodyStop, Trim)
  }

  function Body(raw: string): string {
    BodyFrom(Split(raw, '\n'), 1)
  }

  /** The body with only the `---` stop: what the loop computes on a split section. */
  function RuleBodyFrom(lines: seq<string>, i: nat): string {
    Gather(lines, i, RuleStop, Trim)
  }

  /** Two stop tests that agree on every line from `i` on gather the same text. */
  lemma {:induction false} GatherSameStops(lines: seq<string>, i: nat, p: string -> bool, q: string -> bool, edit: string -> string)
    requires forall j :: i <= j < |lines| ==> p(lines[j]) == q(lines[j])
    ensures Gather(lines, i, p, edit) == Gather(lines, i, q, edit)
    decreases |lines| - i
  {
    if i < |lines| {
      GatherSameStops(lines, i + 1, p, q, edit);
    }
  }

  /** A last line that `edit` empties adds nothing. */
  lemma {:induction false} GatherAppendEmpty(lines: seq<string>, i: nat, stop: string -> bool, edit: string -> string, x: string)
    requires edit(x) == []
    ensures Gather(lines + [x], i, stop, edit) == Gather(lines, i, stop, edit)
    decreases |lines| + 1 - i
  {
    var ext := lines + [x];
    if i < |lines| {
      assert ext[i] == lines[i];
      GatherAppendEmpty(lines, i + 1, stop, edit, x);
    } else if i == |lines| {
      assert ext[i] == x;
      assert Gather(ext, i + 1, stop, edit) == "";
    }
  }

  lemma {:induction false} SplitLinesNoHeading(s: string)
    requires NoHeadingLine(s, false)
    ensures forall i :: 1 <= i < |Split(s, '\n')| ==> MarkerLen(Split(s, '\n')[i]) == 0
    decreases |s|
  {
    if s != [] {
      var tail := s[1..];
      assert NoHeadingLine(tail, false) by {
        forall q | 0 < q < |tail| && IsLineTerminator(tail[q - 1])
          ensures MarkerLen(tail[q..]) == 0
        {
          assert tail[q..] == s[q + 1..];
        }
      }
      SplitLinesNoHeading(tail);
      if s[0] == '\n' {
        assert tail != [] ==> MarkerLen(tail) == 0 by {
          if tail != [] {
            assert s[1..] == tail;
          }
        }
        FirstLineNoMarker(tail);
      }
    }
  }

  /** The first line of a text no marker opens is not opened by one either. */
  lemma FirstLineNoMarker(t: string)
    requires t != [] ==> MarkerLen(t) == 0
    ensures MarkerLen(Split(t, '\n')[0]) == 0
  {
    var l := Split(t, '\n')[0];
    SplitFirstIsPrefix(t, '\n');
    assert t == l + t[|l|..];
    MarkerLenPrefix(l, t[|l|..]);
  }

  lemma BodyFromIsRuleBody(lines: seq<string>, i: nat)
    requires forall j :: 1 <= j < |lines| ==> MarkerLen(lines[j]) == 0
    requires i >= 1
    ensures BodyFrom(lines, i) == RuleBodyFrom(lines, i)
  {
    forall j | i <= j < |lines|
      ensures BodyStop(lines[j]) == RuleStop(lines[j])
    {
      assert MarkerLen(lines[j]) == 0;
    }
    GatherSameStops(lines, i, BodyStop, RuleStop, Trim);
  }

  /**
   * In a section produced by the split, the loop's heading-marker stop can
   * never fire: the body runs to the first `---` line or to the end.
   */
  lemma SectionBodyStopsOnlyAtRule(s: string, k: nat)
    requires k < |SplitSections(s).sections|
    ensures Body(SplitSections(s).sections[k].raw) == RuleBodyFrom(Split(SplitSections(s).sections[k].raw, '\n'), 1)
  {
    var raw := SplitSections(s).sections[k].raw;
    SplitLinesNoHeading(raw);
    BodyFromIsRuleBody(Split(raw, '\n'), 1);
  }

  /** A section is short when its body has fewer than `minLength` UTF-16 units. */
  predicate IsShort(raw: string, minLength: nat) {
    Utf16Length(Body(raw)) < minLength
  }

  // ---------------------------------------------------------------------------
  // Replacing a body

  /**
   * `lines.splice(1, lines.length - 1, newBody + '\n'); lines.join('\n')`:
   * keep the heading line, replace everything after it.
   */
  function Splice(raw: string, newBody: string): (r: string)
    ensures Split(r, '\n') == [FirstLine(raw)] + Split(newBody, '\n') + [""]
  {
    var l0 := FirstLine(raw);
    SplitAppendSeparator(newBody, '\n');
    assert l0 + "\n" + newBody + "\n" == l0 + ['\n'] + (newBody + ['\n']);
    SplitPrefix(l0, newBody + ['\n'], '\n');
    l0 + "\n" + newBody + "\n"
  }

  lemma SpliceKeepsHeading(raw: string, newBody: string)
    ensures Heading(Splice(raw, newBody)) == Heading(raw)
  {
  }

  /** A one-line replacement body is exactly what the length check sees afterwards (trimmed). */
  lemma SpliceBody(raw: string, newBody: string)
    requires '\n' !in newBody && MarkerLen(newBody) == 0 && !StartsWith(newBody, "---")
    ensures Body(Splice(raw, newBody)) == Trim(newBody)
  {
    SplitNoSeparator(newBody, '\n');
    var lines := Split(Splice(raw, newBody), '\n');
    assert lines == [FirstLine(raw), newBody, ""];
    TrimOfTrimmed("");
    assert Gather(lines, 2, BodyStop, Trim) == "";
    assert !BodyStop(newBody);
  }

  // ---------------------------------------------------------------------------
  // Reassembly

  /** The first part with a newline appended unless it already ends in one. */
  function SafeFirst(fp: string): (r: string)
    ensures EndsWith(r, "\n")
    ensures StartsWith(r, fp) && |r| <= |fp| + 1
  {
    if EndsWith(fp, "\n") then fp else fp + "\n"
  }

  /** `sections.map(s => '## ' + s.raw)`. */
  function Headed(secs: seq<Section>): (r: seq<string>)
    ensures |r| == |secs|
    ensures forall i :: 0 <= i < |secs| ==> r[i] == "## " + secs[i].raw
  {
    if secs == [] then [] else ["## " + secs[0].raw] + Headed(secs[1..])
  }

  /** What the rewrite-and-check tool writes back. */
  function Reassemble(d: Document): (r: string)
    ensures StartsWith(r, SafeFirst(d.firstPart))
    ensures d.sections == [] ==> r == SafeFirst(d.firstPart)
    ensures d.sections != [] ==> StartsWith(r, SafeFirst(d.firstPart) + "## " + d.sections[0].raw)
  {
    var a := SafeFirst(d.firstPart);
    var h := Headed(d.sections);
    if d.sections == [] then
      assert a + Join(h, "\n") == a;
      a
    else
      var j := Join(h, "\n");
      assert StartsWith(j, h[0]) by {
        if |h| > 1 { assert j == h[0] + ("\n" + Join(h[1..], "\n")); }
      }
      assert (a + j)[..|a|] == a;
      assert (a + j)[..|a + h[0]|] == a + h[0] by {
        assert j[..|h[0]|] == h[0];
      }
      a + j
  }

  /** What the article generator hands on: one blank line more after the first part. */
  function ReassembleSpaced(d: Document): string {
    SafeFirst(d.firstPart) + "\n\n" + Join(Headed(d.sections), "\n")
  }

  /**
   * The sections a re-split of a reassembled article finds: every marker is
   * now `## `, and every section but the last gained the newline the join put
   * after it.
   */
  function Normalized(secs: seq<Section>): (r: seq<Section>)
    ensures |r| == |secs|
    ensures forall i :: 0 <= i < |secs| ==> r[i].marker == "## "
    ensures forall i :: 0 <= i < |secs| - 1 ==> r[i].raw == secs[i].raw + "\n"
    ensures secs != [] ==> r[|secs| - 1].raw == secs[|secs| - 1].raw
  {
    if secs == [] then []
    else if |secs| == 1 then [Section("## ", secs[0].raw)]
    else [Section("## ", secs[0].raw + "\n")] + Normalized(secs[1..])
  }

  lemma {:induction false} NoHeadingLineAppendNewline(u: string, lineStart: bool)
    requires NoHeadingLine(u, lineStart)
    ensures NoHeadingLine(u + "\n", lineStart)
  {
    var w := u + "\n";
    forall q | 0 <= q < |w| && (if q == 0 then lineStart else IsLineTerminator(w[q - 1]))
      ensures MarkerLen(w[q..]) == 0
    {
      if q < |u| {
        assert w[q..] == u[q..] + "\n";
        if HashRun(u[q..]) < |u[q..]| {
          MarkerLenExtend(u[q..], "\n");
        } else {
          HashRunOfHashes(u[q..], "\n");
        }
      }
    }
  }

  lemma {:induction false} HashRunOfHashes(h: string, v: string)
    requires forall i :: 0 <= i < |h| ==> h[i] == '#'
    requires v != [] && v[0] != '#'
    ensures HashRun(h + v) == |h|
  {
    if h != [] {
      assert (h + v)[1..] == h[1..] + v;
      HashRunOfHashes(h[1..], v);
    } else {
      assert h + v == v;
    }
  }

  /** One character the scan passes over: it joins the leading text. */
  lemma ScanStepChar(s: string, lineStart: bool)
    requires s != [] && !(lineStart && MarkerLen(s) > 0)
    ensures Scan(s, lineStart) == ([s[0]] + Scan(s[1..], IsLineTerminator(s[0])).0, Scan(s[1..], IsLineTerminator(s[0])).1)
  {
  }

  /** Heading-free text ending in a line break is passed over whole by the scan. */
  lemma {:induction false} ScanCleanPrefix(a: string, b: string, lineStart: bool)
    requires NoHeadingLine(a, lineStart)
    requires a != [] && IsLineTerminator(a[|a| - 1])
    ensures Scan(a + b, lineStart) == (a + Scan(b, true).0, Scan(b, true).1)
    decreases |a|
  {
    var s := a + b;
    if lineStart {
      OpeningNoMarker(a, b);
    }
    ScanStepChar(s, lineStart);
    assert s[0] == a[0] && s[1..] == a[1..] + b;
    var next := Scan(a[1..] + b, IsLineTerminator(a[0]));
    if |a| > 1 {
      NoHeadingLineTail(a, lineStart);
      ScanCleanPrefix(a[1..], b, IsLineTerminator(a[0]));
      assert [a[0]] + next.0 == a + Scan(b, true).0 by {
        assert a == [a[0]] + a[1..];
      }
    } else {
      assert a[1..] + b == b && a == [a[0]];
    }
  }

  /** No marker opens heading-free text that ends in a line break, whatever follows it. */
  lemma OpeningNoMarker(a: string, b: string)
    requires NoHeadingLine(a, true)
    requires a != [] && IsLineTerminator(a[|a| - 1])
    ensures MarkerLen(a + b) == 0
  {
    assert MarkerLen(a[0..]) == 0;
    assert a[0..] == a;
    MarkerLenExtend(a, b);
  }

  /** A `## ` opening a line starts a section. */
  lemma ScanOpensWithMarker(x: string)
    ensures Scan("## " + x, true) == ("", [Section("## ", Scan(x, false).0)] + Scan(x, false).1)
  {
    var s := "## " + x;
    assert s == "##" + ([' '] + x);
    HashRunOfHashes("##", [' '] + x);
    assert MarkerLen(s) == 3;
    assert s[3..] == x;
    assert s[..3] == "## ";
  }

  lemma {:induction false} ScanRendered(secs: seq<Section>)
    requires secs != []
    requires forall i :: 0 <= i < |secs| ==> NoHeadingLine(secs[i].raw, false)
    ensures Scan(Join(Headed(secs), "\n"), true) == ("", Normalized(secs))
  {
    var raw := secs[0].raw;
    if |secs| == 1 {
      assert Join(Headed(secs), "\n") == "## " + raw;
      ScanOpensWithMarker(raw);
      ScanNoHeading(raw, false);
      assert Normalized(secs) == [Section("## ", raw)];
      assert [Section("## ", raw)] + [] == [Section("## ", raw)];
    } else {
      var tail := Join(Headed(secs[1..]), "\n");
      assert Headed(secs)[1..] == Headed(secs[1..]);
      assert Join(Headed(secs), "\n") == "## " + (raw + "\n" + tail);
      ScanOpensWithMarker(raw + "\n" + tail);
      NoHeadingLineAppendNewline(raw, false);
      ScanCleanPrefix(raw + "\n", tail, false);
      ScanRendered(secs[1..]);
      assert raw + "\n" + "" == raw + "\n";
    }
  }

  lemma SafeFirstNoHeading(fp: string)
    requires NoHeadingLine(fp, true)
    ensures NoHeadingLine(SafeFirst(fp), true)
  {
    if !EndsWith(fp, "\n") {
      NoHeadingLineAppendNewline(fp, true);
    }
  }

  /**
   * Splitting what the rewrite tool writes back finds the same sections
   * again: the same first part (newline-terminated), the same bodies, each
   * marker normalised to `## ` and every section but the last followed by
   * the newline of the join. Holds for any heading-free first part and
   * section bodies, so also after some bodies were spliced.
   */
  lemma {:induction false} ResplitReassembled(d: Document)
    requires NoHeadingLine(d.firstPart, true)
    requires forall i :: 0 <= i < |d.sections| ==> NoHeadingLine(d.sections[i].raw, false)
    ensures SplitSections(Reassemble(d)) == Document(SafeFirst(d.firstPart), Normalized(d.sections))
  {
    var a := SafeFirst(d.firstPart);
    var j := Join(Headed(d.sections), "\n");
    SafeFirstNoHeading(d.firstPart);
    ScanCleanPrefix(a, j, true);
    if d.sections == [] {
      assert a + j == a;
      ScanNoHeading(a, true);
    } else {
      ScanRendered(d.sections);
    }
  }

  /** Appending the join's newline changes neither the heading nor the body. */
  lemma NormalizedKeepsHeadingAndBody(raw: string)
    ensures Heading(raw + "\n") == Heading(raw)
    ensures Body(raw + "\n") == Body(raw)
  {
    SplitAppendSeparator(raw, '\n');
    TrimOfTrimmed("");
    GatherAppendEmpty(Split(raw, '\n'), 1, BodyStop, Trim, "");
  }
}
