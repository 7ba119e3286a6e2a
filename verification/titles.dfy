/**
 * Title extraction from a generated article, in the three variants of the
 * scripts: the article generator's regular-expression variant (with its
 * fallbacks and the removal of every line that repeats the title), the
 * serverless workflow's line-based variant, and the lightweight cron
 * endpoint's title/content split.
 */
module Titles {
  import opened JsText
  import opened Outcomes

  // ---------------------------------------------------------------------------
  // `article.match(/^#\s*(.+)$/m)`

  predicate LineStart(s: string, p: nat)
    requires p <= |s|
  {
    p == 0 || IsLineTerminator(s[p - 1])
  }

  /** Position `p` opens a line with `#`. */
  predicate HashLineAt(s: string, p: nat)
    requires p < |s|
  {
    s[p] == '#' && LineStart(s, p)
  }

  /** The first position at or after `from` that opens a line with `#`. */
  function FirstHashLine(s: string, from: nat): (r: Option<nat>)
    requires from <= |s|
    ensures r.Some? ==> from <= r.value < |s| && HashLineAt(s, r.value)
    ensures r.Some? ==> forall p :: from <= p < r.value ==> !HashLineAt(s, p)
    ensures r.None? ==> forall p :: from <= p < |s| ==> !HashLineAt(s, p)
    decreases |s| - from
  {
    if from == |s| then None
    else if HashLineAt(s, from) then Some(from)
    else FirstHashLine(s, from + 1)
  }

  /**
   * Where the capture of the first match starts: the match begins at the
   * first line opening with `#`, and `\s*` runs greedily over spaces and
   * line breaks after it.
   */
  function CaptureStart(s: string): (q: Option<nat>)
    ensures q.Some? ==> 1 <= q.value <= |s|
    ensures q.Some? && q.value < |s| ==> !IsSpace(s[q.value])
  {
    match FirstHashLine(s, 0)
    case None => None
    case Some(p) =>
      CaptureOpensWithText(s, p);
      Some(p + 1 + SpaceRun(s[p + 1..]))
  }

  /** The trimmed rest of the line from `q`, or nothing at the end of the text. */
  function CaptureAt(s: string, q: nat): Option<string>
    requires q <= |s|
  {
    if q == |s| then None else Some(Trim(s[q..q + LineRun(s[q..])]))
  }

  /**
   * The trimmed capture of `/^#\s*(.+)$/m`: `(.+)$` takes the rest of the
   * line the spaces run to. When only whitespace follows the `#`, there is
   * no match at all, since no later line can open with `#` either.
   */
  function RegexTitle(s: string): Option<string> {
    match CaptureStart(s)
    case None => None
    case Some(q) => CaptureAt(s, q)
  }

  /** A non-blank, trimmed text on one line. */
  predicate OneTrimmedLine(t: string) {
    && t != []
    && Trim(t) == t
    && forall i :: 0 <= i < |t| ==> !IsLineTerminator(t[i])
  }

  /** A title found by the expression is one non-blank, trimmed line. */
  lemma RegexTitleShape(s: string)
    ensures RegexTitle(s).Some? ==> OneTrimmedLine(RegexTitle(s).value)
  {
    if CaptureStart(s).Some? {
      var q := CaptureStart(s).value;
      RegexTitleAt(s, q);
      if q < |s| {
        CaptureAtShape(s, q);
      }
    }
  }

  /** Without a line opening with `#` there is no title. */
  lemma RegexTitleNeedsHash(s: string)
    requires forall p :: 0 <= p < |s| ==> !HashLineAt(s, p)
    ensures RegexTitle(s).None?
  {
    assert FirstHashLine(s, 0).None?;
  }

  lemma RegexTitleAt(s: string, q: nat)
    requires CaptureStart(s) == Some(q)
    ensures RegexTitle(s) == CaptureAt(s, q)
  {
  }

  lemma CaptureOpensWithText(s: string, p: nat)
    requires p < |s|
    ensures var q := p + 1 + SpaceRun(s[p + 1..]); q < |s| ==> !IsSpace(s[q])
  {
    var q := p + 1 + SpaceRun(s[p + 1..]);
    if q < |s| {
      assert s[p + 1..][q - p - 1] == s[q];
    }
  }

  /** The capture from a position holding text is non-empty, trimmed, and one line. */
  lemma CaptureAtShape(s: string, q: nat)
    requires q < |s| && !IsSpace(s[q])
    ensures CaptureAt(s, q).Some?
    ensures OneTrimmedLine(CaptureAt(s, q).value)
  {
    var line := s[q..q + LineRun(s[q..])];
    LineFrom(s, q);
    TrimmedLine(line);
    assert CaptureAt(s, q) == Some(Trim(line));
  }

  /** The line from a position holding text opens with that text and holds no line terminator. */
  lemma LineFrom(s: string, q: nat)
    requires q < |s| && !IsSpace(s[q])
    ensures var line := s[q..q + LineRun(s[q..])];
      line != [] && !IsSpace(line[0]) && forall i :: 0 <= i < |line| ==> !IsLineTerminator(line[i])
  {
  }

  lemma TrimmedLine(line: string)
    requires line != [] && !IsSpace(line[0])
    requires forall i :: 0 <= i < |line| ==> !IsLineTerminator(line[i])
    ensures OneTrimmedLine(Trim(line))
  {
    assert !AllSpace(line);
    TrimEmptyIff(line);
    TrimIdempotent(line);
    TrimNoLineTerminator(line);
  }

  /** A first line `# T` gives the title T, trimmed. */
  lemma RegexTitleOfHeadingLine(t: string, rest: string)
    requires t != [] && !IsSpace(t[0])
    requires forall i :: 0 <= i < |t| ==> !IsLineTerminator(t[i])
    ensures RegexTitle("# " + t + "\n" + rest) == Some(Trim(t))
  {
    var s := "# " + t + "\n" + rest;
    var u := t + "\n" + rest;
    assert s == "# " + u;
    assert HashLineAt(s, 0);
    assert FirstHashLine(s, 0) == Some(0);
    assert s[1..] == [' '] + u;
    assert SpaceRun(u) == 0;
    assert SpaceRun(s[1..]) == 1;
    assert CaptureStart(s) == Some(2);
    assert s[2..] == u;
    LineRunStops(t, rest);
    assert s[2..2 + |t|] == t;
  }

  lemma {:induction false} LineRunStops(t: string, rest: string)
    requires forall i :: 0 <= i < |t| ==> !IsLineTerminator(t[i])
    ensures LineRun(t + "\n" + rest) == |t|
  {
    if t != [] {
      assert (t + "\n" + rest)[1..] == t[1..] + "\n" + rest;
      LineRunStops(t[1..], rest);
    } else {
      assert t + "\n" + rest == "\n" + rest;
    }
  }

  /** `\s*` crosses line breaks: a bare `#` line takes its title from the next line. */
  lemma RegexTitleAfterBareHash(t: string)
    requires t != [] && !IsSpace(t[0])
    requires forall i :: 0 <= i < |t| ==> !IsLineTerminator(t[i])
    ensures RegexTitle("#\n" + t) == Some(Trim(t))
  {
    var s := "#\n" + t;
    assert HashLineAt(s, 0);
    assert FirstHashLine(s, 0) == Some(0);
    assert SpaceRun(s[1..]) == 1 by {
      assert s[1..] == "\n" + t;
      assert SpaceRun(t) == 0;
    }
    assert CaptureStart(s) == Some(2);
    assert s[2..] == t;
    LineRunWhole(t);
    assert s[2..2 + |t|] == t;
  }

  // ---------------------------------------------------------------------------
  // The article generator's `extractTitleAndFilterH1`

  const Untitled: string := "無題"

  /** A line whose trim is not empty. */
  predicate NonBlank(line: string) {
    Trim(line) != []
  }

  /** The first line whose trim is not empty. */
  function FirstContentLine(lines: seq<string>): (r: Option<string>)
    ensures r.Some? ==> r.value in lines && Trim(r.value) != []
  {
    match FirstWhere(NonBlank, lines)
    case None => None
    case Some(k) => Some(lines[k])
  }

  /** The line found is the first non-blank one, and there is none exactly when every line is blank. */
  lemma FirstContentLineSpec(lines: seq<string>)
    ensures FirstContentLine(lines).None? <==> forall i :: 0 <= i < |lines| ==> Trim(lines[i]) == []
    ensures FirstContentLine(lines).Some? ==>
      exists k :: 0 <= k < |lines| && lines[k] == FirstContentLine(lines).value && forall j :: 0 <= j < k ==> Trim(lines[j]) == []
  {
    match FirstWhere(NonBlank, lines)
    case None =>
    case Some(k) =>
      assert lines[k] == FirstContentLine(lines).value;
  }

  /** The title before the emoji: the regular-expression capture, else the first non-blank line's first 10 UTF-16 units, else `無題`. */
  function OriginalTitle(article: string): (t: string)
    ensures t != []
    ensures RegexTitle(article).Some? ==> t == RegexTitle(article).value
    ensures RegexTitle(article).None? && FirstContentLine(Split(article, '\n')).None? ==> t == Untitled
    ensures RegexTitle(article).None? && FirstContentLine(Split(article, '\n')).Some? ==>
      StartsWith(FirstContentLine(Split(article, '\n')).value, t) && Utf16Length(t) <= 10
      && t == Utf16Prefix(FirstContentLine(Split(article, '\n')).value, 10)
  {
    match RegexTitle(article)
    case Some(t) =>
      RegexTitleNonEmpty(article);
      t
    case None =>
      match FirstContentLine(Split(article, '\n'))
      case None => Untitled
      case Some(line) =>
        LineTitle(line);
        Utf16Prefix(line, 10)
  }

  lemma RegexTitleNonEmpty(s: string)
    ensures RegexTitle(s).Some? ==> RegexTitle(s).value != []
  {
    RegexTitleShape(s);
  }

  /** The first 10 UTF-16 units of a non-blank line are a non-empty prefix of it. */
  lemma LineTitle(line: string)
    requires Trim(line) != []
    ensures var t := Utf16Prefix(line, 10); t != [] && StartsWith(line, t) && Utf16Length(t) <= 10
  {
    assert line != [] by {
      if line == [] {
        TrimEmptyIff(line);
      }
    }
    assert Units(line[0]) <= 10;
  }

  /** The eight line texts that count as a repetition of the title. */
  function TitleVariants(original: string, title: string): (v: seq<string>)
    ensures |v| == 8
  {
    ["# " + original, "# " + title, original, title,
     "## " + original, "## " + title, "### " + original, "### " + title]
  }

  lemma VariantsNonEmpty(original: string, title: string)
    requires original != [] && title != []
    ensures "" !in TitleVariants(original, title)
  {
    var v := TitleVariants(original, title);
    forall k | 0 <= k < |v|
      ensures |v[k]| > 0
    {
    }
  }

  /** The test of the line filter: the line's trim is not one of `drop`. */
  function Kept(drop: seq<string>): string -> bool {
    (line: string) => Trim(line) !in drop
  }

  /** The lines whose trim is not in `drop`, in their order. */
  function KeepLines(lines: seq<string>, drop: seq<string>): (r: seq<string>)
    ensures |r| <= |lines|
  {
    Filter(Kept(drop), lines)
  }

  /** Every kept line is a line whose trim is not dropped, and every such line is kept. */
  lemma KeepLinesSpec(lines: seq<string>, drop: seq<string>)
    ensures forall i :: 0 <= i < |KeepLines(lines, drop)| ==>
      KeepLines(lines, drop)[i] in lines && Trim(KeepLines(lines, drop)[i]) !in drop
    ensures forall i :: 0 <= i < |lines| && Trim(lines[i]) !in drop ==> lines[i] in KeepLines(lines, drop)
  {
    var keep := Kept(drop);
    FilterKeeps(keep, lines);
    FilterComplete(keep, lines);
    assert forall line :: keep(line) == (Trim(line) !in drop);
  }

  /** Nothing to drop keeps every line. */
  lemma KeepLinesNothingDropped(lines: seq<string>, drop: seq<string>)
    requires forall i :: 0 <= i < |lines| ==> Trim(lines[i]) !in drop
    ensures KeepLines(lines, drop) == lines
  {
    var keep := Kept(drop);
    assert forall i :: 0 <= i < |lines| ==> keep(lines[i]);
    FilterAll(keep, lines);
  }

  datatype Extracted = Extracted(title: string, filtered: string)

  /** `${emoji} ${originalTitle}`. */
  function Titled(emoji: string, original: string): (t: string)
    ensures StartsWith(t, emoji) && |t| == |emoji| + 1 + |original| && t[|emoji| + 1..] == original
  {
    emoji + " " + original
  }

  /**
   * `extractTitleAndFilterH1(article)` with the random emoji as a parameter:
   * the emoji-prefixed title, and the article without the lines repeating it.
   */
  function ExtractTitle(article: string, emoji: string): (r: Extracted)
    ensures StartsWith(r.title, emoji) && |r.title| > |emoji| && r.title[|emoji| + 1..] == OriginalTitle(article)
  {
    var original := OriginalTitle(article);
    var title := Titled(emoji, original);
    Extracted(title, Join(KeepLines(Split(article, '\n'), TitleVariants(original, title)), "\n"))
  }

  /**
   * No line of the filtered article repeats the title in any of the eight
   * forms, and every other line of the article survives.
   */
  lemma ExtractTitleFilters(article: string, emoji: string)
    ensures var r := ExtractTitle(article, emoji);
      var drop := TitleVariants(OriginalTitle(article), r.title);
      (forall i :: 0 <= i < |Split(r.filtered, '\n')| ==> Trim(Split(r.filtered, '\n')[i]) !in drop)
      && (forall i :: 0 <= i < |Split(article, '\n')| && Trim(Split(article, '\n')[i]) !in drop ==>
            Split(article, '\n')[i] in Split(r.filtered, '\n'))
  {
    var original := OriginalTitle(article);
    var title := Titled(emoji, original);
    var drop := TitleVariants(original, title);
    VariantsNonEmpty(original, title);
    FilterLines(Split(article, '\n'), drop);
    assert ExtractTitle(article, emoji) == Extracted(title, Join(KeepLines(Split(article, '\n'), drop), "\n"));
  }

  /** Joining the kept lines and splitting again gives back exactly the kept lines, when the empty line is never dropped. */
  lemma FilterLines(lines: seq<string>, drop: seq<string>)
    requires forall i :: 0 <= i < |lines| ==> '\n' !in lines[i]
    requires "" !in drop
    ensures var split := Split(Join(KeepLines(lines, drop), "\n"), '\n');
      (forall i :: 0 <= i < |split| ==> Trim(split[i]) !in drop)
      && (forall i :: 0 <= i < |lines| && Trim(lines[i]) !in drop ==> lines[i] in split)
  {
    var kept := KeepLines(lines, drop);
    KeepLinesSpec(lines, drop);
    if kept == [] {
      assert Join(kept, "\n") == "";
      assert Split("", '\n') == [""];
      assert Trim("") == [];
    } else {
      SplitJoin(kept, '\n');
    }
  }
}
