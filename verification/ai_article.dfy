/**
 * The Rails article service: `generate_content`'s three attempts,
 * `generate_article`'s validation, `extract_title_and_filter_h1` (as written
 * and corrected, see the findings in the README) and
 * `rewrite_and_tag_article`.
 */
module AiArticle {
  import opened JsText
  import opened RubyText
  import opened Outcomes
  import opened Retry
  import Affiliate

  // ---------------------------------------------------------------------------
  // generate_content

  /** One attempt: an exception (a network error or `API error: <status>`), or the reply's content, possibly nil. */
  datatype Attempt = Raised(message: string) | Returned(content: Option<string>)

  predicate Usable(a: Attempt) {
    a.Returned? && a.content.Some? && !Blank(a.content.value)
  }

  const GenerationFailed: string := "AI記事生成に失敗しました"

  /** The `3.times` loop from attempt `k` (counted from 0, as `attempt` is). */
  function ContentLoop(replies: nat -> Attempt, k: nat): (c: Call<string>)
    requires k <= 3
    ensures k + c.calls <= 3 && (k < 3 ==> c.calls >= 1)
    ensures c.outcome.Ok? ==> Usable(replies(k + c.calls - 1)) && c.outcome.value == replies(k + c.calls - 1).content.value
    ensures forall d :: d in c.delays ==> d == 1000
    decreases 3 - k
  {
    if k == 3 then Call(Err(GenerationFailed), 0, [])
    else match replies(k)
      case Raised(m) =>
        if k == 2 then Call(Err(m), 1, [])
        else
          var rest := ContentLoop(replies, k + 1);
          Call(rest.outcome, rest.calls + 1, [1000] + rest.delays)
      case Returned(content) =>
        if content.Some? && !Blank(content.value) then Call(Ok(content.value), 1, [])
        else
          var rest := ContentLoop(replies, k + 1);
          Call(rest.outcome, rest.calls + 1, rest.delays)
  }

  /** `generate_content(topic, pattern)` with the attempts' outcomes as a parameter. */
  function GenerateContent(replies: nat -> Attempt): (c: Call<string>)
    ensures 1 <= c.calls <= 3
    ensures c.outcome.Ok? ==> !Blank(c.outcome.value)
  {
    ContentLoop(replies, 0)
  }

  /** The first usable reply among the three attempts. */
  function FirstUsable(replies: nat -> Attempt, k: nat): (r: Option<nat>)
    requires k <= 3
    ensures r.Some? ==> k <= r.value < 3 && Usable(replies(r.value))
    ensures r.Some? ==> forall j :: k <= j < r.value ==> !Usable(replies(j))
    ensures r.None? ==> forall j :: k <= j < 3 ==> !Usable(replies(j))
    decreases 3 - k
  {
    if k == 3 then None
    else if Usable(replies(k)) then Some(k)
    else FirstUsable(replies, k + 1)
  }

  /**
   * The loop succeeds exactly when one of the three replies is usable, with
   * the first of them; otherwise it raises the third attempt's exception, or
   * `AI記事生成に失敗しました` when the third attempt returned.
   */
  lemma {:induction false} ContentLoopOutcome(replies: nat -> Attempt, k: nat)
    requires k <= 3
    ensures var c := ContentLoop(replies, k);
      match FirstUsable(replies, k)
      case Some(i) => c.outcome == Ok(replies(i).content.value) && c.calls == i - k + 1
      case None => (c.calls == 3 - k
        && c.outcome == Err(if replies(2).Raised? && k <= 2 then replies(2).message else GenerationFailed))
    decreases 3 - k
  {
    if k < 3 && !Usable(replies(k)) && !(replies(k).Raised? && k == 2) {
      ContentLoopOutcome(replies, k + 1);
    }
  }

  /** A failure in the first attempt sleeps 1 s, then a usable reply ends the loop. */
  lemma RaiseThenContent(replies: nat -> Attempt)
    requires replies(0).Raised? && Usable(replies(1))
    ensures GenerateContent(replies) == Call(Ok(replies(1).content.value), 2, [1000])
  {
  }

  /** An empty reply is retried without sleeping. */
  lemma BlankThenContent(replies: nat -> Attempt)
    requires replies(0).Returned? && !Usable(replies(0)) && Usable(replies(1))
    ensures GenerateContent(replies) == Call(Ok(replies(1).content.value), 2, [])
  {
  }

  /** Three failures sleep twice and re-raise the third exception. */
  lemma ThreeRaises(replies: nat -> Attempt)
    requires replies(0).Raised? && replies(1).Raised? && replies(2).Raised?
    ensures GenerateContent(replies) == Call(Err(replies(2).message), 3, [1000, 1000])
  {
  }

  /** Three empty replies end in `AI記事生成に失敗しました` without sleeping. */
  lemma ThreeBlanks(replies: nat -> Attempt)
    requires forall k :: 0 <= k < 3 ==> replies(k).Returned? && !Usable(replies(k))
    ensures GenerateContent(replies) == Call(Err(GenerationFailed), 3, [])
  {
    assert replies(0).Returned? && replies(1).Returned? && replies(2).Returned?;
  }

  // ---------------------------------------------------------------------------
  // extract_title_and_filter_h1

  const Untitled: string := "無題"

  /** Position `p` opens a line with `#`; in Ruby, `^` matches after `\n` only. */
  predicate HashLineAt(s: string, p: nat)
    requires p < |s|
  {
    s[p] == '#' && (p == 0 || s[p - 1] == '\n')
  }

  function FirstHashLine(s: string, from: nat): (r: Option<nat>)
    requires from <= |s|
    ensures r.Some? ==> from <= r.value < |s| && HashLineAt(s, r.value)
    ensures r.Some? ==> forall p :: from <= p < r.value ==> !HashLineAt(s, p)
    ensures r.None? ==> forall p :: from <= p < |s| ==> !HashLineAt(s, p)
    decreases |s| - from
  {
    if from == |s| then None
    else if HashLineAt(s, from) then Some(from)
    else FirstHashLine(s, from + 1)
  }

  /** Length of the leading run of Ruby `\s`. */
  function RegexSpaceRun(s: string): (n: nat)
    ensures n <= |s|
    ensures forall i :: 0 <= i < n ==> IsRegexSpace(s[i])
    ensures n < |s| ==> !IsRegexSpace(s[n])
  {
    if s == [] || !IsRegexSpace(s[0]) then 0 else 1 + RegexSpaceRun(s[1..])
  }

  /** Length of the leading run without `\n`. */
  function NewlineRun(s: string): (n: nat)
    ensures n <= |s|
    ensures forall i :: 0 <= i < n ==> s[i] != '\n'
    ensures n < |s| ==> s[n] == '\n'
  {
    if s == [] || s[0] == '\n' then 0 else 1 + NewlineRun(s[1..])
  }

  /** Where the capture of `/^#\s*(.+)$/` starts, after the greedy `\s*`. */
  function CaptureStart(s: string): (q: Option<nat>)
    ensures q.Some? ==> 1 <= q.value <= |s|
  {
    match FirstHashLine(s, 0)
    case None => None
    case Some(p) => Some(p + 1 + RegexSpaceRun(s[p + 1..]))
  }

  /** A stripped capture counts only when it is present. */
  function Present(t: string): Option<string> {
    if Blank(t) then None else Some(t)
  }

  /**
   * The title the service's expression yields. Under Ruby's `/m`, `.`
   * matches `\n`, so the greedy `(.+)` runs to the end of the text and `$`
   * matches there: the capture is the whole rest of the article.
   */
  function MultilineTitle(s: string): Option<string> {
    match CaptureStart(s)
    case None => None
    case Some(q) => if q == |s| then None else Present(Strip(s[q..]))
  }

  /** The title the expression was meant to yield: the capture stops at the end of its line. */
  function LineTitle(s: string): Option<string> {
    match CaptureStart(s)
    case None => None
    case Some(q) => LineCapture(s, q)
  }

  /** The corrected capture from `q`: the stripped rest of that line, when present. */
  function LineCapture(s: string, q: nat): Option<string>
    requires q <= |s|
  {
    if q == |s| then None else Present(Strip(s[q..q + NewlineRun(s[q..])]))
  }

  /** `line.strip.present?`. */
  predicate PresentLine(line: string) {
    !Blank(Strip(line))
  }

  /** The empty line strips to blank text, so a present line has a character. */
  lemma PresentNonEmpty(line: string)
    requires PresentLine(line)
    ensures line != []
  {
  }

  /** `line.slice(0, 10)`: at most the first ten characters. */
  function TitleSlice(line: string): (t: string)
    ensures line != [] ==> t != []
    ensures t == line[..if |line| <= 10 then |line| else 10]
  {
    if |line| <= 10 then line else line[..10]
  }

  /** `first_line&.slice(0, 10) || '無題'`: the first ten characters of the first present line. */
  function FallbackTitle(article: string): (t: string)
    ensures t != []
  {
    var lines := RubySplit(article);
    var first := FirstWhere(PresentLine, lines);
    if first.None? then Untitled
    else
      var line := lines[first.value];
      PresentNonEmpty(line);
      TitleSlice(line)
  }

  /** `line.strip == h1_title_line`. */
  predicate HeadingLine(line: string, h1: string) {
    Strip(line) == h1
  }

  /** The test `reject` applies, negated: the line is kept. */
  function Kept(h1: string): string -> bool {
    line => !HeadingLine(line, h1)
  }

  /** `lines.reject { |line| line.strip == h1 }`: the lines that are not `h1`, in order. */
  function RejectLines(lines: seq<string>, h1: string): (r: seq<string>)
    ensures |r| <= |lines|
  {
    Filter(Kept(h1), lines)
  }

  /** `reject` drops exactly the lines that strip to `h1`: no kept line does, every other line is kept, and only lines of the input are. */
  lemma RejectLinesKeeps(lines: seq<string>, h1: string)
    ensures forall i :: 0 <= i < |RejectLines(lines, h1)| ==> !HeadingLine(RejectLines(lines, h1)[i], h1)
    ensures forall i :: 0 <= i < |lines| && !HeadingLine(lines[i], h1) ==> lines[i] in RejectLines(lines, h1)
    ensures forall i :: 0 <= i < |RejectLines(lines, h1)| ==> RejectLines(lines, h1)[i] in lines
  {
    FilterKeeps(Kept(h1), lines);
    FilterComplete(Kept(h1), lines);
  }

  datatype Extracted = Extracted(title: string, filtered: string)

  /** The regular-expression title when it is present, the fallback otherwise. */
  function ChooseTitle(article: string, regexTitle: Option<string>): (t: string)
    ensures t != []
    ensures regexTitle.Some? && regexTitle.value != [] ==> t == regexTitle.value
  {
    if regexTitle.Some? && regexTitle.value != [] then regexTitle.value else FallbackTitle(article)
  }

  /** The title and the article without its `# title` lines. */
  function FilterHeading(article: string, title: string): (r: Extracted)
    ensures r.title == title
  {
    Extracted(title, RubyJoin(RejectLines(RubySplit(article), "# " + title)))
  }

  function ExtractWith(article: string, regexTitle: Option<string>): (r: Extracted)
    ensures r.title != []
  {
    FilterHeading(article, ChooseTitle(article, regexTitle))
  }

  /** `extract_title_and_filter_h1(article)` as the service writes it. */
  function ExtractAsWritten(article: string): Extracted {
    ExtractWith(article, MultilineTitle(article))
  }

  /** `extract_title_and_filter_h1(article)` with the capture stopping at the end of the title line. */
  function ExtractCorrected(article: string): Extracted {
    ExtractWith(article, LineTitle(article))
  }

  /** Title text the service's prompt asks for: one line that starts with a visible character. */
  predicate TitleText(t: string) {
    t != [] && '\n' !in t && !IsStripSpace(t[0]) && !IsUnicodeSpace(t[0])
  }

  /** An article that opens with `# title` puts the capture right after `# `. */
  lemma HeadingCapture(t: string, rest: string)
    requires TitleText(t)
    ensures var s := "# " + t + "\n" + rest; CaptureStart(s) == Some(2) && s[2..] == t + "\n" + rest
  {
    var s := "# " + t + "\n" + rest;
    assert HashLineAt(s, 0);
    assert FirstHashLine(s, 0) == Some(0);
    assert s[1..][1..] == t + "\n" + rest;
    StripSpaceIsWhite(t[0]);
    assert RegexSpaceRun(s[1..][1..]) == 0;
  }

  /**
   * As written, an article `# title` followed by more text takes the whole
   * text after `# ` as its title; that title spans lines, so no line
   * matches `# title` and the heading line stays in the filtered article.
   */
  lemma MultilineTitleSwallowsBody(t: string, rest: string)
    requires TitleText(t) && rest != [] && !IsStripSpace(rest[|rest| - 1])
    ensures var s := "# " + t + "\n" + rest;
      ExtractAsWritten(s) == Extracted(t + "\n" + rest, s)
  {
    var s := "# " + t + "\n" + rest;
    var title := t + "\n" + rest;
    assert MultilineTitle(s) == Some(title) by {
      HeadingCapture(t, rest);
      assert title[|title| - 1] == rest[|rest| - 1];
      StripOfStripped(title);
    }
    var lines := RubySplit(s);
    forall i | 0 <= i < |lines|
      ensures !HeadingLine(lines[i], "# " + title)
    {
      assert lines[i] == Split(s, '\n')[i];
      StripKeepsOut(lines[i], '\n');
      assert ("# " + title)[2 + |t|] == '\n';
    }
    RejectNothing(lines, "# " + title);
    RubySplitJoin(s);
    assert ChooseTitle(s, Some(title)) == title;
  }

  /** Nothing is rejected when no line matches. */
  lemma RejectNothing(lines: seq<string>, h1: string)
    requires forall i :: 0 <= i < |lines| ==> !HeadingLine(lines[i], h1)
    ensures RejectLines(lines, h1) == lines
  {
    FilterAll(Kept(h1), lines);
  }

  /**
   * Corrected, the same article takes the heading line's text as its title
   * and drops the heading line: the filtered article is the rest with its
   * own `# title` lines removed.
   */
  lemma LineTitleDropsHeading(t: string, rest: string)
    requires TitleText(t) && !IsStripSpace(t[|t| - 1])
    ensures var s := "# " + t + "\n" + rest;
      ExtractCorrected(s) == Extracted(t, RubyJoin(RejectLines(RubySplit(rest), "# " + t)))
  {
    var s := "# " + t + "\n" + rest;
    var h := "# " + t;
    assert ExtractCorrected(s) == FilterHeading(s, t) by {
      HeadingLineTitle(t, rest);
      assert ChooseTitle(s, Some(t)) == t;
    }
    assert RubySplit(s) == [h] + RubySplit(rest) by {
      assert s == h + "\n" + rest;
      RubySplitFirstLine(h, rest);
    }
    HeadingIsHeading(t);
    RejectHeadingFirst(h, RubySplit(rest));
  }

  /** The line `# title` strips to itself. */
  lemma HeadingIsHeading(t: string)
    requires TitleText(t) && !IsStripSpace(t[|t| - 1])
    ensures HeadingLine("# " + t, "# " + t)
  {
    var h := "# " + t;
    assert h[|h| - 1] == t[|t| - 1];
    StripOfStripped(h);
  }

  /** A leading line that is the heading is dropped. */
  lemma RejectHeadingFirst(h1: string, rest: seq<string>)
    requires HeadingLine(h1, h1)
    ensures RejectLines([h1] + rest, h1) == RejectLines(rest, h1)
  {
    assert ([h1] + rest)[1..] == rest;
  }

  /** The corrected expression captures the heading line's text. */
  lemma HeadingLineTitle(t: string, rest: string)
    requires TitleText(t) && !IsStripSpace(t[|t| - 1])
    ensures LineTitle("# " + t + "\n" + rest) == Some(t)
  {
    var s := "# " + t + "\n" + rest;
    HeadingCapture(t, rest);
    LineBeforeNewline(t, rest);
    assert s[2..2 + |t|] == t by {
      assert |"# "| == 2;
      assert forall i :: 0 <= i < |t| ==> s[2 + i] == t[i];
    }
    StripOfStripped(t);
    assert !Blank(t) by {
      assert !IsUnicodeSpace(t[0]);
    }
  }

  /** The line of `t + "\n" + rest` is `t` when `t` holds no newline. */
  lemma LineBeforeNewline(t: string, rest: string)
    requires '\n' !in t
    ensures var u := t + "\n" + rest; NewlineRun(u) == |t| && u[..|t|] == t
  {
    var u := t + "\n" + rest;
    var n := NewlineRun(u);
    assert u[|t|] == '\n';
    assert u[..|t|] == t;
  }

  /** The corrected title never spans lines, so the heading line that gave it can match `# title`. */
  lemma LineTitleIsOneLine(s: string)
    ensures LineTitle(s).Some? ==> '\n' !in LineTitle(s).value
  {
    if CaptureStart(s).Some? {
      LineCaptureOneLine(s, CaptureStart(s).value);
    }
  }

  lemma LineCaptureOneLine(s: string, q: nat)
    requires q <= |s|
    ensures LineCapture(s, q).Some? ==> '\n' !in LineCapture(s, q).value
  {
    if q < |s| {
      NewlineRunLine(s, q);
      StripKeepsOut(s[q..q + NewlineRun(s[q..])], '\n');
    }
  }

  /** The text from `q` to the next line break holds no line break. */
  lemma NewlineRunLine(s: string, q: nat)
    requires q <= |s|
    ensures '\n' !in s[q..q + NewlineRun(s[q..])]
  {
    var n := NewlineRun(s[q..]);
    assert forall i :: 0 <= i < n ==> s[q..q + n][i] == s[q..][i];
  }

  /** Every line of a Ruby split is free of line breaks. */
  lemma RubySplitLines(s: string)
    ensures forall i :: 0 <= i < |RubySplit(s)| ==> '\n' !in RubySplit(s)[i]
  {
    forall i | 0 <= i < |RubySplit(s)|
      ensures '\n' !in RubySplit(s)[i]
    {
      assert RubySplit(s)[i] == Split(s, '\n')[i];
    }
  }

  /** No line of the filtered article strips to `# title`, and every other line of the article is kept. */
  lemma FilterHeadingFilters(article: string, title: string)
    ensures var r := FilterHeading(article, title);
      forall i :: 0 <= i < |RubySplit(r.filtered)| ==> !HeadingLine(RubySplit(r.filtered)[i], "# " + title)
    ensures var lines := RubySplit(article);
      forall i :: 0 <= i < |lines| && !HeadingLine(lines[i], "# " + title) ==> lines[i] in RejectLines(lines, "# " + title)
  {
    var h1 := "# " + title;
    var lines := RubySplit(article);
    var kept := RejectLines(lines, h1);
    assert FilterHeading(article, title).filtered == RubyJoin(kept);
    assert (forall i :: 0 <= i < |kept| ==> '\n' !in kept[i]) && (forall i :: 0 <= i < |kept| ==> !HeadingLine(kept[i], h1)) by {
      RejectLinesKeeps(lines, h1);
      RubySplitLines(article);
      KeptLines(lines, kept);
    }
    JoinedLinesKeep(kept, h1);
    RejectLinesKeeps(lines, h1);
  }

  /** Joining lines that are not `h1` and splitting again yields no `h1` line. */
  lemma JoinedLinesKeep(kept: seq<string>, h1: string)
    requires forall i :: 0 <= i < |kept| ==> '\n' !in kept[i]
    requires forall i :: 0 <= i < |kept| ==> !HeadingLine(kept[i], h1)
    ensures forall i :: 0 <= i < |RubySplit(RubyJoin(kept))| ==> !HeadingLine(RubySplit(RubyJoin(kept))[i], h1)
  {
    RubySplitJoinPrefix(kept);
  }

  /** Lines taken from line-break-free lines are line-break free. */
  lemma KeptLines(lines: seq<string>, kept: seq<string>)
    requires forall i :: 0 <= i < |lines| ==> '\n' !in lines[i]
    requires forall i :: 0 <= i < |kept| ==> kept[i] in lines
    ensures forall i :: 0 <= i < |kept| ==> '\n' !in kept[i]
  {
    forall i | 0 <= i < |kept|
      ensures '\n' !in kept[i]
    {
      var j :| 0 <= j < |lines| && lines[j] == kept[i];
    }
  }

  // ---------------------------------------------------------------------------
  // rewrite_and_tag_article and generate_article

  const FixedTags: string := "#投資 #資産運用 #初心者 #FIRE #投資信託"

  /** Everything `rewrite_and_tag_article` appends after the stripped content. */
  const ServiceFooter: string := "\n\n" + Affiliate.InfoText + "\n\n" + FixedTags + "\n"

  /** `rewrite_and_tag_article(content)`: the stripped content, the thanks text and the fixed tags. */
  function RewriteAndTag(content: string): (r: string)
    ensures StartsWith(r, Strip(content)) && EndsWith(r, ServiceFooter)
    ensures |r| == |Strip(content)| + |ServiceFooter|
  {
    Strip(content) + ServiceFooter
  }

  /** Only the stripped content matters: padding the content changes nothing. */
  lemma RewriteAndTagIgnoresPadding(content: string)
    ensures RewriteAndTag(Strip(content)) == RewriteAndTag(content)
  {
    StripOfStripped(Strip(content));
  }

  /** The content is recovered from the result by cutting the footer. */
  lemma RewriteAndTagRecoversContent(content: string)
    ensures var r := RewriteAndTag(content); r[..|r| - |ServiceFooter|] == Strip(content)
  {
  }

  const ArticleInsufficient: string := "AI記事生成に失敗、または内容が不十分です"

  datatype Article = Article(title: string, content: string, topic: string, pattern: string)

  /** `generate_article` with the title extraction as a parameter. */
  function GenerateWith(topic: string, pattern: string, replies: nat -> Attempt, extract: string -> Extracted): (r: Result<Article>)
    ensures r.Ok? ==> GenerateContent(replies).outcome.Ok? && |GenerateContent(replies).outcome.value| >= 30
    ensures r.Ok? ==> r.value.topic == topic && r.value.pattern == pattern
    ensures r.Ok? ==> EndsWith(r.value.content, ServiceFooter)
    ensures r.Ok? ==> r.value.title == extract(GenerateContent(replies).outcome.value).title
    ensures GenerateContent(replies).outcome.Err? ==> r == Err(GenerateContent(replies).outcome.message)
    ensures GenerateContent(replies).outcome.Ok? && |GenerateContent(replies).outcome.value| < 30 ==> r == Err(ArticleInsufficient)
    ensures GenerateContent(replies).outcome.Ok? && Blank(GenerateContent(replies).outcome.value) ==> r == Err(ArticleInsufficient)
    ensures r.Ok? <==>
      GenerateContent(replies).outcome.Ok? && !Blank(GenerateContent(replies).outcome.value)
      && |GenerateContent(replies).outcome.value| >= 30
    ensures r.Ok? ==> r.value.content == RewriteAndTag(extract(GenerateContent(replies).outcome.value).filtered)
  {
    var c := GenerateContent(replies);
    if c.outcome.Err? then Err(c.outcome.message)
    else
      var article := c.outcome.value;
      if Blank(article) || |article| < 30 then Err(ArticleInsufficient)
      else
        var x := extract(article);
        Ok(Article(x.title, RewriteAndTag(x.filtered), topic, pattern))
  }

  /**
   * `generate_article` with the chosen topic and pattern and the attempts'
   * outcomes as parameters, extracting the title as the service writes it.
   */
  function GenerateArticle(topic: string, pattern: string, replies: nat -> Attempt): (r: Result<Article>)
    ensures r.Ok? ==> GenerateContent(replies).outcome.Ok?
    ensures r.Ok? ==> r.value.title == ExtractAsWritten(GenerateContent(replies).outcome.value).title && r.value.title != []
    ensures r.Ok? ==> EndsWith(r.value.content, ServiceFooter)
    ensures GenerateContent(replies).outcome.Err? ==> r == Err(GenerateContent(replies).outcome.message)
    ensures GenerateContent(replies).outcome.Ok? && |GenerateContent(replies).outcome.value| < 30 ==> r == Err(ArticleInsufficient)
  {
    GenerateWith(topic, pattern, replies, ExtractAsWritten)
  }

  /** `generate_article` with the corrected title extraction. */
  function GenerateArticleCorrected(topic: string, pattern: string, replies: nat -> Attempt): (r: Result<Article>)
    ensures r.Ok? ==> GenerateContent(replies).outcome.Ok?
    ensures r.Ok? ==> r.value.title == ExtractCorrected(GenerateContent(replies).outcome.value).title && r.value.title != []
    ensures r.Ok? ==> EndsWith(r.value.content, ServiceFooter)
    ensures GenerateContent(replies).outcome.Err? ==> r == Err(GenerateContent(replies).outcome.message)
    ensures GenerateContent(replies).outcome.Ok? && |GenerateContent(replies).outcome.value| < 30 ==> r == Err(ArticleInsufficient)
  {
    GenerateWith(topic, pattern, replies, ExtractCorrected)
  }

  /** A text that starts with `#` and ends in a non-space is its own strip. */
  lemma StrippedHeading(t: string, rest: string)
    requires rest != [] && !IsStripSpace(rest[|rest| - 1])
    ensures var s := "# " + t + "\n" + rest; Strip(s) == s && StartsWith(RewriteAndTag(s), "# " + t + "\n")
  {
    var h := "# " + t + "\n";
    var s := h + rest;
    assert s == "# " + t + "\n" + rest;
    StrippedPrefix(h, rest);
  }

  lemma StrippedPrefix(h: string, rest: string)
    requires h != [] && !IsStripSpace(h[0]) && rest != [] && !IsStripSpace(rest[|rest| - 1])
    ensures Strip(h + rest) == h + rest && StartsWith(RewriteAndTag(h + rest), h)
  {
    var s := h + rest;
    assert s[0] == h[0] && s[|s| - 1] == rest[|rest| - 1];
    StripOfStripped(s);
    FooterKeepsPrefix(h, rest);
  }

  lemma FooterKeepsPrefix(h: string, rest: string)
    ensures StartsWith(h + rest + ServiceFooter, h)
  {
    assert (h + rest + ServiceFooter)[..|h|] == h;
  }

  /**
   * A generated article `# title` followed by more text: as written, the
   * whole text becomes the title and the posted content keeps the heading
   * line; corrected, the title is the heading's text.
   */
  lemma GeneratedTitles(topic: string, pattern: string, replies: nat -> Attempt, t: string, rest: string)
    requires TitleText(t) && !IsStripSpace(t[|t| - 1]) && rest != [] && !IsStripSpace(rest[|rest| - 1])
    requires GenerateContent(replies).outcome == Ok("# " + t + "\n" + rest)
    requires |"# " + t + "\n" + rest| >= 30
    ensures GenerateArticle(topic, pattern, replies).Ok?
    ensures GenerateArticle(topic, pattern, replies).value.title == t + "\n" + rest
    ensures StartsWith(GenerateArticle(topic, pattern, replies).value.content, "# " + t + "\n")
    ensures GenerateArticleCorrected(topic, pattern, replies).value.title == t
  {
    var s := "# " + t + "\n" + rest;
    assert !Blank(s) by {
      assert s[0] == '#';
    }
    MultilineTitleSwallowsBody(t, rest);
    LineTitleDropsHeading(t, rest);
    StrippedHeading(t, rest);
  }
}
