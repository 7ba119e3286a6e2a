/**
 * The article generator's rewrite-and-tag pass: every section whose body is
 * shorter than 200 UTF-16 units is sent to the rewriter (each section with
 * its own stream of replies), rewritten bodies are spliced under the
 * heading line, the document is reassembled, the affiliate block is
 * inserted, level-1 heading lines are removed and the footer and tag line
 * are appended.
 */
module ArticlePipeline {
  import opened JsText
  import opened Outcomes
  import opened MdSections
  import opened Retry
  import opened Affiliate

  /** Sections below this many UTF-16 units are rewritten. */
  const MinLength: nat := 200

  /** The pause between two rewrites, taken after a short section that is not the last section. */
  const RewritePause: nat := 2000

  /** The sections after the pass, the indices sent to the rewriter in order, and every wait taken. */
  datatype Pass = Pass(sections: seq<Section>, invoked: seq<nat>, delays: seq<nat>)

  /** Which sections are below the length bound, as the loop's `body.length < 200` test sees them. */
  function ShortFlags(secs: seq<Section>): (f: seq<bool>)
    ensures |f| == |secs|
    ensures forall j :: 0 <= j < |secs| ==> (f[j] <==> IsShort(secs[j].raw, MinLength))
  {
    seq(|secs|, j requires 0 <= j < |secs| => IsShort(secs[j].raw, MinLength))
  }

  /** A section after the loop: spliced when flagged short and rewritten successfully, otherwise as it was. */
  function After(s: Section, short: bool, c: Call<string>): Section {
    if short && c.outcome.Ok? then Section(s.marker, Splice(s.raw, c.outcome.value)) else s
  }

  /** The loop keeps a section's marker and heading, and changes it only by a successful rewrite of a short section. */
  lemma AfterKeepsHeading(s: Section, short: bool, c: Call<string>)
    ensures After(s, short, c).marker == s.marker && Heading(After(s, short, c).raw) == Heading(s.raw)
    ensures !short || c.outcome.Err? ==> After(s, short, c) == s
    ensures short && c.outcome.Ok? ==>
      Split(After(s, short, c).raw, '\n') == [FirstLine(s.raw)] + Split(c.outcome.value, '\n') + [""]
  {
    if short && c.outcome.Ok? {
      SpliceKeepsHeading(s.raw, c.outcome.value);
    }
  }

  /** The indices from `i` on of the flagged sections, ascending. */
  function FlaggedFrom(short: seq<bool>, i: nat): (r: seq<nat>)
    requires i <= |short|
    ensures forall k :: 0 <= k < |r| ==> i <= r[k] < |short| && short[r[k]]
    ensures forall j :: i <= j < |short| && short[j] ==> j in r
    ensures forall k, l :: 0 <= k < l < |r| ==> r[k] < r[l]
    decreases |short| - i
  {
    if i == |short| then []
    else if short[i] then [i] + FlaggedFrom(short, i + 1)
    else FlaggedFrom(short, i + 1)
  }

  /** A section after the loop, with the splice left as the parameter `edit`. */
  function Edited(s: Section, short: bool, c: Call<string>, edit: (Section, Call<string>) -> Section): Section {
    if short then edit(s, c) else s
  }

  /** The splice of a successful rewrite, as `edit` for the loop. */
  function Rewritten(s: Section, c: Call<string>): Section {
    After(s, true, c)
  }

  /**
   * The loop over sections `i ..`; `short[j]` is the length test of section
   * `j`, `rewrite(j)` its rewrite call and `edit` what the loop does with a
   * short section and its call.
   */
  function RewriteFrom(secs: seq<Section>, short: seq<bool>, rewrite: nat -> Call<string>,
                       edit: (Section, Call<string>) -> Section, i: nat): (r: Pass)
    requires |short| == |secs| && i <= |secs|
    ensures |r.sections| == |secs| - i
    decreases |secs| - i
  {
    if i == |secs| then Pass([], [], [])
    else
      var rest := RewriteFrom(secs, short, rewrite, edit, i + 1);
      var s := secs[i];
      if short[i] then
        var c := rewrite(i);
        var pause: seq<nat> := if i < |secs| - 1 then [RewritePause] else [];
        Pass([edit(s, c)] + rest.sections, [i] + rest.invoked, c.delays + pause + rest.delays)
      else
        Pass([s] + rest.sections, rest.invoked, rest.delays)
  }

  /** The loop calls the rewriter for exactly the flagged sections, in order. */
  lemma {:induction false} RewriteFromInvoked(secs: seq<Section>, short: seq<bool>, rewrite: nat -> Call<string>,
                                              edit: (Section, Call<string>) -> Section, i: nat)
    requires |short| == |secs| && i <= |secs|
    ensures RewriteFrom(secs, short, rewrite, edit, i).invoked == FlaggedFrom(short, i)
    decreases |secs| - i
  {
    if i < |secs| {
      RewriteFromInvoked(secs, short, rewrite, edit, i + 1);
    }
  }

  /** Section by section, the loop's output is `Edited` of its input. */
  lemma {:induction false} RewriteFromSections(secs: seq<Section>, short: seq<bool>, rewrite: nat -> Call<string>,
                                               edit: (Section, Call<string>) -> Section, i: nat)
    requires |short| == |secs| && i <= |secs|
    ensures forall j :: i <= j < |secs| ==>
      RewriteFrom(secs, short, rewrite, edit, i).sections[j - i] == Edited(secs[j], short[j], rewrite(j), edit)
    decreases |secs| - i
  {
    if i < |secs| {
      RewriteFromSections(secs, short, rewrite, edit, i + 1);
      var r := RewriteFrom(secs, short, rewrite, edit, i);
      var rest := RewriteFrom(secs, short, rewrite, edit, i + 1);
      assert r.sections == [Edited(secs[i], short[i], rewrite(i), edit)] + rest.sections;
      forall j | i < j < |secs|
        ensures r.sections[j - i] == Edited(secs[j], short[j], rewrite(j), edit)
      {
        assert r.sections[j - i] == rest.sections[j - (i + 1)];
      }
    }
  }

  /** The rewrite call of each section. */
  function RewriteCalls(replies: nat -> nat -> Reply): (f: nat -> Call<string>)
    ensures forall j :: f(j) == RewriteSection(replies(j))
  {
    (j: nat) => RewriteSection(replies(j))
  }

  /** The waits of one rewrite call are 1000 ms and then 2000 ms, as far as it got. */
  lemma RewriteCallWaits(replies: nat -> Reply)
    ensures forall k :: 0 <= k < |RewriteSection(replies).delays| ==> RewriteSection(replies).delays[k] in {1000, 2000}
  {
    var c := RewriteSection(replies);
    LinearWaitsIn(c.calls);
  }

  lemma LinearWaitsIn(n: nat)
    requires n <= 3
    ensures forall k :: 0 <= k < |Waits(LinearBackoff, n)| ==> Waits(LinearBackoff, n)[k] in {1000, 2000}
  {
    var w := Waits(LinearBackoff, n);
    forall k | 0 <= k < |w|
      ensures w[k] in {1000, 2000}
    {
      assert w[k] == LinearBackoff(k + 1);
    }
  }

  /** Every wait of the loop is a retry back-off of its calls or the 2000 ms pause. */
  lemma {:induction false} RewriteDelays(secs: seq<Section>, short: seq<bool>, rewrite: nat -> Call<string>,
                                         edit: (Section, Call<string>) -> Section, i: nat)
    requires |short| == |secs| && i <= |secs|
    requires forall j, k :: 0 <= k < |rewrite(j).delays| ==> rewrite(j).delays[k] in {1000, 2000}
    ensures forall k :: 0 <= k < |RewriteFrom(secs, short, rewrite, edit, i).delays| ==>
      RewriteFrom(secs, short, rewrite, edit, i).delays[k] in {1000, 2000}
    decreases |secs| - i
  {
    if i < |secs| {
      RewriteDelays(secs, short, rewrite, edit, i + 1);
    }
  }

  /**
   * The rewrite loop over all sections: the sections sent to the rewriter
   * are exactly the short ones, in document order.
   */
  function RewriteShortSections(secs: seq<Section>, replies: nat -> nat -> Reply): (r: Pass)
    ensures |r.sections| == |secs|
    ensures forall k :: 0 <= k < |r.invoked| ==> r.invoked[k] < |secs| && IsShort(secs[r.invoked[k]].raw, MinLength)
    ensures forall j :: 0 <= j < |secs| && IsShort(secs[j].raw, MinLength) ==> j in r.invoked
    ensures forall k, l :: 0 <= k < l < |r.invoked| ==> r.invoked[k] < r.invoked[l]
  {
    RewriteFromInvoked(secs, ShortFlags(secs), RewriteCalls(replies), Rewritten, 0);
    RewriteFrom(secs, ShortFlags(secs), RewriteCalls(replies), Rewritten, 0)
  }

  /** Section `j` after the loop is `After` its own length test and rewrite call. */
  lemma RewriteShortSectionsAt(secs: seq<Section>, replies: nat -> nat -> Reply, j: nat)
    requires j < |secs|
    ensures RewriteShortSections(secs, replies).sections[j]
      == After(secs[j], IsShort(secs[j].raw, MinLength), RewriteSection(replies(j)))
  {
    var short := ShortFlags(secs);
    var f := RewriteCalls(replies);
    RewrittenAt(secs, short, f, j);
    assert short[j] == IsShort(secs[j].raw, MinLength);
    assert f(j) == RewriteSection(replies(j));
  }

  lemma RewrittenAt(secs: seq<Section>, short: seq<bool>, rewrite: nat -> Call<string>, j: nat)
    requires |short| == |secs| && j < |secs|
    ensures RewriteFrom(secs, short, rewrite, Rewritten, 0).sections[j] == After(secs[j], short[j], rewrite(j))
  {
    RewriteFromSections(secs, short, rewrite, Rewritten, 0);
  }

  /**
   * Every section keeps its marker and heading; a long section, or one whose
   * rewrite failed after three calls, is unchanged; a rewritten one is its
   * heading line followed by the new body and a final newline.
   */
  lemma RewriteKeepsHeadings(secs: seq<Section>, replies: nat -> nat -> Reply, j: nat)
    requires j < |secs|
    ensures RewriteShortSections(secs, replies).sections[j].marker == secs[j].marker
    ensures Heading(RewriteShortSections(secs, replies).sections[j].raw) == Heading(secs[j].raw)
    ensures !IsShort(secs[j].raw, MinLength) || RewriteSection(replies(j)).outcome.Err? ==>
      RewriteShortSections(secs, replies).sections[j] == secs[j]
    ensures IsShort(secs[j].raw, MinLength) && RewriteSection(replies(j)).outcome.Ok? ==>
      Split(RewriteShortSections(secs, replies).sections[j].raw, '\n')
        == [FirstLine(secs[j].raw)] + Split(RewriteSection(replies(j)).outcome.value, '\n') + [""]
  {
    RewriteShortSectionsAt(secs, replies, j);
    AfterKeepsHeading(secs[j], IsShort(secs[j].raw, MinLength), RewriteSection(replies(j)));
  }

  /** Without a flagged section nothing is called, nothing waits, and the sections stay as they are. */
  lemma {:induction false} NoShortSectionNoCall(secs: seq<Section>, short: seq<bool>, rewrite: nat -> Call<string>,
                                                edit: (Section, Call<string>) -> Section, i: nat)
    requires |short| == |secs| && i <= |secs|
    requires forall j :: i <= j < |secs| ==> !short[j]
    ensures RewriteFrom(secs, short, rewrite, edit, i) == Pass(secs[i..], [], [])
    decreases |secs| - i
  {
    if i < |secs| {
      NoShortSectionNoCall(secs, short, rewrite, edit, i + 1);
      assert [secs[i]] + secs[i + 1..] == secs[i..];
    }
  }

  /** A short section followed by a long one: one rewrite that succeeds at once, then the 2000 ms pause. */
  lemma ShortThenLong(s: Section, t: Section, replies: nat -> nat -> Reply)
    requires replies(0)(1).Message?
    ensures RewriteFrom([s, t], [true, false], RewriteCalls(replies), Rewritten, 0)
      == Pass([Section(s.marker, Splice(s.raw, Trim(replies(0)(1).content))), t], [0], [RewritePause])
  {
    var f := RewriteCalls(replies);
    var c := RewriteSection(replies(0));
    assert c.outcome == Ok(Trim(replies(0)(1).content)) && c.delays == [] by {
      assert c.calls == 1;
    }
    assert f(0) == c;
    ShortThenLongCall(s, t, f, Rewritten);
  }

  lemma ShortThenLongCall(s: Section, t: Section, rewrite: nat -> Call<string>, edit: (Section, Call<string>) -> Section)
    requires rewrite(0).delays == []
    ensures RewriteFrom([s, t], [true, false], rewrite, edit, 0) == Pass([edit(s, rewrite(0)), t], [0], [RewritePause])
  {
    var secs := [s, t];
    assert RewriteFrom(secs, [true, false], rewrite, edit, 2) == Pass([], [], []);
    assert RewriteFrom(secs, [true, false], rewrite, edit, 1) == Pass([t], [], []);
  }

  // ---------------------------------------------------------------------------
  // The whole pass

  /** The finished article, the sections that were sent to the rewriter, and the waits. */
  datatype Tagged = Tagged(text: string, rewritten: seq<nat>, delays: seq<nat>)

  /** The tag line: the generator's answer, or the fixed fallback when all three calls failed. */
  function TagLine(tagReplies: nat -> Reply): (t: string)
    ensures !AnyMessage(tagReplies) ==> t == FallbackTags
    ensures AnyMessage(tagReplies) ==>
      exists k :: 1 <= k <= 3 && tagReplies(k).Message? && t == Trim(tagReplies(k).content)
        && forall j :: 1 <= j < k ==> tagReplies(j).Failure?
  {
    var c := GenerateTags(tagReplies);
    if c.outcome.Ok? then
      assert 1 <= c.calls <= 3 && tagReplies(c.calls).Message?;
      c.outcome.value
    else FallbackTags
  }

  /** Split, rewrite the short sections, reassemble with a blank line after the first part, insert the affiliate blocks. */
  function Laid(raw: string, replies: nat -> nat -> Reply): string {
    var d := SplitSections(raw);
    var pass := RewriteShortSections(d.sections, replies);
    InsertAffiliateLinks(ReassembleSpaced(Document(d.firstPart, pass.sections)))
  }

  /**
   * The laid-out article with its level-1 lines removed: a line feed
   * followed by `# ` and more text goes, and every other line, `## `
   * headings included, stays as it is.
   */
  function ArticleBody(raw: string, replies: nat -> nat -> Reply): (body: string)
    ensures NoH1Line(body)
    ensures body == KeepLines(Laid(raw, replies))
  {
    StripLeavesNoH1(Laid(raw, replies));
    StripIsKeepLines(Laid(raw, replies));
    StripH1Lines(Laid(raw, replies))
  }

  /** `rewriteAndTagArticle(raw)`; the tag generator's reply stream is `tagReplies`. */
  function RewriteAndTag(raw: string, replies: nat -> nat -> Reply, tagReplies: nat -> Reply): (r: Tagged)
    ensures StartsWith(r.text, Trim(ArticleBody(raw, replies)) + ParagraphBreak + Footer)
    ensures EndsWith(r.text, ParagraphBreak + TagLine(tagReplies) + "\n")
    ensures r.text == Finish(ArticleBody(raw, replies), TagLine(tagReplies))
    ensures NoH1Line(Trim(ArticleBody(raw, replies)))
    ensures r.rewritten == RewriteShortSections(SplitSections(raw).sections, replies).invoked
  {
    var d := SplitSections(raw);
    var pass := RewriteShortSections(d.sections, replies);
    var body := ArticleBody(raw, replies);
    TrimKeepsNoH1Line(body);
    var tags := GenerateTags(tagReplies);
    Tagged(Finish(body, TagLine(tagReplies)), pass.invoked, pass.delays + tags.delays)
  }

  /** Whatever the rewriter and tag generator answer, the article carries the disclosure and the magazine promotion. */
  lemma RewriteAndTagDiscloses(raw: string, replies: nat -> nat -> Reply, tagReplies: nat -> Reply)
    ensures Contains(RewriteAndTag(raw, replies, tagReplies).text, AmazonAssociateText)
    ensures Contains(RewriteAndTag(raw, replies, tagReplies).text, MagazinePromotion)
  {
    FinishDiscloses(ArticleBody(raw, replies), TagLine(tagReplies));
  }

  /** With every tag call failing, the fixed tag line closes the article. */
  lemma TagFallback(raw: string, replies: nat -> nat -> Reply, tagReplies: nat -> Reply)
    requires !AnyMessage(tagReplies)
    ensures EndsWith(RewriteAndTag(raw, replies, tagReplies).text, ParagraphBreak + FallbackTags + "\n")
  {
  }

  /** When rewriting itself throws, the generator's catch block: affiliate blocks, the footer and the fixed tags, with level-1 lines left in. */
  function FallbackArticle(filtered: string): (r: string)
    ensures StartsWith(r, Trim(InsertAffiliateLinks(filtered)) + ParagraphBreak + Footer)
    ensures EndsWith(r, ParagraphBreak + FallbackTags + "\n")
    ensures r == Finish(InsertAffiliateLinks(filtered), FallbackTags)
  {
    Finish(InsertAffiliateLinks(filtered), FallbackTags)
  }
}
