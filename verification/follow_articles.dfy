/**
 * The search-page follower (follow/followFromArticles.js): search note.com
 * for the word of this run, collect the creators shown on the result page,
 * drop those without a link, keep the first creator of each name, and for
 * each one hover its entry and press the popup's `フォロー` button, until 15
 * creators are followed or a quota dialog sets `isLimit`.
 *
 * The script hovers the entry at the creator's position in the deduplicated
 * list, not at the creator's own position on the page; `FollowRunAsWritten`
 * keeps that and `FollowRun` hovers each creator's own entry.
 */
module FollowArticles {
  import opened Outcomes
  import opened JsText
  import opened Walker
  import Rotation

  /** At most this many creators are followed per run. */
  const FollowCap: nat := 15

  /** The popup button text of a creator not yet followed. */
  const FollowLabel: string := "フォロー"

  /** The base list (44 words) followed by the work-trouble list (47 words). */
  const SearchWordCount: nat := 91

  /** A creator name element of the result page: its trimmed text and whether a link sits on or beside it. */
  datatype Summary = Summary(name: string, anchor: bool)

  /** A creator kept by the page query: the name and the position of its element on the page. */
  datatype Creator = Creator(name: string, position: nat)

  function NameOf(c: Creator): string {
    c.name
  }

  /** `elements.map(...).filter(Boolean)` from position `i`: the linked creators, in page order. */
  function LinkedFrom(page: seq<Summary>, i: nat): (cs: seq<Creator>)
    requires i <= |page|
    ensures forall k :: 0 <= k < |cs| ==> i <= cs[k].position < |page| && page[cs[k].position] == Summary(cs[k].name, true)
    decreases |page| - i
  {
    if i == |page| then []
    else if page[i].anchor then [Creator(page[i].name, i)] + LinkedFrom(page, i + 1)
    else LinkedFrom(page, i + 1)
  }

  /** `uniqueCreators`: the linked creators with the first of each name kept. */
  function Creators(page: seq<Summary>): seq<Creator> {
    DedupeBy(NameOf, LinkedFrom(page, 0), {})
  }

  /** Every linked creator from `i` on is listed, and the list runs in page order. */
  lemma {:induction false} LinkedFromComplete(page: seq<Summary>, i: nat)
    requires i <= |page|
    ensures forall q :: i <= q < |page| && page[q].anchor ==> Creator(page[q].name, q) in LinkedFrom(page, i)
    ensures forall a, b :: 0 <= a < b < |LinkedFrom(page, i)| ==> LinkedFrom(page, i)[a].position < LinkedFrom(page, i)[b].position
    decreases |page| - i
  {
    if i < |page| {
      LinkedFromComplete(page, i + 1);
      var tail := LinkedFrom(page, i + 1);
      var cs := LinkedFrom(page, i);
      if page[i].anchor {
        assert cs == [Creator(page[i].name, i)] + tail;
        forall a, b | 0 <= a < b < |cs|
          ensures cs[a].position < cs[b].position
        {
          assert cs[b] == tail[b - 1];
          if a > 0 {
            assert cs[a] == tail[a - 1];
          }
        }
      }
    }
  }

  /** Every creator kept stands for its own linked element of the page, and no two share a name. */
  lemma CreatorsFaithful(page: seq<Summary>)
    ensures forall k :: 0 <= k < |Creators(page)| ==>
      Creators(page)[k].position < |page| && page[Creators(page)[k].position] == Summary(Creators(page)[k].name, true)
    ensures forall a, b :: 0 <= a < b < |Creators(page)| ==> Creators(page)[a].name != Creators(page)[b].name
  {
    DedupeKeeps(NameOf, LinkedFrom(page, 0), {});
  }

  /** Every linked name of the page is kept. */
  lemma CreatorsComplete(page: seq<Summary>, q: nat)
    requires q < |page| && page[q].anchor
    ensures exists k :: 0 <= k < |Creators(page)| && Creators(page)[k].name == page[q].name
  {
    var linked := LinkedFrom(page, 0);
    LinkedFromComplete(page, 0);
    var i :| 0 <= i < |linked| && linked[i] == Creator(page[q].name, q);
    var k := DedupeKeepsKey(NameOf, linked, {}, i);
    assert NameOf(Creators(page)[k]) == NameOf(linked[i]);
  }

  /** Each creator kept is the first linked element of the page with its name. */
  lemma CreatorsFirst(page: seq<Summary>, k: nat, q: nat)
    requires k < |Creators(page)| && q < Creators(page)[k].position && q < |page| && page[q].anchor
    ensures page[q].name != Creators(page)[k].name
  {
    var linked := LinkedFrom(page, 0);
    var c := Creators(page)[k];
    DedupeFirst(NameOf, linked, {});
    LinkedFromComplete(page, 0);
    var i :| 0 <= i < |linked| && linked[i] == c && forall j :: 0 <= j < i ==> NameOf(linked[j]) != NameOf(c);
    var j :| 0 <= j < |linked| && linked[j] == Creator(page[q].name, q);
    if j >= i {
      assert false;
    }
  }

  // ---------------------------------------------------------------------------
  // The follow loop

  /** What hovering an entry led to. */
  datatype Hover =
    | NoUserLink                             // the entry has no user link: next creator
    | HoverThrew                             // hover, the popup wait or reading the button threw: caught, next creator
    | NoButton                               // the popup has no button: next creator
    | Button(text: string, settled: bool)    // the popup button's trimmed text; whether its click and the wait after it finished

  /** One hovered entry and the dialogs shown meanwhile. */
  datatype Visit = Visit(hover: Hover, dialogs: seq<string>)

  /** The creator is followed: the button read `フォロー` and its click did not throw. */
  predicate Follows(v: Option<Visit>) {
    v.Some? && v.value.hover == Button(FollowLabel, true)
  }

  /** The entry a loop iteration hovers, when the page has one at that position. */
  function VisitAt(entries: seq<Visit>, w: nat): Option<Visit> {
    if w < |entries| then Some(entries[w]) else None
  }

  function StepOf(v: Option<Visit>): (s: Step)
    ensures s.Advance? && s.gain <= 1 && !s.failed
    ensures Gain(s) == 1 <==> Follows(v)
    ensures Limits(s) <==> v.Some? && AnyQuota(v.value.dialogs)
  {
    Advance(if Follows(v) then 1 else 0, false, v.Some? && AnyQuota(v.value.dialogs))
  }

  /** The entries the iterations hover, given the entry position of each iteration. */
  function Hovered(entries: seq<Visit>, targets: seq<nat>): (vs: seq<Option<Visit>>)
    ensures |vs| == |targets|
    ensures forall i :: 0 <= i < |vs| ==> vs[i] == VisitAt(entries, targets[i])
  {
    seq(|targets|, i requires 0 <= i < |targets| => VisitAt(entries, targets[i]))
  }

  function Steps(vs: seq<Option<Visit>>): (steps: seq<Step>)
    ensures |steps| == |vs|
    ensures forall i :: 0 <= i < |steps| ==> steps[i] == StepOf(vs[i])
  {
    seq(|vs|, i requires 0 <= i < |vs| => StepOf(vs[i]))
  }

  /** How the run ends: follows counted, whether `isLimit` was set, iterations run, an explicit exit code, and whether the browser was closed. */
  datatype Followed = Followed(count: nat, limited: bool, visited: nat, exitCode: Option<int>, closed: bool)

  /**
   * The loop over the hovered entries, with `early` the dialogs shown before
   * it. A quota dialog closes the browser from the dialog handler and the
   * script then exits with 1.
   */
  function Follow(vs: seq<Option<Visit>>, early: seq<string>): (r: Followed)
    ensures r.count <= FollowCap
    ensures r.visited <= |vs|
    ensures r.count == Count(Follows, vs, 0, r.visited)
    ensures r.visited < |vs| ==> r.count == FollowCap || r.limited
    ensures r.limited ==> r.exitCode == Some(1) && r.closed
    ensures !r.limited ==> r.exitCode.None? && r.closed
  {
    var steps := Steps(vs);
    var b := Bounds(Some(FollowCap), None, true);
    var w := Walk(steps, b, AnyQuota(early));
    WalkCapHolds(steps, b, 0, 0, 0, AnyQuota(early));
    WalkTallies(steps, b, 0, 0, 0, AnyQuota(early));
    GainedCounts(steps, Follows, vs, 0, w.visited);
    Followed(w.count, w.limited, w.visited, if w.limited then Some(1) else None, true)
  }

  /** `isLimit` ends the run set exactly when a dialog before the loop or during a hovered entry carried the quota phrase. */
  lemma FollowLimitedByQuota(vs: seq<Option<Visit>>, early: seq<string>)
    ensures var r := Follow(vs, early);
      r.limited <==> AnyQuota(early) || exists k :: 0 <= k < r.visited && vs[k].Some? && AnyQuota(vs[k].value.dialogs)
  {
    var steps := Steps(vs);
    WalkRaises(steps, Bounds(Some(FollowCap), None, true), 0, 0, 0, AnyQuota(early));
    var r := Follow(vs, early);
    if r.limited && !AnyQuota(early) {
      var k :| 0 <= k < r.visited && Limits(steps[k]);
      assert vs[k].Some? && AnyQuota(vs[k].value.dialogs);
    }
  }

  /** No creator is hovered after the one whose visit set `isLimit`, and none at all when it was set before the loop. */
  lemma FollowStopsAtLimit(vs: seq<Option<Visit>>, early: seq<string>)
    ensures var r := Follow(vs, early);
      (AnyQuota(early) ==> r.visited == 0)
      && forall k :: 0 <= k < r.visited - 1 ==> !(vs[k].Some? && AnyQuota(vs[k].value.dialogs))
  {
    var steps := Steps(vs);
    WalkEntersUnlimited(steps, Bounds(Some(FollowCap), None, true), 0, 0, 0, AnyQuota(early));
  }

  /** As the script does it: iteration `i` hovers entry `i` of the page. */
  function TargetsAsWritten(creators: seq<Creator>): (ts: seq<nat>)
    ensures |ts| == |creators|
  {
    seq(|creators|, i requires 0 <= i < |creators| => i)
  }

  /** Iteration `i` hovers the entry of creator `i`. */
  function Targets(creators: seq<Creator>): (ts: seq<nat>)
    ensures |ts| == |creators|
    ensures forall i :: 0 <= i < |ts| ==> ts[i] == creators[i].position
  {
    seq(|creators|, i requires 0 <= i < |creators| => creators[i].position)
  }

  /** The run as written, from the result page's creator elements and its entries. */
  function FollowRunAsWritten(page: seq<Summary>, entries: seq<Visit>, early: seq<string>): (r: Followed)
    ensures r.count <= FollowCap
    ensures r.visited <= |Creators(page)|
  {
    Follow(Hovered(entries, TargetsAsWritten(Creators(page))), early)
  }

  /** The run, hovering each creator's own entry. */
  function FollowRun(page: seq<Summary>, entries: seq<Visit>, early: seq<string>): (r: Followed)
    ensures r.count <= FollowCap
    ensures r.visited <= |Creators(page)|
    ensures r.count == Count(Follows, Hovered(entries, Targets(Creators(page))), 0, r.visited)
  {
    Follow(Hovered(entries, Targets(Creators(page))), early)
  }

  /** Each iteration of the corrected run hovers an entry of the creator it is about. */
  lemma FollowRunHoversOwnEntry(page: seq<Summary>, i: nat)
    requires i < |Creators(page)|
    ensures Targets(Creators(page))[i] < |page| && page[Targets(Creators(page))[i]].name == Creators(page)[i].name
  {
    CreatorsFaithful(page);
  }

  /**
   * Two entries by one creator followed by another: the script visits the
   * first two entries, both of the first creator, and never the third; the
   * corrected run visits the first and the third.
   */
  lemma AsWrittenSkipsLaterCreator(a: string, b: string)
    requires a != b
    ensures var page := [Summary(a, true), Summary(a, true), Summary(b, true)];
      Creators(page) == [Creator(a, 0), Creator(b, 2)]
      && TargetsAsWritten(Creators(page)) == [0, 1]
      && Targets(Creators(page)) == [0, 2]
      && page[TargetsAsWritten(Creators(page))[1]].name != Creators(page)[1].name
  {
    var page := [Summary(a, true), Summary(a, true), Summary(b, true)];
    assert LinkedFrom(page, 3) == [];
    assert LinkedFrom(page, 2) == [Creator(b, 2)];
    assert LinkedFrom(page, 1) == [Creator(a, 1), Creator(b, 2)];
    assert LinkedFrom(page, 0) == [Creator(a, 0), Creator(a, 1), Creator(b, 2)];
    var linked := LinkedFrom(page, 0);
    assert linked[1..] == [Creator(a, 1), Creator(b, 2)];
    assert linked[1..][1..] == [Creator(b, 2)];
    assert DedupeBy(NameOf, [Creator(b, 2)], {a}) == [Creator(b, 2)] by {
      assert [Creator(b, 2)][1..] == [];
    }
    assert DedupeBy(NameOf, linked[1..], {a}) == [Creator(b, 2)];
    assert {} + {NameOf(linked[0])} == {a};
    assert DedupeBy(NameOf, linked, {}) == [linked[0]] + DedupeBy(NameOf, linked[1..], {a});
    assert Creators(page) == [Creator(a, 0), Creator(b, 2)];
  }

  /**
   * On that page, with the first creator already followed and the second
   * not, the script follows nobody while the corrected run follows the
   * second creator.
   */
  lemma AsWrittenMissesFollow(a: string, b: string)
    requires a != b
    ensures var page := [Summary(a, true), Summary(a, true), Summary(b, true)];
      var followed := Visit(Button("フォロー中", true), []);
      var entries := [followed, followed, Visit(Button(FollowLabel, true), [])];
      FollowRunAsWritten(page, entries, []).count == 0 && FollowRun(page, entries, []).count == 1
  {
    AsWrittenSkipsLaterCreator(a, b);
    var page := [Summary(a, true), Summary(a, true), Summary(b, true)];
    var followed := Visit(Button("フォロー中", true), []);
    var entries := [followed, followed, Visit(Button(FollowLabel, true), [])];
    var asWritten := Hovered(entries, [0, 1]);
    var corrected := Hovered(entries, [0, 2]);
    assert !Follows(asWritten[0]) && !Follows(asWritten[1]);
    assert !Follows(corrected[0]) && Follows(corrected[1]);
    assert !AnyQuota([]);
    FollowLimitedByQuota(corrected, []);
    FollowLimitedByQuota(asWritten, []);
    assert Count(Follows, corrected, 0, 1) == 0;
    assert Count(Follows, corrected, 0, 2) == 1;
    assert Count(Follows, asWritten, 0, 1) == 0;
    assert Count(Follows, asWritten, 0, 2) == 0;
  }

  // ---------------------------------------------------------------------------
  // The run

  /** The word searched for and the follow loop on its result page. */
  datatype Searched = Searched(word: nat, run: Followed)

  /**
   * The script on day `dayOfYear` at `hour`: the rotation over the 91 words
   * picks the search word, and the loop runs as written on the result page.
   */
  function Script(dayOfYear: nat, hour: nat, page: seq<Summary>, entries: seq<Visit>, early: seq<string>): (r: Searched)
    requires hour < 24
    ensures r.word == Rotation.WordIndex(dayOfYear, hour, SearchWordCount) && r.word < SearchWordCount
    ensures r.run.count <= FollowCap && r.run.visited <= |Creators(page)|
  {
    Searched(Rotation.WordIndex(dayOfYear, hour, SearchWordCount), FollowRunAsWritten(page, entries, early))
  }

  /** The run three hours later on the same day searches for the next of the 91 words, wrapping after the last. */
  lemma NextRunNextWord(dayOfYear: nat, hour: nat, page: seq<Summary>, entries: seq<Visit>, early: seq<string>)
    requires hour + 3 < 24
    ensures Script(dayOfYear, hour + 3, page, entries, early).word
      == (Script(dayOfYear, hour, page, entries, early).word + 1) % SearchWordCount
  {
    Rotation.NextRunSameDay(dayOfYear, hour, SearchWordCount);
  }
}
