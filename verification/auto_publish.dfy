/**
 * The draft publisher (autoPublishNotes.js): log in, open the draft list,
 * and walk it from the newest draft to the oldest, skipping titles that start
 * with `S-`, until one draft has been published. A missing `公開に進む`
 * button or `投稿する` button moves on to the next draft; every other failure
 * is uncaught and ends the process.
 */
module AutoPublish {
  import opened Outcomes
  import opened JsText
  import opened Walker
  import DraftSteps

  /** At most this many drafts are published per run. */
  const PostLimit: nat := 1

  /** Drafts whose title starts with this are never published. */
  const SkipPrefix: string := "S-"

  /** What happens once the edit link of a draft is clicked. */
  datatype Editing =
    | EditThrew    // the link, the navigation, a wait or the `投稿する` wait failed: nothing catches it
    | NoProceed    // no button text contains `公開に進む`: back to the list, next draft
    | NoPost       // `公開に進む` clicked, but no button text contains `投稿する`
    | Posted       // `投稿する` clicked; a missing completion dialog is swallowed

  /** A draft of the list: its trimmed heading (`None` when reading it throws) and its editing outcome. */
  datatype Draft = Draft(title: Option<string>, editing: Editing)

  /** The draft list page: the navigation or the wait for list items failed, or the items found. */
  datatype DraftList = ListFailed | Listed(drafts: seq<Draft>)

  datatype Ending = LoginFailed(login: DraftSteps.LoginEnd) | NoList | NoDrafts | Crashed | Finished

  /**
   * How the run ended, how many drafts were posted, which one (its position
   * in the list), whether the browser was closed, and the code of an
   * explicit `process.exit`.
   */
  datatype Published = Published(ending: Ending, posted: nat, published: Option<nat>, closed: bool, exitCode: Option<int>)

  predicate SkippedTitle(d: Draft) {
    d.title.Some? && StartsWith(d.title.value, SkipPrefix)
  }

  /** The draft is published when the walk reaches it. */
  predicate Postable(d: Draft) {
    d.title.Some? && !SkippedTitle(d) && d.editing == Posted
  }

  /** Visiting the draft throws out of the loop. */
  predicate Crashes(d: Draft) {
    d.title.None? || (!SkippedTitle(d) && d.editing == EditThrew)
  }

  /** One draft as a step of the walk. */
  function StepOf(d: Draft): (s: Step)
    ensures s.Halt? <==> Crashes(d)
    ensures Gain(s) == 1 <==> Postable(d)
    ensures Gain(s) <= 1
  {
    match d.title
    case None => Halt(true)
    case Some(t) =>
      if StartsWith(t, SkipPrefix) then Advance(0, false, false)
      else match d.editing
        case EditThrew => Halt(true)
        case NoProceed => Advance(0, false, false)
        case NoPost => Advance(0, false, false)
        case Posted => Advance(1, false, false)
  }

  /** The drafts from the last list item to the first. */
  function Steps(drafts: seq<Draft>): (steps: seq<Step>)
    ensures |steps| == |drafts|
    ensures forall k :: 0 <= k < |steps| ==> steps[k] == StepOf(drafts[|drafts| - 1 - k])
  {
    seq(|drafts|, k requires 0 <= k < |drafts| => StepOf(drafts[|drafts| - 1 - k]))
  }

  /** The draft at list position `k` is postable or crashes. */
  predicate DecidesAt(drafts: seq<Draft>, k: nat) {
    k < |drafts| && (Postable(drafts[k]) || Crashes(drafts[k]))
  }

  /** The list position of the draft that decides the run: the newest that is neither skipped nor passed over. */
  function Deciding(drafts: seq<Draft>): (r: Option<nat>)
    ensures r.Some? ==> r.value < |drafts| && (Postable(drafts[r.value]) || Crashes(drafts[r.value]))
  {
    if drafts == [] then None
    else LastWhere((k: nat) => DecidesAt(drafts, k), 0, |drafts| - 1)
  }

  /** The run after the login. */
  function PublishFrom(drafts: seq<Draft>): (r: Published)
    requires |drafts| > 0
    ensures r.posted <= PostLimit
    ensures r.published.Some? <==> r.posted == 1
    ensures r.published.Some? ==> r.published.value < |drafts| && Postable(drafts[r.published.value])
    ensures r.ending == Finished || r.ending == Crashed
    ensures r.closed <==> r.ending == Finished
    ensures r.exitCode.None?
  {
    var steps := Steps(drafts);
    WalkCapOne(steps, 0, 0, false);
    var w := Walk(steps, Bounds(Some(PostLimit), None, false), false);
    var k := NextDecisive(steps, 0);
    var crashed := k < |steps| && steps[k].Halt?;
    Published(if crashed then Crashed else Finished, w.count,
              if w.count == 1 then Some(|drafts| - 1 - k) else None, !crashed, None)
  }

  /**
   * The whole script from the login on. A login that throws or exits ends
   * it; a list page that fails is uncaught; an empty list closes the browser
   * and exits with 1.
   */
  function Publish(login: DraftSteps.LoginEnd, list: DraftList): (r: Published)
    ensures r.posted <= PostLimit
    ensures r.ending == NoDrafts <==> login == DraftSteps.LoggedIn && list == Listed([])
    ensures r.ending == NoDrafts ==> r.closed && r.exitCode == Some(1)
    ensures login.Exited? ==> r.exitCode == Some(login.code) && r.posted == 0
    ensures r.published.Some? ==>
      login == DraftSteps.LoggedIn && list.Listed? && r.published.value < |list.drafts|
      && Postable(list.drafts[r.published.value])
    ensures r.closed <==> r.ending == NoDrafts || r.ending == Finished
  {
    match login
    case LoginThrew(_) => Published(LoginFailed(login), 0, None, false, None)
    case Exited(c) => Published(LoginFailed(login), 0, None, false, Some(c))
    case LoggedIn =>
      match list
      case ListFailed => Published(NoList, 0, None, false, None)
      case Listed(drafts) =>
        if |drafts| == 0 then Published(NoDrafts, 0, None, true, Some(1))
        else PublishFrom(drafts)
  }

  /** The first decisive step of the walk is the newest deciding draft. */
  lemma DecidingIsFirstDecisive(drafts: seq<Draft>)
    requires |drafts| > 0
    ensures var k := NextDecisive(Steps(drafts), 0);
      (k < |drafts| ==> Deciding(drafts) == Some(|drafts| - 1 - k))
      && (k == |drafts| ==> Deciding(drafts).None?)
  {
    var steps := Steps(drafts);
    var k := NextDecisive(steps, 0);
    var p := (k: nat) => DecidesAt(drafts, k);
    if k < |drafts| {
      assert Decisive(steps[k]);
      forall j: nat | |drafts| - 1 - k < j <= |drafts| - 1
        ensures !p(j)
      {
        assert !Decisive(steps[|drafts| - 1 - j]);
      }
      LastWhereAt(p, 0, |drafts| - 1, |drafts| - 1 - k);
    } else {
      forall j: nat | j <= |drafts| - 1
        ensures !p(j)
      {
        assert !Decisive(steps[|drafts| - 1 - j]);
      }
    }
  }

  /**
   * The run publishes exactly the newest draft that is neither skipped nor
   * passed over, provided it is postable; it crashes when that draft's visit
   * throws; and it ends having published nothing when every draft is
   * skipped or passed over.
   */
  lemma PublishesNewestPostable(drafts: seq<Draft>)
    requires |drafts| > 0
    ensures var r := Publish(DraftSteps.LoggedIn, Listed(drafts));
      (r.published == Deciding(drafts) <==> Deciding(drafts).None? || Postable(drafts[Deciding(drafts).value]))
      && (r.ending == Crashed <==> Deciding(drafts).Some? && Crashes(drafts[Deciding(drafts).value]))
  {
    DecidingIsFirstDecisive(drafts);
    WalkCapOne(Steps(drafts), 0, 0, false);
  }

  /** Drafts whose title starts with `S-` are never published, whatever happens around them. */
  lemma SkippedNeverPublished(drafts: seq<Draft>, j: nat)
    requires j < |drafts| && SkippedTitle(drafts[j])
    ensures Publish(DraftSteps.LoggedIn, Listed(drafts)).published != Some(j)
  {
  }
}
