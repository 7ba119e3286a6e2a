/**
 * The Cloud Run follower (cloud-run-scripts/follow/followFromArticles.js and
 * its copy cloud-run-scripts/scripts/follow/followFromArticles.js, which
 * differ only in comments and in the HTTP handler the first one adds): log
 * in, watch dialogs for the quota phrase, open a search page, scroll up to
 * ten times while no quota dialog has appeared, then click every follow
 * button until one has. The browser is closed on every path but the login's
 * own `process.exit`.
 */
module CloudFollow {
  import opened Outcomes
  import opened Walker
  import DraftSteps

  /** The scroll loop runs at most this many rounds. */
  const ScrollRounds: nat := 10

  const LimitMessage: string := "フォロー上限に達しました"
  const DoneMessage: string := "フォロー処理が完了しました"

  /** One follow button: whether its click finished without throwing, and the dialogs shown meanwhile. */
  datatype Click = Click(ok: bool, dialogs: seq<string>)

  /**
   * The search page: the dialogs shown while it loads, those shown during
   * each scroll round, and either the follow buttons found or the message of
   * the exception the navigation, a scroll or the button query threw.
   */
  datatype SearchPage = SearchPage(early: seq<string>, rounds: nat -> seq<string>, buttons: Result<seq<Click>>)

  /** What `runFollowAutomation` returns: `error` holds the message on failure and `message` on success. */
  datatype Automation = Automation(success: bool, followCount: nat, isLimit: bool, message: string)

  /** The run returned a result, or the login ended the process. */
  datatype Outcome = Returned(result: Automation, closed: bool) | ProcessExited(code: int)

  predicate Clicked(c: Click) {
    c.ok
  }

  function ScrollSteps(rounds: nat -> seq<string>): (steps: seq<Step>)
    ensures |steps| == ScrollRounds
    ensures forall i :: 0 <= i < ScrollRounds ==> steps[i] == Advance(0, false, AnyQuota(rounds(i)))
  {
    seq(ScrollRounds, i requires 0 <= i < ScrollRounds => Advance(0, false, AnyQuota(rounds(i))))
  }

  function ClickSteps(clicks: seq<Click>): (steps: seq<Step>)
    ensures |steps| == |clicks|
    ensures forall i :: 0 <= i < |clicks| ==> steps[i] == Advance(if clicks[i].ok then 1 else 0, false, AnyQuota(clicks[i].dialogs))
  {
    seq(|clicks|, i requires 0 <= i < |clicks| => Advance(if clicks[i].ok then 1 else 0, false, AnyQuota(clicks[i].dialogs)))
  }

  /** Only the quota check ends these loops. */
  const WatchOnly: Bounds := Bounds(None, None, true)

  /** `isLimit` once the scroll loop has ended. */
  function AfterScroll(page: SearchPage): (limited: bool)
    ensures AnyQuota(page.early) ==> limited
  {
    Walk(ScrollSteps(page.rounds), WatchOnly, AnyQuota(page.early)).limited
  }

  /** The body of the `try` after a successful login. */
  function Automate(page: SearchPage): (r: Automation)
    ensures page.buttons.Err? ==> !r.success && r.followCount == 0 && r.message == page.buttons.message
    ensures page.buttons.Ok? ==> r.success && r.followCount <= |page.buttons.value|
    ensures page.buttons.Ok? ==>
      r.followCount == Count(Clicked, page.buttons.value, 0, Walk(ClickSteps(page.buttons.value), WatchOnly, AfterScroll(page)).visited)
    ensures r.success ==> r.message == if r.isLimit then LimitMessage else DoneMessage
    ensures AnyQuota(page.early) ==> r.isLimit
  {
    var limited := AfterScroll(page);
    match page.buttons
    case Err(m) => Automation(false, 0, limited, m)
    case Ok(clicks) =>
      var steps := ClickSteps(clicks);
      var w := Walk(steps, WatchOnly, limited);
      WalkTallies(steps, WatchOnly, 0, 0, 0, limited);
      GainedCounts(steps, Clicked, clicks, 0, w.visited);
      CountAtMost(Clicked, clicks, 0, w.visited);
      Automation(true, w.count, w.limited, if w.limited then LimitMessage else DoneMessage)
  }

  /** `runFollowAutomation()` from the login on; a login that throws is caught like any other error. */
  function RunFollow(login: DraftSteps.LoginEnd, page: SearchPage): (r: Outcome)
    ensures r.ProcessExited? <==> login.Exited?
    ensures r.Returned? ==> r.closed
    ensures login.LoginThrew? ==> r == Returned(Automation(false, 0, false, login.error), true)
    ensures login == DraftSteps.LoggedIn ==> r == Returned(Automate(page), true)
  {
    match login
    case Exited(c) => ProcessExited(c)
    case LoginThrew(m) => Returned(Automation(false, 0, false, m), true)
    case LoggedIn => Returned(Automate(page), true)
  }

  /** The HTTP reply of `handleFollowRequest`: status and, when the run returned, its result. */
  datatype Reply = Reply(status: nat, body: Result<Automation>)

  /** `handleFollowRequest`: 200 with the result when it succeeded, 500 otherwise; a launch failure is a 500 with its message. */
  function HandleFollowRequest(launch: Result<()>, login: DraftSteps.LoginEnd, page: SearchPage): (r: Option<Reply>)
    ensures r.None? <==> launch.Ok? && login.Exited?
    ensures r.Some? ==> (r.value.status == 200 <==> r.value.body.Ok? && r.value.body.value.success)
    ensures r.Some? ==> r.value.status == 200 || r.value.status == 500
    ensures launch.Err? ==> r == Some(Reply(500, Err(launch.message)))
  {
    match launch
    case Err(m) => Some(Reply(500, Err(m)))
    case Ok(_) =>
      match RunFollow(login, page)
      case ProcessExited(_) => None
      case Returned(a, _) => Some(Reply(if a.success then 200 else 500, Ok(a)))
  }

  /** `isLimit` is set exactly when a dialog shown during the page load, a scroll round run, or a button clicked carried the quota phrase. */
  lemma LimitOnlyByQuota(page: SearchPage)
    requires page.buttons.Ok?
    ensures var clicks := page.buttons.value;
      var scroll := Walk(ScrollSteps(page.rounds), WatchOnly, AnyQuota(page.early));
      var w := Walk(ClickSteps(clicks), WatchOnly, scroll.limited);
      Automate(page).isLimit <==>
        AnyQuota(page.early)
        || (exists k :: 0 <= k < scroll.visited && AnyQuota(page.rounds(k)))
        || (exists k :: 0 <= k < w.visited && AnyQuota(clicks[k].dialogs))
  {
    var clicks := page.buttons.value;
    var ss := ScrollSteps(page.rounds);
    var scroll := Walk(ss, WatchOnly, AnyQuota(page.early));
    var cs := ClickSteps(clicks);
    WalkRaises(ss, WatchOnly, 0, 0, 0, AnyQuota(page.early));
    WalkRaises(cs, WatchOnly, 0, 0, 0, scroll.limited);
    var w := Walk(cs, WatchOnly, scroll.limited);
    if exists k :: 0 <= k < scroll.visited && Limits(ss[k]) {
      var k :| 0 <= k < scroll.visited && Limits(ss[k]);
      assert AnyQuota(page.rounds(k));
    }
    if exists k :: 0 <= k < w.visited && Limits(cs[k]) {
      var k :| 0 <= k < w.visited && Limits(cs[k]);
      assert AnyQuota(clicks[k].dialogs);
    }
  }

  /** No button is clicked after the one whose click showed the quota dialog, and none once a dialog before the loop showed it. */
  lemma NoClickAfterLimit(page: SearchPage)
    requires page.buttons.Ok?
    ensures var clicks := page.buttons.value;
      var w := Walk(ClickSteps(clicks), WatchOnly, AfterScroll(page));
      (AfterScroll(page) ==> w.visited == 0)
      && forall k :: 0 <= k < w.visited - 1 ==> !AnyQuota(clicks[k].dialogs)
  {
    WalkEntersUnlimited(ClickSteps(page.buttons.value), WatchOnly, 0, 0, 0, AfterScroll(page));
  }

  /** With no quota dialog anywhere, every round is scrolled and every button is clicked. */
  lemma NoQuotaClicksAll(page: SearchPage)
    requires page.buttons.Ok? && !AnyQuota(page.early)
    requires forall k :: 0 <= k < ScrollRounds ==> !AnyQuota(page.rounds(k))
    requires forall k :: 0 <= k < |page.buttons.value| ==> !AnyQuota(page.buttons.value[k].dialogs)
    ensures Walk(ScrollSteps(page.rounds), WatchOnly, AnyQuota(page.early)).visited == ScrollRounds
    ensures Walk(ClickSteps(page.buttons.value), WatchOnly, AfterScroll(page)).visited == |page.buttons.value|
    ensures !Automate(page).isLimit
  {
    LimitOnlyByQuota(page);
    WalkRaises(ScrollSteps(page.rounds), WatchOnly, 0, 0, 0, false);
    WalkQuietVisitsAll(ScrollSteps(page.rounds), true, 0, 0, 0);
    WalkQuietVisitsAll(ClickSteps(page.buttons.value), true, 0, 0, 0);
  }
}
