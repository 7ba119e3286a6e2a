/**
 * The creator-page follower (follow/followFromSearchAndMove.js): collect the
 * creator links of a search page, then open each in a new tab and click its
 * `フォロー` button, until thirteen clicks have gone through, two visits have
 * failed, or the links run out. A creator page with no `フォロー` button
 * (already followed) closes its tab and moves on without a failure.
 */
module FollowSearchMove {
  import opened Outcomes
  import opened Walker
  import DraftSteps

  /** The walk stops once this many clicks have been dispatched. */
  const MaxClicks: nat := 13

  /** The walk stops at the start of an iteration once this many visits have failed. */
  const MaxFailures: nat := 2

  /** How the visit of one creator page ended. */
  datatype Visit =
    | TabThrew     // opening the tab or setting its user agent threw: nothing catches it
    | Unreached    // the navigation or the wait for buttons threw
    | NoButton     // no button reads `フォロー`: the tab is closed and the walk moves on
    | ClickThrew   // scrolling to the button or dispatching the click threw
    | NameThrew    // the click went through, then reading the creator name threw
    | Followed     // the click went through and the name was read

  /** `clickCount` counts the visit: the click was dispatched. */
  predicate Counted(v: Visit) {
    v == NameThrew || v == Followed
  }

  /** `totalFailures` counts the visit: something inside the `try` threw. */
  predicate VisitFails(v: Visit) {
    v == Unreached || v == ClickThrew || v == NameThrew
  }

  /** How many times the visit closes its tab: once on every path that opened one. */
  function TabCloses(v: Visit): nat {
    if v == TabThrew then 0 else 1
  }

  /** One visit as a step of the walk. */
  function StepOf(v: Visit): (s: Step)
    ensures s.Halt? <==> v == TabThrew
    ensures s.Halt? ==> s.crash
    ensures Gain(s) == if Counted(v) then 1 else 0
    ensures Fails(s) <==> VisitFails(v)
  {
    match v
    case TabThrew => Halt(true)
    case Unreached => Advance(0, true, false)
    case NoButton => Advance(0, false, false)
    case ClickThrew => Advance(0, true, false)
    case NameThrew => Advance(1, true, false)
    case Followed => Advance(1, false, false)
  }

  function Steps(visits: seq<Visit>): (steps: seq<Step>)
    ensures |steps| == |visits|
    ensures forall i :: 0 <= i < |visits| ==> steps[i] == StepOf(visits[i])
  {
    seq(|visits|, i requires 0 <= i < |visits| => StepOf(visits[i]))
  }

  /** The loop condition checks the links left and the click cap; the body first checks the failures. */
  const Caps: Bounds := Bounds(Some(MaxClicks), Some(MaxFailures), false)

  /** The counters when the walk ends, the links visited, and whether `browser.close()` was reached. */
  datatype Run = Run(clicks: nat, failures: nat, visited: nat, closed: bool)

  /** The facts about the walk that `FollowLinks` reports. */
  lemma LinkWalk(visits: seq<Visit>)
    ensures var w := Walk(Steps(visits), Caps, false);
      w.count <= MaxClicks && w.failures <= MaxFailures
      && w.count == Count(Counted, visits, 0, w.visited)
      && w.failures == Count(VisitFails, visits, 0, w.visited)
      && (w.stop.Halted? <==> 0 < w.visited && visits[w.visited - 1] == TabThrew)
  {
    var steps := Steps(visits);
    var w := Walk(steps, Caps, false);
    WalkCapHolds(steps, Caps, 0, 0, 0, false);
    WalkBudgetHolds(steps, Caps, 0, 0, 0, false);
    WalkTallies(steps, Caps, 0, 0, 0, false);
    WalkHaltsLast(steps, Caps, 0, 0, 0, false);
    GainedCounts(steps, Counted, visits, 0, w.visited);
    FailedCounts(steps, VisitFails, visits, 0, w.visited);
  }

  /**
   * The walk over the collected links: `clickCount` is the number of visits
   * whose click went through, `totalFailures` the number whose `try` threw,
   * and links are left unvisited only when the cap or the budget was reached
   * or opening a tab threw.
   */
  function FollowLinks(visits: seq<Visit>): (r: Run)
    ensures r.visited <= |visits|
    ensures r.clicks <= MaxClicks && r.failures <= MaxFailures
    ensures r.clicks == Count(Counted, visits, 0, r.visited)
    ensures r.failures == Count(VisitFails, visits, 0, r.visited)
    ensures r.visited < |visits| ==>
      r.clicks == MaxClicks || r.failures == MaxFailures || (0 < r.visited && visits[r.visited - 1] == TabThrew)
    ensures !r.closed <==> 0 < r.visited && visits[r.visited - 1] == TabThrew
  {
    LinkWalk(visits);
    var w := Walk(Steps(visits), Caps, false);
    Run(w.count, w.failures, w.visited, !w.stop.Halted?)
  }

  /** Every link visited was entered with fewer than thirteen clicks and fewer than two failures behind it. */
  lemma EntersUnderLimits(visits: seq<Visit>)
    ensures var r := FollowLinks(visits);
      forall k :: 0 <= k < r.visited ==>
        Count(Counted, visits, 0, k) < MaxClicks && Count(VisitFails, visits, 0, k) < MaxFailures
  {
    var steps := Steps(visits);
    var w := Walk(steps, Caps, false);
    WalkEntersUnderCap(steps, Caps, 0, 0, 0, false);
    WalkEntersUnderBudget(steps, Caps, 0, 0, 0, false);
    forall k | 0 <= k < w.visited
      ensures Count(Counted, visits, 0, k) < MaxClicks && Count(VisitFails, visits, 0, k) < MaxFailures
    {
      GainedCounts(steps, Counted, visits, 0, k);
      FailedCounts(steps, VisitFails, visits, 0, k);
    }
  }

  /** Every visited link closes its tab exactly once, except a last one whose tab never opened. */
  lemma TabsClosedOnce(visits: seq<Visit>)
    ensures var r := FollowLinks(visits);
      forall k :: 0 <= k < r.visited ==> TabCloses(visits[k]) == (if k == r.visited - 1 && !r.closed then 0 else 1)
  {
    WalkHaltsLast(Steps(visits), Caps, 0, 0, 0, false);
  }

  /** Pages whose button was already gone are passed over: with only those, nothing is counted and every link is visited. */
  lemma AlreadyFollowedPassedOver(visits: seq<Visit>)
    requires forall k :: 0 <= k < |visits| ==> visits[k] == NoButton
    ensures FollowLinks(visits) == Run(0, 0, |visits|, true)
  {
    WalkIdleVisitsAll(Steps(visits), Caps, 0, 0, 0, false);
    LinkWalk(visits);
    CountNone(Counted, visits, 0, |visits|);
    CountNone(VisitFails, visits, 0, |visits|);
  }

  /** How the script ended. */
  datatype Ending = LoginFailed(login: DraftSteps.LoginEnd) | SearchThrew(error: string) | Walked(run: Run)

  /**
   * The whole script from the login on: a login that ends the process, or a
   * search page whose navigation, scrolling or link collection throws, never
   * reaches the walk.
   */
  function Script(login: DraftSteps.LoginEnd, links: Result<seq<Visit>>): (e: Ending)
    ensures e.Walked? <==> login == DraftSteps.LoggedIn && links.Ok?
    ensures e.Walked? ==> e.run.visited <= |links.value| && e.run.clicks <= MaxClicks
  {
    if login != DraftSteps.LoggedIn then LoginFailed(login)
    else match links
      case Err(m) => SearchThrew(m)
      case Ok(visits) => Walked(FollowLinks(visits))
  }
}
