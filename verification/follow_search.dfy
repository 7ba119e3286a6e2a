/**
 * The creator-search follower (follow/followFromSearch.js): up to thirteen
 * times, reload the search page, look for the first `フォロー` button within
 * twenty scrolls and click it, retrying a failed click once. Two failures
 * end the walk; a page with no button left ends it too.
 *
 * The script counts a click twice when the first click went through but the
 * creator-name lookup after it threw, because the retry clicks the same
 * button again (see `DoubleCountedClick`). `Follow` is the corrected walk,
 * which takes a click that went through as done; `FollowAsWritten` is the
 * walk as it stands, and `Script` runs it.
 */
module FollowSearch {
  import opened Outcomes
  import opened Walker
  import DraftSteps

  /** The iterations of the walk, one button each. */
  const MaxClicks: nat := 13

  /** The walk stops at the start of an iteration once this many clicks have failed. */
  const MaxFailures: nat := 2

  /** How one click attempt ended: it threw before the click was dispatched, after it (in the name lookup), or not at all. */
  datatype Attempt = ThrewBeforeClick | ThrewAfterClick | Completed

  predicate Dispatched(a: Attempt) {
    a != ThrewBeforeClick
  }

  /**
   * One iteration: reloading the search page threw, no `フォロー` button
   * turned up within twenty scrolls, or one did, with whether it was visible
   * in time (waited for only in CI), the first attempt, and the retry that
   * runs when the first attempt threw.
   */
  datatype Round = NavThrew | NoButton | Found(visible: bool, primary: Attempt, retry: Attempt)

  /** In CI a button that does not become visible is a failure and is not clicked. */
  predicate Blocked(ci: bool, r: Round) {
    r.Found? && ci && !r.visible
  }

  /** The iteration fails: the visibility wait timed out, or both attempts threw. */
  predicate RoundFails(ci: bool, r: Round) {
    r.Found? && (Blocked(ci, r) || (r.primary != Completed && r.retry != Completed))
  }

  /** The iteration follows its creator: a click was dispatched by one of the attempts that ran. */
  predicate Follows(ci: bool, r: Round) {
    r.Found? && !Blocked(ci, r) && (Dispatched(r.primary) || Dispatched(r.retry))
  }

  /** Under the correction the retry runs only when the first click was never dispatched. */
  predicate RoundFailsCorrected(ci: bool, r: Round) {
    r.Found? && (Blocked(ci, r) || (r.primary == ThrewBeforeClick && r.retry != Completed))
  }

  /** The iterations the loop can run, in order. */
  function Schedule(rounds: nat -> Round): (xs: seq<Round>)
    ensures |xs| == MaxClicks
    ensures forall i :: 0 <= i < MaxClicks ==> xs[i] == rounds(i)
  {
    seq(MaxClicks, i requires 0 <= i < MaxClicks => rounds(i))
  }

  /** How many of the first `k` iterations followed a creator. */
  function FollowsBefore(ci: bool, rounds: nat -> Round, k: nat): nat
    requires k <= MaxClicks
  {
    Count((x: Round) => Follows(ci, x), Schedule(rounds), 0, k)
  }

  /** How many of the first `k` iterations failed under the correction. */
  function FailuresBefore(ci: bool, rounds: nat -> Round, k: nat): nat
    requires k <= MaxClicks
  {
    Count((x: Round) => RoundFailsCorrected(ci, x), Schedule(rounds), 0, k)
  }

  /** What `clickCount` gains in one iteration as the script is written: each dispatched click of an attempt that ran. */
  function ClicksAsWritten(ci: bool, r: Round): (n: nat)
    ensures n <= 2
    ensures n == 0 <==> !Follows(ci, r)
    ensures n == 2 <==> Follows(ci, r) && r.primary == ThrewAfterClick && Dispatched(r.retry)
  {
    if !r.Found? || Blocked(ci, r) then 0
    else (if Dispatched(r.primary) then 1 else 0) + (if r.primary != Completed && Dispatched(r.retry) then 1 else 0)
  }

  /** One iteration as a step of the script's walk; a navigation that throws is uncaught. */
  function StepAsWritten(ci: bool, r: Round): (s: Step)
    ensures s.Halt? <==> !r.Found?
    ensures s.Halt? ==> (s.crash <==> r == NavThrew)
    ensures Fails(s) <==> RoundFails(ci, r)
    ensures Gain(s) == ClicksAsWritten(ci, r)
  {
    match r
    case NavThrew => Halt(true)
    case NoButton => Halt(false)
    case Found(_, _, _) => Advance(ClicksAsWritten(ci, r), RoundFails(ci, r), false)
  }

  /** One iteration as a step of the corrected walk. */
  function StepCorrected(ci: bool, r: Round): (s: Step)
    ensures s.Halt? <==> !r.Found?
    ensures s.Halt? ==> (s.crash <==> r == NavThrew)
    ensures Fails(s) <==> RoundFailsCorrected(ci, r)
    ensures Gain(s) == if Follows(ci, r) then 1 else 0
  {
    match r
    case NavThrew => Halt(true)
    case NoButton => Halt(false)
    case Found(_, _, _) => Advance(if Follows(ci, r) then 1 else 0, RoundFailsCorrected(ci, r), false)
  }

  function StepsAsWritten(ci: bool, rounds: nat -> Round): (steps: seq<Step>)
    ensures |steps| == MaxClicks
    ensures forall i :: 0 <= i < MaxClicks ==> steps[i] == StepAsWritten(ci, rounds(i))
  {
    seq(MaxClicks, i requires 0 <= i < MaxClicks => StepAsWritten(ci, rounds(i)))
  }

  function StepsCorrected(ci: bool, rounds: nat -> Round): (steps: seq<Step>)
    ensures |steps| == MaxClicks
    ensures forall i :: 0 <= i < MaxClicks ==> steps[i] == StepCorrected(ci, rounds(i))
  {
    seq(MaxClicks, i requires 0 <= i < MaxClicks => StepCorrected(ci, rounds(i)))
  }

  /** Only the failure budget is checked at the head of an iteration; the iteration count bounds the rest. */
  const Budget: Bounds := Bounds(None, Some(MaxFailures), false)

  /** The counters when the walk ends, the iterations begun, and whether `browser.close()` was reached. */
  datatype Run = Run(clicks: nat, failures: nat, iterations: nat, closed: bool)

  function RunOf(w: Tally): Run {
    Run(w.count, w.failures, w.visited, w.stop != Halted(true))
  }

  /** The walk as the script is written. */
  function FollowAsWritten(ci: bool, rounds: nat -> Round): (r: Run)
    ensures r.iterations <= MaxClicks && r.failures <= MaxFailures
    ensures r.failures == Count((x: Round) => RoundFails(ci, x), Schedule(rounds), 0, r.iterations)
    ensures r.clicks <= 2 * r.iterations
  {
    var steps := StepsAsWritten(ci, rounds);
    var w := Walk(steps, Budget, false);
    WalkBudgetHolds(steps, Budget, 0, 0, 0, false);
    WalkTallies(steps, Budget, 0, 0, 0, false);
    FailedCounts(steps, (x: Round) => RoundFails(ci, x), Schedule(rounds), 0, w.visited);
    GainedAtMostTwo(steps, 0, w.visited);
    RunOf(w)
  }

  /** Steps that add at most two each add at most twice their number. */
  lemma {:induction false} GainedAtMostTwo(steps: seq<Step>, i: nat, j: nat)
    requires i <= j <= |steps|
    requires forall k :: i <= k < j ==> Gain(steps[k]) <= 2
    ensures Gained(steps, i, j) <= 2 * (j - i)
    decreases j - i
  {
    if i < j {
      GainedAtMostTwo(steps, i + 1, j);
    }
  }

  /**
   * The corrected walk: `clickCount` is the number of iterations that
   * followed a creator, `totalFailures` the number that failed, and the walk
   * ends early only on the failure budget, a page with no button left, or a
   * navigation that throws.
   */
  function Follow(ci: bool, rounds: nat -> Round): (r: Run)
    ensures r.clicks <= r.iterations <= MaxClicks && r.failures <= MaxFailures
    ensures r.clicks == FollowsBefore(ci, rounds, r.iterations)
    ensures r.failures == FailuresBefore(ci, rounds, r.iterations)
    ensures r.iterations < MaxClicks ==>
      r.failures == MaxFailures || (0 < r.iterations && !rounds(r.iterations - 1).Found?)
    ensures !r.closed <==> 0 < r.iterations && rounds(r.iterations - 1) == NavThrew
  {
    CorrectedWalk(ci, rounds);
    RunOf(Walk(StepsCorrected(ci, rounds), Budget, false))
  }

  /** The facts about the corrected walk that `Follow` reports. */
  lemma CorrectedWalk(ci: bool, rounds: nat -> Round)
    ensures var w := Walk(StepsCorrected(ci, rounds), Budget, false);
      w.count <= w.visited && w.failures <= MaxFailures
      && w.count == FollowsBefore(ci, rounds, w.visited)
      && w.failures == FailuresBefore(ci, rounds, w.visited)
      && (w.stop.Halted? <==> 0 < w.visited && !rounds(w.visited - 1).Found?)
  {
    var steps := StepsCorrected(ci, rounds);
    var xs := Schedule(rounds);
    var w := Walk(steps, Budget, false);
    WalkBudgetHolds(steps, Budget, 0, 0, 0, false);
    WalkTallies(steps, Budget, 0, 0, 0, false);
    WalkHaltsLast(steps, Budget, 0, 0, 0, false);
    GainedCounts(steps, (x: Round) => Follows(ci, x), xs, 0, w.visited);
    FailedCounts(steps, (x: Round) => RoundFailsCorrected(ci, x), xs, 0, w.visited);
    CountAtMost((x: Round) => Follows(ci, x), xs, 0, w.visited);
  }

  /** Every iteration the walk begins is begun with fewer than two failures behind it. */
  lemma EntersUnderBudget(ci: bool, rounds: nat -> Round)
    ensures var r := Follow(ci, rounds);
      forall k :: 0 <= k < r.iterations ==> FailuresBefore(ci, rounds, k) < MaxFailures
  {
    var steps := StepsCorrected(ci, rounds);
    var xs := Schedule(rounds);
    var w := Walk(steps, Budget, false);
    WalkEntersUnderBudget(steps, Budget, 0, 0, 0, false);
    forall k | 0 <= k < w.visited
      ensures FailuresBefore(ci, rounds, k) < MaxFailures
    {
      FailedCounts(steps, (x: Round) => RoundFailsCorrected(ci, x), xs, 0, k);
    }
  }

  /** Only the last iteration begun can lack a button: every earlier one found one. */
  lemma ButtonsUntilLast(ci: bool, rounds: nat -> Round)
    ensures var r := Follow(ci, rounds);
      forall k :: 0 <= k < r.iterations - 1 ==> rounds(k).Found?
  {
    WalkHaltsLast(StepsCorrected(ci, rounds), Budget, 0, 0, 0, false);
  }

  /**
   * The correction changes nothing unless a first click went through and the
   * name lookup after it threw: without such an iteration the script and the
   * corrected walk agree.
   */
  lemma AgreesWithoutLateThrow(ci: bool, rounds: nat -> Round)
    requires forall k :: 0 <= k < MaxClicks && rounds(k).Found? ==> rounds(k).primary != ThrewAfterClick
    ensures FollowAsWritten(ci, rounds) == Follow(ci, rounds)
  {
    assert StepsAsWritten(ci, rounds) == StepsCorrected(ci, rounds);
  }

  /** A first click that went through, a name lookup that threw, and a retry that clicked again; then no more buttons. */
  function LateThrowRounds(): nat -> Round {
    (i: nat) => if i == 0 then Found(true, ThrewAfterClick, Completed) else NoButton
  }

  /** The script counts two follows for the one button it found; the corrected walk counts one. */
  lemma DoubleCountedClick(ci: bool)
    ensures Count((x: Round) => x.Found?, Schedule(LateThrowRounds()), 0, FollowAsWritten(ci, LateThrowRounds()).iterations) == 1
    ensures FollowAsWritten(ci, LateThrowRounds()).clicks == 2
    ensures Follow(ci, LateThrowRounds()).clicks == 1
  {
    var rounds := LateThrowRounds();
    var steps := StepsAsWritten(ci, rounds);
    assert steps[0] == Advance(2, false, false);
    assert steps[1] == Halt(false);
    assert StepsCorrected(ci, rounds)[0] == Advance(1, false, false);
    assert StepsCorrected(ci, rounds)[1] == Halt(false);
  }

  /** How the script ended: the login threw or exited, the first visit to the search page threw, or the walk ran. */
  datatype Ending = LoginFailed(login: DraftSteps.LoginEnd) | SearchThrew | Walked(run: Run)

  /**
   * The whole script from the login on, as written: a login that throws or
   * exits, or a first `page.goto` of the search page that throws, never
   * reaches the walk, and the walk is the one that counts a re-clicked
   * button twice.
   */
  function Script(login: DraftSteps.LoginEnd, searchOpens: bool, ci: bool, rounds: nat -> Round): (e: Ending)
    ensures e.Walked? <==> login == DraftSteps.LoggedIn && searchOpens
    ensures e.SearchThrew? <==> login == DraftSteps.LoggedIn && !searchOpens
    ensures e.Walked? ==> e.run.clicks <= 2 * MaxClicks && e.run.failures <= MaxFailures
    ensures e.Walked? ==> e.run.iterations <= MaxClicks
  {
    if login != DraftSteps.LoggedIn then LoginFailed(login)
    else if !searchOpens then SearchThrew
    else Walked(FollowAsWritten(ci, rounds))
  }

  /** The script with the corrected walk: at most one click per creator, so at most thirteen. */
  function ScriptCorrected(login: DraftSteps.LoginEnd, searchOpens: bool, ci: bool, rounds: nat -> Round): (e: Ending)
    ensures e.Walked? <==> login == DraftSteps.LoggedIn && searchOpens
    ensures e.SearchThrew? <==> login == DraftSteps.LoggedIn && !searchOpens
    ensures e.Walked? ==> e.run.clicks <= e.run.iterations <= MaxClicks && e.run.failures <= MaxFailures
  {
    if login != DraftSteps.LoggedIn then LoginFailed(login)
    else if !searchOpens then SearchThrew
    else Walked(Follow(ci, rounds))
  }

  /** The script as written reports two clicks for the one button of `LateThrowRounds`; the corrected script reports one. */
  lemma ScriptDoubleCounts(ci: bool)
    ensures Script(DraftSteps.LoggedIn, true, ci, LateThrowRounds()).run.clicks == 2
    ensures ScriptCorrected(DraftSteps.LoggedIn, true, ci, LateThrowRounds()).run.clicks == 1
  {
    DoubleCountedClick(ci);
  }
}
