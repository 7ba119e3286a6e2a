/**
 * The search-page liker (likeUnlikedNotes.js): pick this run's search word
 * from a list of 118 by the three-hourly rotation, open the search results,
 * and press the first `min(24, buttons found)` `スキ` buttons in page order.
 * Nothing inside the loop is caught, so the first press that throws or whose
 * `aria-pressed` never turns `true` ends the script.
 */
module LikeUnliked {
  import opened Outcomes
  import opened JsText
  import opened Walker
  import Rotation
  import DraftSteps

  /** The base, work-trouble and money-trouble word lists together. */
  const SearchWordCount: nat := 118

  /** At most this many buttons are pressed. */
  const MaxLikes: nat := 24

  /** How pressing one `スキ` button went: it was confirmed pressed, or a step of it threw. */
  datatype Press = Pressed | PressThrew

  predicate Threw(p: Press) {
    p == PressThrew
  }

  /** How many buttons the loop is given: `Math.min(maxLikes, likeButtons.length)`. */
  function LikeCount(found: nat): (n: nat)
    ensures n <= MaxLikes && n <= found
    ensures n == MaxLikes || n == found
  {
    if found < MaxLikes then found else MaxLikes
  }

  function StepOf(p: Press): Step {
    if p == Pressed then Advance(1, false, false) else Halt(true)
  }

  /** The buttons the loop is given, as steps of a walk with no cap, budget or quota check. */
  function Steps(buttons: seq<Press>): (steps: seq<Step>)
    ensures |steps| == LikeCount(|buttons|)
    ensures forall i :: 0 <= i < |steps| ==> steps[i] == StepOf(buttons[i])
  {
    seq(LikeCount(|buttons|), i requires 0 <= i < LikeCount(|buttons|) => StepOf(buttons[i]))
  }

  const Unbounded: Bounds := Bounds(None, None, false)

  /** How many buttons were confirmed pressed, how many the loop reached, and whether `browser.close()` ran. */
  datatype Run = Run(liked: nat, reached: nat, closed: bool)

  /**
   * The loop over the buttons: it presses them in page order from the first,
   * reaches all `min(24, found)` of them when none throws, and otherwise
   * stops at the first that throws, leaving the browser open.
   */
  function LikeButtons(buttons: seq<Press>): (r: Run)
    ensures r.reached <= LikeCount(|buttons|)
    ensures r.closed <==> FirstWhere(Threw, buttons[..LikeCount(|buttons|)]).None?
    ensures r.closed ==> r.reached == LikeCount(|buttons|) && r.liked == r.reached
    ensures !r.closed ==> FirstWhere(Threw, buttons[..LikeCount(|buttons|)]) == Some(r.reached - 1) && r.liked == r.reached - 1
  {
    var steps := Steps(buttons);
    var w := Walk(steps, Unbounded, false);
    PressWalk(buttons);
    Run(w.count, w.visited, !w.stop.Halted?)
  }

  /** The walk's facts in terms of the buttons. */
  lemma PressWalk(buttons: seq<Press>)
    ensures var w := Walk(Steps(buttons), Unbounded, false);
      var first := FirstWhere(Threw, buttons[..LikeCount(|buttons|)]);
      (first.None? ==> w.visited == LikeCount(|buttons|) && !w.stop.Halted? && w.count == w.visited)
      && (first.Some? ==> w.visited == first.value + 1 && w.stop.Halted? && w.count == first.value)
  {
    var first := FirstWhere(Threw, buttons[..LikeCount(|buttons|)]);
    if first.None? {
      PressWalkAll(buttons);
    } else {
      PressWalkStops(buttons, first.value);
    }
  }

  /** The count gained over the first `j` steps is `j` when none of those buttons threw. */
  lemma PressedGained(buttons: seq<Press>, j: nat)
    requires j <= LikeCount(|buttons|)
    requires forall k :: 0 <= k < j ==> buttons[k] == Pressed
    ensures Gained(Steps(buttons), 0, j) == j
  {
    var steps := Steps(buttons);
    var shown := buttons[..LikeCount(|buttons|)];
    var pressed := (p: Press) => p == Pressed;
    GainedCounts(steps, pressed, shown, 0, j);
    AllCount(pressed, shown, 0, j);
  }

  /** Without a throwing button the walk reaches every button it is given and likes each. */
  lemma PressWalkAll(buttons: seq<Press>)
    requires FirstWhere(Threw, buttons[..LikeCount(|buttons|)]).None?
    ensures var w := Walk(Steps(buttons), Unbounded, false);
      w.visited == LikeCount(|buttons|) && !w.stop.Halted? && w.count == w.visited
  {
    var n := LikeCount(|buttons|);
    var steps := Steps(buttons);
    forall k | 0 <= k < n
      ensures buttons[k] == Pressed && steps[k].Advance?
    {
      assert !Threw(buttons[..n][k]);
    }
    WalkVisitsAll(steps, 0, 0, 0, false);
    WalkTallies(steps, Unbounded, 0, 0, 0, false);
    PressedGained(buttons, n);
  }

  /** The walk halts at the first button that throws. */
  lemma PressWalkHalts(buttons: seq<Press>, t: nat)
    requires FirstWhere(Threw, buttons[..LikeCount(|buttons|)]) == Some(t)
    ensures var w := Walk(Steps(buttons), Unbounded, false);
      w.visited == t + 1 && w.stop.Halted?
  {
    var steps := Steps(buttons);
    var w := Walk(steps, Unbounded, false);
    WalkHaltsLast(steps, Unbounded, 0, 0, 0, false);
    assert steps[t].Halt?;
    if w.visited <= t {
      assert false;
    }
    if w.visited > t + 1 {
      assert false;
    }
  }

  /** Halting at the first button that throws, the walk has liked every button before it. */
  lemma PressWalkStops(buttons: seq<Press>, t: nat)
    requires FirstWhere(Threw, buttons[..LikeCount(|buttons|)]) == Some(t)
    ensures var w := Walk(Steps(buttons), Unbounded, false);
      w.visited == t + 1 && w.stop.Halted? && w.count == t
  {
    var n := LikeCount(|buttons|);
    var steps := Steps(buttons);
    PressWalkHalts(buttons, t);
    WalkTallies(steps, Unbounded, 0, 0, 0, false);
    forall k | 0 <= k < t
      ensures buttons[k] == Pressed
    {
      assert !Threw(buttons[..n][k]);
    }
    PressedGained(buttons, t);
    GainedSnoc(steps, t);
  }

  /** When every candidate passes, the count is the number of candidates. */
  lemma {:induction false} AllCount<T>(p: T -> bool, xs: seq<T>, i: nat, j: nat)
    requires i <= j <= |xs|
    requires forall k :: i <= k < j ==> p(xs[k])
    ensures Count(p, xs, i, j) == j - i
    decreases j - i
  {
    if i < j {
      AllCount(p, xs, i + 1, j);
    }
  }

  /** With every press confirmed, exactly `min(24, found)` buttons are liked. */
  lemma LikesMinOfFound(buttons: seq<Press>)
    requires forall k :: 0 <= k < |buttons| ==> buttons[k] == Pressed
    ensures LikeButtons(buttons) == Run(LikeCount(|buttons|), LikeCount(|buttons|), true)
  {
  }

  /** Buttons after the first twenty-four never change the run. */
  lemma LaterButtonsIgnored(buttons: seq<Press>, more: seq<Press>)
    requires |buttons| >= MaxLikes
    ensures LikeButtons(buttons + more) == LikeButtons(buttons)
  {
    assert (buttons + more)[..MaxLikes] == buttons[..MaxLikes];
    assert Steps(buttons + more) == Steps(buttons);
  }

  /** How the script ended. */
  datatype Ending = LoginFailed(login: DraftSteps.LoginEnd) | SearchThrew(error: string) | Liked(word: nat, run: Run)

  /**
   * The whole script from the login on, for a run at `hour` on day
   * `dayOfYear` (1 for January 1st): the rotation picks the word, and a
   * search page whose navigation, scrolling or button query throws never
   * reaches the loop.
   */
  function Script(login: DraftSteps.LoginEnd, dayOfYear: nat, hour: nat, search: Result<seq<Press>>): (e: Ending)
    requires hour < 24
    ensures e.Liked? <==> login == DraftSteps.LoggedIn && search.Ok?
    ensures e.Liked? ==> e.word < SearchWordCount && e.word == Rotation.WordIndex(dayOfYear, hour, SearchWordCount)
    ensures e.Liked? ==> e.run.liked <= MaxLikes
  {
    if login != DraftSteps.LoggedIn then LoginFailed(login)
    else match search
      case Err(m) => SearchThrew(m)
      case Ok(buttons) => Liked(Rotation.WordIndex(dayOfYear, hour, SearchWordCount), LikeButtons(buttons))
  }

  /** The run three hours later on the same day searches for the next word of the list, wrapping after the last. */
  lemma NextRunNextWord(dayOfYear: nat, hour: nat, first: seq<Press>, second: seq<Press>)
    requires hour + 3 < 24
    ensures Script(DraftSteps.LoggedIn, dayOfYear, hour + 3, Ok(second)).word
      == (Script(DraftSteps.LoggedIn, dayOfYear, hour, Ok(first)).word + 1) % SearchWordCount
  {
    Rotation.NextRunSameDay(dayOfYear, hour, SearchWordCount);
  }
}
