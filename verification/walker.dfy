/**
 * The loop shared by the publish, like, follow and comment scripts: visit
 * candidates in order and, before each one, stop when the success count has
 * reached its cap, the failure count its budget, or (for the follow scripts)
 * once a quota dialog has set `isLimit`. Each script reduces a visit to a
 * `Step`: how much it added to the count, whether it counted as a failure,
 * whether it raised the quota flag, or that it ended the walk (a `break`, or
 * an exception nothing catches).
 */
module Walker {
  import opened Outcomes
  import opened JsText

  /** The message of the dialog note.com shows when an account has used up its quota. */
  const QuotaPhrase: string := "上限に達したためご利用できません"

  /** A dialog that sets `isLimit`: its message contains the quota phrase. */
  predicate QuotaDialog(message: string) {
    Contains(message, QuotaPhrase)
  }

  /** Some dialog of the list sets `isLimit`. */
  predicate AnyQuota(dialogs: seq<string>) {
    exists k :: 0 <= k < |dialogs| && QuotaDialog(dialogs[k])
  }

  datatype Step = Advance(gain: nat, failed: bool, limits: bool) | Halt(crash: bool)

  function Gain(s: Step): nat {
    if s.Advance? then s.gain else 0
  }

  predicate Fails(s: Step) {
    s.Advance? && s.failed
  }

  predicate Limits(s: Step) {
    s.Advance? && s.limits
  }

  /** The checks at the head of each iteration: the success cap, the failure budget, and whether `isLimit` ends the walk. */
  datatype Bounds = Bounds(cap: Option<nat>, budget: Option<nat>, watchLimit: bool)

  datatype Stop = Exhausted | Capped | OutOfBudget | LimitHit | Halted(crash: bool)

  /** The counters when the walk ends, how many candidates it visited, and why it ended. */
  datatype Tally = Tally(count: nat, failures: nat, limited: bool, visited: nat, stop: Stop)

  /** The walk from candidate `i` with the counters so far. */
  function WalkFrom(steps: seq<Step>, b: Bounds, i: nat, count: nat, failures: nat, limited: bool): (r: Tally)
    requires i <= |steps|
    ensures i <= r.visited <= |steps|
    ensures count <= r.count && failures <= r.failures && (limited ==> r.limited)
    ensures r.stop == Exhausted ==> r.visited == |steps|
    ensures r.stop == Capped ==> b.cap.Some? && r.count >= b.cap.value
    ensures r.stop == OutOfBudget ==> b.budget.Some? && r.failures >= b.budget.value
    ensures r.stop == LimitHit ==> b.watchLimit && r.limited
    ensures r.stop.Halted? ==> i < r.visited && steps[r.visited - 1] == Halt(r.stop.crash)
    decreases |steps| - i
  {
    if i == |steps| then Tally(count, failures, limited, i, Exhausted)
    else if b.cap.Some? && count >= b.cap.value then Tally(count, failures, limited, i, Capped)
    else if b.budget.Some? && failures >= b.budget.value then Tally(count, failures, limited, i, OutOfBudget)
    else if b.watchLimit && limited then Tally(count, failures, limited, i, LimitHit)
    else match steps[i]
      case Halt(c) => Tally(count, failures, limited, i + 1, Halted(c))
      case Advance(g, f, l) => WalkFrom(steps, b, i + 1, count + g, if f then failures + 1 else failures, limited || l)
  }

  /** None of the checks at the head of an iteration ends the walk. */
  predicate Open(b: Bounds, count: nat, failures: nat, limited: bool) {
    !(b.cap.Some? && count >= b.cap.value) && !(b.budget.Some? && failures >= b.budget.value) && !(b.watchLimit && limited)
  }

  /** The whole walk, from counters at zero and the quota flag as the walk finds it. */
  function Walk(steps: seq<Step>, b: Bounds, limited: bool): (r: Tally)
    ensures r.visited <= |steps|
    ensures limited ==> r.limited
  {
    WalkFrom(steps, b, 0, 0, 0, limited)
  }

  // ---------------------------------------------------------------------------
  // Sums over visited candidates

  /** The count the steps `i..j` add. */
  function Gained(steps: seq<Step>, i: nat, j: nat): nat
    requires i <= j <= |steps|
    decreases j - i
  {
    if i == j then 0 else Gain(steps[i]) + Gained(steps, i + 1, j)
  }

  /** How many of the steps `i..j` are failures. */
  function Failed(steps: seq<Step>, i: nat, j: nat): nat
    requires i <= j <= |steps|
    decreases j - i
  {
    if i == j then 0 else (if Fails(steps[i]) then 1 else 0) + Failed(steps, i + 1, j)
  }

  /** The counters at the end are the ones at the start plus what the visited steps added. */
  lemma {:induction false} WalkTallies(steps: seq<Step>, b: Bounds, i: nat, count: nat, failures: nat, limited: bool)
    requires i <= |steps|
    ensures var r := WalkFrom(steps, b, i, count, failures, limited);
      r.count == count + Gained(steps, i, r.visited) && r.failures == failures + Failed(steps, i, r.visited)
    decreases |steps| - i
  {
    if i < |steps| && Open(b, count, failures, limited) && steps[i].Advance? {
      var s := steps[i];
      WalkTallies(steps, b, i + 1, count + s.gain, if s.failed then failures + 1 else failures, limited || s.limits);
    }
  }

  /** The quota flag is raised at the end exactly when it was raised before the walk or by a visited step. */
  lemma {:induction false} WalkRaises(steps: seq<Step>, b: Bounds, i: nat, count: nat, failures: nat, limited: bool)
    requires i <= |steps|
    ensures var r := WalkFrom(steps, b, i, count, failures, limited);
      r.limited <==> limited || exists k :: i <= k < r.visited && Limits(steps[k])
    decreases |steps| - i
  {
    if i < |steps| && Open(b, count, failures, limited) && steps[i].Advance? {
      var s := steps[i];
      WalkRaises(steps, b, i + 1, count + s.gain, if s.failed then failures + 1 else failures, limited || s.limits);
      if s.limits {
        assert Limits(steps[i]);
      }
    }
  }

  /** Only the last visited step can halt the walk, and it halts it exactly when it is a `Halt`. */
  lemma {:induction false} WalkHaltsLast(steps: seq<Step>, b: Bounds, i: nat, count: nat, failures: nat, limited: bool)
    requires i <= |steps|
    ensures var r := WalkFrom(steps, b, i, count, failures, limited);
      (r.stop.Halted? <==> i < r.visited && steps[r.visited - 1].Halt?)
      && forall k :: i <= k < r.visited - 1 ==> steps[k].Advance?
    decreases |steps| - i
  {
    if i < |steps| && Open(b, count, failures, limited) && steps[i].Advance? {
      var s := steps[i];
      WalkHaltsLast(steps, b, i + 1, count + s.gain, if s.failed then failures + 1 else failures, limited || s.limits);
    }
  }

  /** Every visited candidate was entered with the count below its cap. */
  lemma {:induction false} WalkEntersUnderCap(steps: seq<Step>, b: Bounds, i: nat, count: nat, failures: nat, limited: bool)
    requires i <= |steps| && b.cap.Some?
    ensures var r := WalkFrom(steps, b, i, count, failures, limited);
      forall k :: i <= k < r.visited ==> count + Gained(steps, i, k) < b.cap.value
    decreases |steps| - i
  {
    if i < |steps| && Open(b, count, failures, limited) && steps[i].Advance? {
      var s := steps[i];
      WalkEntersUnderCap(steps, b, i + 1, count + s.gain, if s.failed then failures + 1 else failures, limited || s.limits);
      var r := WalkFrom(steps, b, i, count, failures, limited);
      forall k | i + 1 <= k < r.visited
        ensures count + Gained(steps, i, k) < b.cap.value
      {
        assert Gained(steps, i, k) == s.gain + Gained(steps, i + 1, k);
      }
    }
  }

  /** Every visited candidate was entered with the failures below their budget. */
  lemma {:induction false} WalkEntersUnderBudget(steps: seq<Step>, b: Bounds, i: nat, count: nat, failures: nat, limited: bool)
    requires i <= |steps| && b.budget.Some?
    ensures var r := WalkFrom(steps, b, i, count, failures, limited);
      forall k :: i <= k < r.visited ==> failures + Failed(steps, i, k) < b.budget.value
    decreases |steps| - i
  {
    if i < |steps| && Open(b, count, failures, limited) && steps[i].Advance? {
      var s := steps[i];
      WalkEntersUnderBudget(steps, b, i + 1, count + s.gain, if s.failed then failures + 1 else failures, limited || s.limits);
      var r := WalkFrom(steps, b, i, count, failures, limited);
      forall k | i + 1 <= k < r.visited
        ensures failures + Failed(steps, i, k) < b.budget.value
      {
        assert Failed(steps, i, k) == (if s.failed then 1 else 0) + Failed(steps, i + 1, k);
      }
    }
  }

  /** A walk that watches the quota flag visits nothing once it is raised: only its last visited step can have raised it. */
  lemma {:induction false} WalkEntersUnlimited(steps: seq<Step>, b: Bounds, i: nat, count: nat, failures: nat, limited: bool)
    requires i <= |steps| && b.watchLimit
    ensures var r := WalkFrom(steps, b, i, count, failures, limited);
      (limited ==> r.visited == i) && forall k :: i <= k < r.visited - 1 ==> !Limits(steps[k])
    decreases |steps| - i
  {
    if i < |steps| && Open(b, count, failures, limited) && steps[i].Advance? {
      var s := steps[i];
      WalkEntersUnlimited(steps, b, i + 1, count + s.gain, if s.failed then failures + 1 else failures, limited || s.limits);
    }
  }

  /** With steps that add at most one each, the count never passes its cap. */
  lemma {:induction false} WalkCapHolds(steps: seq<Step>, b: Bounds, i: nat, count: nat, failures: nat, limited: bool)
    requires i <= |steps| && b.cap.Some? && count <= b.cap.value
    requires forall k :: i <= k < |steps| ==> Gain(steps[k]) <= 1
    ensures WalkFrom(steps, b, i, count, failures, limited).count <= b.cap.value
    decreases |steps| - i
  {
    if i < |steps| && count < b.cap.value && steps[i].Advance? {
      var s := steps[i];
      WalkCapHolds(steps, b, i + 1, count + s.gain, if s.failed then failures + 1 else failures, limited || s.limits);
    }
  }

  /** The failures never pass their budget. */
  lemma {:induction false} WalkBudgetHolds(steps: seq<Step>, b: Bounds, i: nat, count: nat, failures: nat, limited: bool)
    requires i <= |steps| && b.budget.Some? && failures <= b.budget.value
    ensures WalkFrom(steps, b, i, count, failures, limited).failures <= b.budget.value
    decreases |steps| - i
  {
    if i < |steps| && failures < b.budget.value && steps[i].Advance? {
      var s := steps[i];
      WalkBudgetHolds(steps, b, i + 1, count + s.gain, if s.failed then failures + 1 else failures, limited || s.limits);
    }
  }

  /** A walk with no cap, budget or quota check and no halting step visits everything. */
  lemma {:induction false} WalkVisitsAll(steps: seq<Step>, i: nat, count: nat, failures: nat, limited: bool)
    requires i <= |steps|
    requires forall k :: i <= k < |steps| ==> steps[k].Advance?
    ensures WalkFrom(steps, Bounds(None, None, false), i, count, failures, limited).visited == |steps|
    decreases |steps| - i
  {
    if i < |steps| {
      var s := steps[i];
      WalkVisitsAll(steps, i + 1, count + s.gain, if s.failed then failures + 1 else failures, limited || s.limits);
    }
  }

  /** With no cap or budget, no halting step and the quota flag never raised, the walk visits everything. */
  lemma {:induction false} WalkQuietVisitsAll(steps: seq<Step>, watch: bool, i: nat, count: nat, failures: nat)
    requires i <= |steps|
    requires forall k :: i <= k < |steps| ==> steps[k].Advance? && !steps[k].limits
    ensures WalkFrom(steps, Bounds(None, None, watch), i, count, failures, false).visited == |steps|
    decreases |steps| - i
  {
    if i < |steps| {
      var s := steps[i];
      WalkQuietVisitsAll(steps, watch, i + 1, count + s.gain, if s.failed then failures + 1 else failures);
    }
  }

  /** Steps that neither add, fail nor raise the flag leave an open walk open: it visits them all and changes nothing. */
  lemma {:induction false} WalkIdleVisitsAll(steps: seq<Step>, b: Bounds, i: nat, count: nat, failures: nat, limited: bool)
    requires i <= |steps| && Open(b, count, failures, limited)
    requires forall k :: i <= k < |steps| ==> steps[k] == Advance(0, false, false)
    ensures WalkFrom(steps, b, i, count, failures, limited) == Tally(count, failures, limited, |steps|, Exhausted)
    decreases |steps| - i
  {
    if i < |steps| {
      WalkIdleVisitsAll(steps, b, i + 1, count, failures, limited);
    }
  }

  /** A step that ends a walk capped at one: it halts it or adds to the count. */
  predicate Decisive(s: Step) {
    s.Halt? || s.gain > 0
  }

  /** The first decisive step from `i`, or `|steps|` when there is none. */
  function NextDecisive(steps: seq<Step>, i: nat): (k: nat)
    requires i <= |steps|
    ensures i <= k <= |steps|
    ensures k < |steps| ==> Decisive(steps[k])
    ensures forall j :: i <= j < k ==> !Decisive(steps[j])
    decreases |steps| - i
  {
    if i == |steps| || Decisive(steps[i]) then i else NextDecisive(steps, i + 1)
  }

  /**
   * A walk capped at one, with no budget or quota check and steps that add
   * at most one, ends at the first decisive step: it counts one exactly when
   * that step advances, and visits everything when there is none.
   */
  lemma {:induction false} WalkCapOne(steps: seq<Step>, i: nat, failures: nat, limited: bool)
    requires i <= |steps|
    requires forall k :: i <= k < |steps| ==> Gain(steps[k]) <= 1
    ensures var r := WalkFrom(steps, Bounds(Some(1), None, false), i, 0, failures, limited);
      var k := NextDecisive(steps, i);
      r.visited == (if k < |steps| then k + 1 else |steps|)
      && (r.count == 1 <==> k < |steps| && steps[k].Advance?)
      && r.count <= 1
    decreases |steps| - i
  {
    if i < |steps| && !Decisive(steps[i]) {
      var s := steps[i];
      WalkCapOne(steps, i + 1, if s.failed then failures + 1 else failures, limited || s.limits);
    }
  }

  // ---------------------------------------------------------------------------
  // Counting candidates

  /** How many of `xs[i..j]` pass `p`. */
  function Count<T>(p: T -> bool, xs: seq<T>, i: nat, j: nat): nat
    requires i <= j <= |xs|
    decreases j - i
  {
    if i == j then 0 else (if p(xs[i]) then 1 else 0) + Count(p, xs, i + 1, j)
  }

  /** When each step adds one exactly for the candidates that pass `p`, the count gained is the number of those candidates. */
  lemma {:induction false} GainedCounts<T>(steps: seq<Step>, p: T -> bool, xs: seq<T>, i: nat, j: nat)
    requires |steps| == |xs| && i <= j <= |xs|
    requires forall k :: i <= k < j ==> Gain(steps[k]) == if p(xs[k]) then 1 else 0
    ensures Gained(steps, i, j) == Count(p, xs, i, j)
    decreases j - i
  {
    if i < j {
      GainedCounts(steps, p, xs, i + 1, j);
    }
  }

  /** When each step fails exactly for the candidates that pass `p`, the failures are the number of those candidates. */
  lemma {:induction false} FailedCounts<T>(steps: seq<Step>, p: T -> bool, xs: seq<T>, i: nat, j: nat)
    requires |steps| == |xs| && i <= j <= |xs|
    requires forall k :: i <= k < j ==> (Fails(steps[k]) <==> p(xs[k]))
    ensures Failed(steps, i, j) == Count(p, xs, i, j)
    decreases j - i
  {
    if i < j {
      FailedCounts(steps, p, xs, i + 1, j);
    }
  }

  /** Candidates that never pass `p` are never counted. */
  lemma {:induction false} CountNone<T>(p: T -> bool, xs: seq<T>, i: nat, j: nat)
    requires i <= j <= |xs|
    requires forall k :: i <= k < j ==> !p(xs[k])
    ensures Count(p, xs, i, j) == 0
    decreases j - i
  {
    if i < j {
      CountNone(p, xs, i + 1, j);
    }
  }

  /** No more candidates pass than were looked at. */
  lemma {:induction false} CountAtMost<T>(p: T -> bool, xs: seq<T>, i: nat, j: nat)
    requires i <= j <= |xs|
    ensures Count(p, xs, i, j) <= j - i
    decreases j - i
  {
    if i < j {
      CountAtMost(p, xs, i + 1, j);
    }
  }

  /** Summing one step more at the end of the range. */
  lemma {:induction false} GainedSnoc(steps: seq<Step>, j: nat)
    requires j < |steps|
    ensures Gained(steps, 0, j + 1) == Gained(steps, 0, j) + Gain(steps[j])
  {
    GainedSnocFrom(steps, 0, j);
  }

  lemma {:induction false} GainedSnocFrom(steps: seq<Step>, i: nat, j: nat)
    requires i <= j < |steps|
    ensures Gained(steps, i, j + 1) == Gained(steps, i, j) + Gain(steps[j])
    decreases j - i
  {
    if i < j {
      GainedSnocFrom(steps, i + 1, j);
    }
  }
}
