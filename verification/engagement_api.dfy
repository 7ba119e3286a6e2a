/**
 * The three serverless engagement handlers (api/like-notes.js,
 * api/publish-notes.js, api/follow-articles.js). Each accepts only GET and
 * POST, needs both note.com credentials, logs in, collects candidate
 * articles, keeps the first few, and visits them in order until its cap is
 * reached. Errors inside one visit are swallowed; any error before the loop
 * becomes a 500 with its message.
 */
module EngagementApi {
  import opened Outcomes
  import opened Walker
  import Rotation

  datatype Method = Get | Post | OtherMethod(name: string)

  const MethodNotAllowed: string := "Method not allowed"
  const MissingCredentials: string := "NOTE_EMAIL or NOTE_PASSWORD is not set"

  /** An environment variable is missing for JavaScript when it is unset or empty. */
  predicate Present(v: Option<string>) {
    v.Some? && v.value != ""
  }

  /** What a completed run reports: the count, its cap, how many candidates were kept, and the rotation index where there is one. */
  datatype Summary = Summary(done: nat, limit: nat, kept: Option<nat>, searchIndex: Option<nat>)

  datatype Body = Failure(error: string) | Completed(summary: Summary)

  datatype Response = Response(status: nat, body: Body)

  // ---------------------------------------------------------------------------
  // The shared walk

  /** `list.slice(0, n)`. */
  function Take<T>(xs: seq<T>, n: nat): (ys: seq<T>)
    ensures |ys| <= n && |ys| <= |xs|
    ensures |ys| == n || |ys| == |xs|
    ensures forall i :: 0 <= i < |ys| ==> ys[i] == xs[i]
  {
    if |xs| <= n then xs else xs[..n]
  }

  /** The candidates as steps: each adds one exactly when it counts, and none ends the walk. */
  function Steps<T>(counts: T -> bool, xs: seq<T>): (steps: seq<Step>)
    ensures |steps| == |xs|
    ensures forall i :: 0 <= i < |xs| ==> steps[i] == Advance(if counts(xs[i]) then 1 else 0, false, false)
  {
    seq(|xs|, i requires 0 <= i < |xs| => Advance(if counts(xs[i]) then 1 else 0, false, false))
  }

  /** How many candidates counted, and how many were visited. */
  datatype Swept = Swept(count: nat, visited: nat)

  /** The facts about a capped walk that `Sweep` reports. */
  lemma SweepWalk<T>(counts: T -> bool, xs: seq<T>, cap: nat)
    ensures var w := Walk(Steps(counts, xs), Bounds(Some(cap), None, false), false);
      w.count <= cap && w.visited <= |xs|
      && w.count == Count(counts, xs, 0, w.visited)
      && (w.visited < |xs| ==> w.count == cap)
  {
    var steps := Steps(counts, xs);
    var b := Bounds(Some(cap), None, false);
    var w := Walk(steps, b, false);
    WalkCapHolds(steps, b, 0, 0, 0, false);
    WalkTallies(steps, b, 0, 0, 0, false);
    WalkHaltsLast(steps, b, 0, 0, 0, false);
    GainedCounts(steps, counts, xs, 0, w.visited);
  }

  /**
   * `for (const x of xs) { if (count >= cap) break; ... }`: the count is the
   * number of visited candidates that counted, never passes the cap, and
   * candidates are left unvisited only once it has been reached.
   */
  function Sweep<T>(counts: T -> bool, xs: seq<T>, cap: nat): (r: Swept)
    ensures r.count <= cap && r.visited <= |xs|
    ensures r.count == Count(counts, xs, 0, r.visited)
    ensures r.visited < |xs| ==> r.count == cap
  {
    SweepWalk(counts, xs, cap);
    var w := Walk(Steps(counts, xs), Bounds(Some(cap), None, false), false);
    Swept(w.count, w.visited)
  }

  /** Every candidate visited was reached with the count below the cap. */
  lemma SweepEntersUnderCap<T>(counts: T -> bool, xs: seq<T>, cap: nat)
    ensures forall k :: 0 <= k < Sweep(counts, xs, cap).visited ==> Count(counts, xs, 0, k) < cap
  {
    var steps := Steps(counts, xs);
    var b := Bounds(Some(cap), None, false);
    WalkEntersUnderCap(steps, b, 0, 0, 0, false);
    forall k | 0 <= k < Sweep(counts, xs, cap).visited
      ensures Count(counts, xs, 0, k) < cap
    {
      GainedCounts(steps, counts, xs, 0, k);
    }
  }

  /** Below the cap, every candidate is visited and the count is the number of those that count. */
  lemma SweepAllUnderCap<T>(counts: T -> bool, xs: seq<T>, cap: nat)
    requires Count(counts, xs, 0, |xs|) < cap
    ensures Sweep(counts, xs, cap) == Swept(Count(counts, xs, 0, |xs|), |xs|)
  {
    var r := Sweep(counts, xs, cap);
    if r.visited < |xs| {
      CountMonotone(counts, xs, r.visited, |xs|);
      assert false;
    }
  }

  /** A longer range counts at least as many. */
  lemma {:induction false} CountMonotone<T>(p: T -> bool, xs: seq<T>, j: nat, k: nat)
    requires j <= k <= |xs|
    ensures Count(p, xs, 0, j) <= Count(p, xs, 0, k)
    decreases k - j
  {
    if j < k {
      CountMonotone(p, xs, j, k - 1);
      CountSnocStep(p, xs, 0, k - 1);
    }
  }

  lemma {:induction false} CountSnocStep<T>(p: T -> bool, xs: seq<T>, i: nat, j: nat)
    requires i <= j < |xs|
    ensures Count(p, xs, i, j) <= Count(p, xs, i, j + 1)
    decreases j - i
  {
    if i < j {
      CountSnocStep(p, xs, i + 1, j);
    }
  }

  /** The checks every handler makes first: the method, then the credentials. */
  function Gate(verb: Method, email: Option<string>, password: Option<string>): (r: Option<Response>)
    ensures r.Some? <==> verb.OtherMethod? || !Present(email) || !Present(password)
    ensures verb.OtherMethod? ==> r == Some(Response(405, Failure(MethodNotAllowed)))
    ensures !verb.OtherMethod? && r.Some? ==> r == Some(Response(500, Failure(MissingCredentials)))
  {
    if verb.OtherMethod? then Some(Response(405, Failure(MethodNotAllowed)))
    else if !Present(email) || !Present(password) then Some(Response(500, Failure(MissingCredentials)))
    else None
  }

  // ---------------------------------------------------------------------------
  // api/like-notes.js

  const LikeWordCount: nat := 28
  const LikeCandidates: nat := 10
  const MaxLikes: nat := 5

  /** One article: its visit threw, it has no like button, it is liked already, or its button was clicked. */
  datatype LikeVisit = LikeThrew | NoLikeButton | AlreadyLiked | LikeClicked

  predicate LikeCounts(v: LikeVisit) {
    v == LikeClicked
  }

  /**
   * The like handler for a request at `hour` on day `dayOfYear`: `setup`
   * holds the articles the search found, or the message of what threw while
   * launching, logging in or searching.
   */
  function LikeNotes(verb: Method, email: Option<string>, password: Option<string>,
                     dayOfYear: nat, hour: nat, setup: Result<seq<LikeVisit>>): (r: Response)
    requires hour < 24
    ensures r.status == 405 <==> verb.OtherMethod?
    ensures r.status == 200 <==> !verb.OtherMethod? && Present(email) && Present(password) && setup.Ok?
    ensures r.status == 200 || r.status == 405 || r.status == 500
    ensures r.status == 200 ==>
      var kept := Take(setup.value, LikeCandidates);
      r.body.Completed? && r.body.summary.done <= MaxLikes
      && r.body.summary.kept == Some(|kept|)
      && r.body.summary.done == Count(LikeCounts, kept, 0, Sweep(LikeCounts, kept, MaxLikes).visited)
      && r.body.summary.searchIndex == Some(Rotation.WordIndex(dayOfYear, hour, LikeWordCount))
    ensures r.status == 500 && Gate(verb, email, password).None? ==> r.body == Failure(setup.message)
  {
    match Gate(verb, email, password)
    case Some(g) => g
    case None =>
      match setup
      case Err(m) => Response(500, Failure(m))
      case Ok(found) =>
        var kept := Take(found, LikeCandidates);
        var s := Sweep(LikeCounts, kept, MaxLikes);
        Response(200, Completed(Summary(s.count, MaxLikes, Some(|kept|), Some(Rotation.WordIndex(dayOfYear, hour, LikeWordCount)))))
  }

  /** Articles liked already are passed over uncounted: with only those and articles without a button, nothing is liked. */
  lemma AlreadyLikedNotCounted(dayOfYear: nat, hour: nat, found: seq<LikeVisit>)
    requires hour < 24
    requires forall k :: 0 <= k < |found| ==> found[k] != LikeClicked
    ensures LikeNotes(Get, Some("e"), Some("p"), dayOfYear, hour, Ok(found)).body.summary.done == 0
  {
    var kept := Take(found, LikeCandidates);
    CountNone(LikeCounts, kept, 0, Sweep(LikeCounts, kept, MaxLikes).visited);
  }

  /** Articles after the first ten never change the response. */
  lemma LikeLaterArticlesIgnored(verb: Method, email: Option<string>, password: Option<string>,
                                 dayOfYear: nat, hour: nat, found: seq<LikeVisit>, more: seq<LikeVisit>)
    requires hour < 24 && |found| >= LikeCandidates
    ensures LikeNotes(verb, email, password, dayOfYear, hour, Ok(found + more))
         == LikeNotes(verb, email, password, dayOfYear, hour, Ok(found))
  {
    assert Take(found + more, LikeCandidates) == Take(found, LikeCandidates);
  }

  /** The request three hours later on the same day searches for the next of the twenty-eight words, wrapping after the last. */
  lemma LikeNextRunNextWord(dayOfYear: nat, hour: nat, first: seq<LikeVisit>, second: seq<LikeVisit>)
    requires hour + 3 < 24
    ensures LikeNotes(Post, Some("e"), Some("p"), dayOfYear, hour + 3, Ok(second)).body.summary.searchIndex.value
      == (LikeNotes(Post, Some("e"), Some("p"), dayOfYear, hour, Ok(first)).body.summary.searchIndex.value + 1) % LikeWordCount
  {
    Rotation.NextRunSameDay(dayOfYear, hour, LikeWordCount);
  }

  // ---------------------------------------------------------------------------
  // api/publish-notes.js

  const PublishCandidates: nat := 5
  const MaxPublishes: nat := 3

  /**
   * One draft: its visit threw, it has no edit button, no publish button, no
   * confirm button, the confirm step threw (swallowed by its own `try`), or
   * the confirm button was clicked.
   */
  datatype DraftVisit = DraftThrew | NoEdit | NoPublish | NoConfirm | ConfirmThrew | Confirmed

  predicate PublishCounts(v: DraftVisit) {
    v == Confirmed
  }

  /** The publish handler: `setup` holds the drafts found, or the message of what threw before the loop. */
  function PublishNotes(verb: Method, email: Option<string>, password: Option<string>, setup: Result<seq<DraftVisit>>): (r: Response)
    ensures r.status == 405 <==> verb.OtherMethod?
    ensures r.status == 200 <==> !verb.OtherMethod? && Present(email) && Present(password) && setup.Ok?
    ensures r.status == 200 || r.status == 405 || r.status == 500
    ensures r.status == 200 ==>
      var kept := Take(setup.value, PublishCandidates);
      r.body.Completed? && r.body.summary.done <= MaxPublishes
      && r.body.summary.kept == Some(|kept|)
      && r.body.summary.done == Count(PublishCounts, kept, 0, Sweep(PublishCounts, kept, MaxPublishes).visited)
      && r.body.summary.searchIndex.None?
    ensures r.status == 500 && Gate(verb, email, password).None? ==> r.body == Failure(setup.message)
  {
    match Gate(verb, email, password)
    case Some(g) => g
    case None =>
      match setup
      case Err(m) => Response(500, Failure(m))
      case Ok(found) =>
        var kept := Take(found, PublishCandidates);
        var s := Sweep(PublishCounts, kept, MaxPublishes);
        Response(200, Completed(Summary(s.count, MaxPublishes, Some(|kept|), None)))
  }

  /** Drafts stopped before their confirm button was clicked are never counted, so with none confirmed nothing is published. */
  lemma UnconfirmedNotCounted(found: seq<DraftVisit>)
    requires forall k :: 0 <= k < |found| ==> found[k] != Confirmed
    ensures PublishNotes(Post, Some("e"), Some("p"), Ok(found)).body.summary.done == 0
  {
    var kept := Take(found, PublishCandidates);
    CountNone(PublishCounts, kept, 0, Sweep(PublishCounts, kept, MaxPublishes).visited);
  }

  // ---------------------------------------------------------------------------
  // api/follow-articles.js

  const FollowCandidates: nat := 10
  const MaxFollows: nat := 5

  /** One article: its visit or the click threw, it has no follow button, or the button was clicked. */
  datatype FollowVisit = FollowThrew | NoFollowButton | FollowClicked

  predicate FollowCounts(v: FollowVisit) {
    v == FollowClicked
  }

  /** The follow handler: `setup` holds the articles found, or the message of what threw before the loop. */
  function FollowArticles(verb: Method, email: Option<string>, password: Option<string>, setup: Result<seq<FollowVisit>>): (r: Response)
    ensures r.status == 405 <==> verb.OtherMethod?
    ensures r.status == 200 <==> !verb.OtherMethod? && Present(email) && Present(password) && setup.Ok?
    ensures r.status == 200 || r.status == 405 || r.status == 500
    ensures r.status == 200 ==>
      var kept := Take(setup.value, FollowCandidates);
      r.body.Completed? && r.body.summary.done <= MaxFollows
      && r.body.summary.done == Count(FollowCounts, kept, 0, Sweep(FollowCounts, kept, MaxFollows).visited)
      && r.body.summary.kept.None? && r.body.summary.searchIndex.None?
    ensures r.status == 500 && Gate(verb, email, password).None? ==> r.body == Failure(setup.message)
  {
    match Gate(verb, email, password)
    case Some(g) => g
    case None =>
      match setup
      case Err(m) => Response(500, Failure(m))
      case Ok(found) =>
        var kept := Take(found, FollowCandidates);
        var s := Sweep(FollowCounts, kept, MaxFollows);
        Response(200, Completed(Summary(s.count, MaxFollows, None, None)))
  }

  /** With fewer than five follow buttons among the first ten articles, every one of them is clicked and counted. */
  lemma FollowsEveryButtonUnderCap(found: seq<FollowVisit>)
    requires Count(FollowCounts, Take(found, FollowCandidates), 0, |Take(found, FollowCandidates)|) < MaxFollows
    ensures FollowArticles(Get, Some("e"), Some("p"), Ok(found)).body.summary.done
         == Count(FollowCounts, Take(found, FollowCandidates), 0, |Take(found, FollowCandidates)|)
  {
    SweepAllUnderCap(FollowCounts, Take(found, FollowCandidates), MaxFollows);
  }
}
