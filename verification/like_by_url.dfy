/**
 * The profile liker (likeNotesByUrl.js): take the page to like from the
 * command line, refuse anything outside note.com, then press up to fifty
 * `スキ` buttons of that page. Buttons already pressed, not visible after
 * scrolling, or not clickable are passed over; a press that throws is
 * counted as an error and the walk goes on. Once the page is open, the
 * browser is closed on every path; a launch or `newPage` that throws comes
 * before the `try`, so nothing closes the browser then.
 */
module LikeByUrl {
  import opened Outcomes
  import opened JsText
  import opened Walker

  /** The page liked when no URL is given. */
  const DefaultUrl: string := "https://note.com/enginner_skill"

  /** Only pages under this prefix are accepted. */
  const NotePrefix: string := "https://note.com/"

  /** Arguments starting with this are options, not URLs. */
  const OptionPrefix: string := "--"

  /** `successCount` stops the walk at this many likes. */
  const MaxLikes: nat := 50

  predicate IsOption(arg: string) {
    StartsWith(arg, OptionPrefix)
  }

  /**
   * `argv.find(arg => !arg.startsWith('--')) || defaultUrl`: the first
   * argument that is not an option, unless there is none or it is the empty
   * string, which JavaScript treats as false.
   */
  function Target(args: seq<string>): (url: string)
    ensures url != ""
    ensures url == DefaultUrl || (url in args && !IsOption(url))
    ensures url != DefaultUrl ==> exists k :: 0 <= k < |args| && args[k] == url && forall j :: 0 <= j < k ==> IsOption(args[j])
  {
    match FirstWhere((a: string) => !IsOption(a), args)
    case None => DefaultUrl
    case Some(k) => if args[k] == "" then DefaultUrl else args[k]
  }

  /** With only options on the command line, the default page is liked. */
  lemma OptionsOnlyTargetDefault(args: seq<string>)
    requires forall k :: 0 <= k < |args| ==> IsOption(args[k])
    ensures Target(args) == DefaultUrl
  {
  }

  /** Whatever follows the first URL is ignored: options before it do not matter either. */
  lemma FirstUrlWins(options: seq<string>, url: string, rest: seq<string>)
    requires forall k :: 0 <= k < |options| ==> IsOption(options[k])
    requires url != "" && !IsOption(url)
    ensures Target(options + [url] + rest) == url
  {
    var args := options + [url] + rest;
    assert args[|options|] == url;
    assert forall k :: 0 <= k < |options| ==> args[k] == options[k];
  }

  /** How one `スキ` button went. */
  datatype Like =
    | AlreadyPressed   // `aria-pressed` was already `true`
    | Invisible        // still outside the viewport after scrolling to it
    | Unclickable      // zero-sized, disabled, or not taking pointer events
    | Liked            // clicked, and `aria-pressed` turned `true` in time
    | Errored          // a step threw or the wait timed out: `errorCount` goes up

  predicate Succeeded(l: Like) {
    l == Liked
  }

  predicate IsError(l: Like) {
    l == Errored
  }

  /** One button as a step of the walk: nothing ends it but the cap and the end of the list. */
  function StepOf(l: Like): (s: Step)
    ensures s.Advance? && !s.limits
    ensures Gain(s) == if Succeeded(l) then 1 else 0
    ensures Fails(s) <==> IsError(l)
  {
    Advance(if l == Liked then 1 else 0, l == Errored, false)
  }

  function Steps(likes: seq<Like>): (steps: seq<Step>)
    ensures |steps| == |likes|
    ensures forall i :: 0 <= i < |likes| ==> steps[i] == StepOf(likes[i])
  {
    seq(|likes|, i requires 0 <= i < |likes| => StepOf(likes[i]))
  }

  const Cap: Bounds := Bounds(Some(MaxLikes), None, false)

  /** The counters when the walk ends: `successCount`, `errorCount` and `processedCount`. */
  datatype Run = Run(successes: nat, errors: nat, processed: nat)

  /** The facts about the walk that `LikeAll` reports. */
  lemma LikeWalk(likes: seq<Like>)
    ensures var w := Walk(Steps(likes), Cap, false);
      w.count <= MaxLikes
      && w.count == Count(Succeeded, likes, 0, w.visited)
      && w.failures == Count(IsError, likes, 0, w.visited)
      && (w.visited < |likes| ==> w.count == MaxLikes)
  {
    var steps := Steps(likes);
    var w := Walk(steps, Cap, false);
    WalkCapHolds(steps, Cap, 0, 0, 0, false);
    WalkTallies(steps, Cap, 0, 0, 0, false);
    WalkHaltsLast(steps, Cap, 0, 0, 0, false);
    GainedCounts(steps, Succeeded, likes, 0, w.visited);
    FailedCounts(steps, IsError, likes, 0, w.visited);
  }

  /**
   * The walk over the buttons: successes and errors are the likes and the
   * errors among the buttons processed, at most fifty likes are made, and
   * buttons are left unprocessed only once fifty likes have been made.
   */
  function LikeAll(likes: seq<Like>): (r: Run)
    ensures r.processed <= |likes|
    ensures r.successes <= MaxLikes
    ensures r.successes == Count(Succeeded, likes, 0, r.processed)
    ensures r.errors == Count(IsError, likes, 0, r.processed)
    ensures r.processed < |likes| ==> r.successes == MaxLikes
  {
    LikeWalk(likes);
    var w := Walk(Steps(likes), Cap, false);
    Run(w.count, w.failures, w.visited)
  }

  /** Every button processed was reached with fewer than fifty likes made. */
  lemma ProcessedUnderCap(likes: seq<Like>)
    ensures var r := LikeAll(likes);
      forall k :: 0 <= k < r.processed ==> Count(Succeeded, likes, 0, k) < MaxLikes
  {
    var steps := Steps(likes);
    var w := Walk(steps, Cap, false);
    WalkEntersUnderCap(steps, Cap, 0, 0, 0, false);
    forall k | 0 <= k < w.visited
      ensures Count(Succeeded, likes, 0, k) < MaxLikes
    {
      GainedCounts(steps, Succeeded, likes, 0, k);
    }
  }

  /** Buttons passed over count as neither a like nor an error: a page of them is processed to the end with nothing counted. */
  lemma PassedOverCountNothing(likes: seq<Like>)
    requires forall k :: 0 <= k < |likes| ==> likes[k] in {AlreadyPressed, Invisible, Unclickable}
    ensures LikeAll(likes) == Run(0, 0, |likes|)
  {
    WalkIdleVisitsAll(Steps(likes), Cap, 0, 0, 0, false);
    LikeWalk(likes);
    CountNone(Succeeded, likes, 0, |likes|);
    CountNone(IsError, likes, 0, |likes|);
  }

  /** How the script ended. */
  datatype Ending =
    | BadUrl(exitCode: int)     // the target is not a note.com page: exit before the browser starts
    | SetupFailed(error: string) // `puppeteer.launch` or `browser.newPage` threw, outside the `try`
    | PageFailed(error: string) // something outside the per-button `try` threw
    | NoButtons                 // no `スキ` button was found
    | Done(run: Run)

  /** The ending, and whether `browser.close()` ran. */
  datatype Finish = Finish(ending: Ending, closed: bool)

  /**
   * The whole script: `setup` is the error that launching the browser or
   * opening its page threw, if any; the buttons are the ones the page query
   * finds once loaded, or the error that loading it threw.
   */
  function Script(args: seq<string>, setup: Option<string>, page: Result<seq<Like>>): (f: Finish)
    ensures f.ending.BadUrl? <==> !StartsWith(Target(args), NotePrefix)
    ensures f.ending.BadUrl? ==> f.ending.exitCode == 1 && !f.closed
    ensures f.ending.SetupFailed? <==> StartsWith(Target(args), NotePrefix) && setup.Some?
    ensures f.ending.SetupFailed? ==> f.ending.error == setup.value && !f.closed
    ensures f.closed <==> StartsWith(Target(args), NotePrefix) && setup.None?
    ensures f.ending.NoButtons? <==> StartsWith(Target(args), NotePrefix) && setup.None? && page == Ok([])
    ensures f.ending.Done? ==> f.ending.run.successes <= MaxLikes
  {
    if !StartsWith(Target(args), NotePrefix) then Finish(BadUrl(1), false)
    else if setup.Some? then Finish(SetupFailed(setup.value), false)
    else match page
      case Err(m) => Finish(PageFailed(m), true)
      case Ok(likes) => if likes == [] then Finish(NoButtons, true) else Finish(Done(LikeAll(likes)), true)
  }
}
