/**
 * The commenter (commentFromArticles.js): pick this run's search word from a
 * list of ten by the three-hourly rotation, collect the article links of the
 * search results, and visit them in order until one comment has been posted.
 * An article without a comment field or a send button is passed over; an
 * acknowledgement popup that never appears does not stop the comment from
 * counting. Each posted comment is appended to a history file, which is read
 * at the start but never consulted.
 */
module CommentWalk {
  import opened Outcomes
  import opened JsText
  import opened Walker
  import Rotation
  import DraftSteps

  /** The search words the rotation picks from. */
  const SearchWordCount: nat := 10

  /** The walk stops once this many comments have been posted. */
  const MaxCommented: nat := 1

  /** Relative links are resolved against this origin. */
  const Origin: string := "https://note.com"

  // ---------------------------------------------------------------------------
  // Links

  /** An article anchor: its resolved `href` property and its raw `href` attribute (`None` when absent). */
  datatype Anchor = Anchor(href: string, attribute: Option<string>)

  /** `String(x)` of the attribute: a missing one reads `null`. */
  function AttributeText(a: Option<string>): string {
    match a
    case None => "null"
    case Some(s) => s
  }

  /** The article URL: the `href` when it starts with `http`, otherwise the origin followed by the raw attribute. */
  function ArticleUrl(a: Anchor): (url: string)
    ensures StartsWith(url, "http")
    ensures StartsWith(a.href, "http") ==> url == a.href
    ensures !StartsWith(a.href, "http") ==> StartsWith(url, Origin) && url[|Origin|..] == AttributeText(a.attribute)
  {
    if StartsWith(a.href, "http") then a.href else Origin + AttributeText(a.attribute)
  }

  // ---------------------------------------------------------------------------
  // History

  /** One history record; the ISO date it also carries is left out. */
  datatype Entry = Entry(url: string, title: string)

  /** The history file: absent, not JSON, JSON that is not an array, or an array of records. */
  datatype HistoryFile = Absent | NotJson | NotAnArray | Records(entries: seq<Entry>)

  /** What `loadCommentedArticles` returns: a list, or a value `push` will throw on. */
  datatype History = List(entries: seq<Entry>) | NotAList

  /** An absent file or one that does not parse gives the empty list. */
  function LoadHistory(f: HistoryFile): (h: History)
    ensures h.NotAList? <==> f == NotAnArray
    ensures f.Records? ==> h == List(f.entries)
    ensures f == Absent || f == NotJson ==> h == List([])
  {
    match f
    case Absent => List([])
    case NotJson => List([])
    case NotAnArray => NotAList
    case Records(es) => List(es)
  }

  // ---------------------------------------------------------------------------
  // The walk

  /** The acknowledgement popup after the send button: it never appeared (or a step of it threw), its send button is missing, or it was sent. */
  datatype Popup = NoPopup | NoModalSend | ModalSent

  /**
   * One article visit: the navigation threw, the comment field never
   * appeared, typing threw, no button text contains `送信`, or the comment
   * was sent, with the popup's outcome and the page title (`None` when
   * reading it threw).
   */
  datatype Visit = NavThrew | NoField | TypeThrew | NoSend | Sent(popup: Popup, title: Option<string>)

  datatype Article = Article(anchor: Anchor, visit: Visit)

  /** The visit reaches `commentedCount++`, given whether the history is a list to push onto. */
  predicate Posts(listed: bool, v: Visit) {
    v.Sent? && v.popup != NoModalSend && v.title.Some? && listed
  }

  /** The visit throws out of the loop: navigation, typing, the title, or the push onto a non-list. */
  predicate Crashes(listed: bool, v: Visit) {
    v == NavThrew || v == TypeThrew || (v.Sent? && v.popup != NoModalSend && (v.title.None? || !listed))
  }

  function StepOf(listed: bool, v: Visit): (s: Step)
    ensures s.Halt? <==> Crashes(listed, v)
    ensures s.Halt? ==> s.crash
    ensures Gain(s) == if Posts(listed, v) then 1 else 0
  {
    if Crashes(listed, v) then Halt(true)
    else if Posts(listed, v) then Advance(1, false, false)
    else Advance(0, false, false)
  }

  function Steps(listed: bool, articles: seq<Article>): (steps: seq<Step>)
    ensures |steps| == |articles|
    ensures forall i :: 0 <= i < |articles| ==> steps[i] == StepOf(listed, articles[i].visit)
  {
    seq(|articles|, i requires 0 <= i < |articles| => StepOf(listed, articles[i].visit))
  }

  const CapOne: Bounds := Bounds(Some(MaxCommented), None, false)

  /** The comments posted, the articles visited, whether `browser.close()` ran, and the history as saved. */
  datatype Commented = Commented(count: nat, visited: nat, closed: bool, history: History)

  /**
   * The walk over the articles: it ends at the first article that posts a
   * comment or throws. A posted comment appends that article's URL and title
   * to the history; articles passed over leave it unchanged.
   */
  function Comment(history: History, articles: seq<Article>): (r: Commented)
    ensures r.count <= MaxCommented && r.visited <= |articles|
    ensures var k := NextDecisive(Steps(history.List?, articles), 0);
      (r.count == 1 <==> k < |articles| && Posts(history.List?, articles[k].visit))
      && (!r.closed <==> k < |articles| && Crashes(history.List?, articles[k].visit))
      && (r.visited == if k < |articles| then k + 1 else |articles|)
    ensures r.count == 1 ==>
      var a := articles[r.visited - 1];
      r.history == List(history.entries + [Entry(ArticleUrl(a.anchor), a.visit.title.value)])
    ensures r.count == 0 ==> r.history == history
  {
    var steps := Steps(history.List?, articles);
    WalkCapOne(steps, 0, 0, false);
    var w := Walk(steps, CapOne, false);
    var k := NextDecisive(steps, 0);
    var crashed := k < |steps| && steps[k].Halt?;
    if w.count == 1 then
      var a := articles[k];
      Commented(1, w.visited, true, List(history.entries + [Entry(ArticleUrl(a.anchor), a.visit.title.value)]))
    else Commented(0, w.visited, !crashed, history)
  }

  /** An article is passed over exactly when its visit neither posts nor throws. */
  lemma PassedOverIffIndecisive(listed: bool, v: Visit)
    ensures !Decisive(StepOf(listed, v)) <==> v == NoField || v == NoSend || (v.Sent? && v.popup == NoModalSend)
  {
  }

  /** A comment whose popup never appeared still counts, when it is the first article that posts or throws. */
  lemma MissingPopupCounts(entries: seq<Entry>, skipped: seq<Article>, a: Article, rest: seq<Article>)
    requires forall k :: 0 <= k < |skipped| ==> skipped[k].visit in {NoField, NoSend}
    requires a.visit.Sent? && a.visit.popup == NoPopup && a.visit.title.Some?
    ensures Comment(List(entries), skipped + [a] + rest).count == 1
    ensures Comment(List(entries), skipped + [a] + rest).visited == |skipped| + 1
  {
    var articles := skipped + [a] + rest;
    var steps := Steps(true, articles);
    assert articles[|skipped|] == a;
    assert forall k :: 0 <= k < |skipped| ==> articles[k] == skipped[k];
    NextDecisiveAt(steps, |skipped|);
  }

  /** The first decisive step is `t` when `t` is decisive and none before it is. */
  lemma NextDecisiveAt(steps: seq<Step>, t: nat)
    requires t < |steps| && Decisive(steps[t])
    requires forall j :: 0 <= j < t ==> !Decisive(steps[j])
    ensures NextDecisive(steps, 0) == t
  {
  }

  /** Articles without a comment field or a send button alone: all visited, nothing posted, history untouched. */
  lemma NothingPostable(history: History, articles: seq<Article>)
    requires forall k :: 0 <= k < |articles| ==> articles[k].visit in {NoField, NoSend}
    ensures Comment(history, articles) == Commented(0, |articles|, true, history)
  {
  }

  // ---------------------------------------------------------------------------
  // The script

  datatype Ending = LoginFailed(login: DraftSteps.LoginEnd) | SearchThrew(error: string) | Walked(word: nat, run: Commented)

  /**
   * The whole script from the login on, for a run at `hour` on day
   * `dayOfYear`: the rotation picks the word, the history is loaded before
   * the walk, and a search page whose navigation, scrolling or link
   * collection throws never reaches it.
   */
  function Script(login: DraftSteps.LoginEnd, dayOfYear: nat, hour: nat, file: HistoryFile, search: Result<seq<Article>>): (e: Ending)
    requires hour < 24
    ensures e.Walked? <==> login == DraftSteps.LoggedIn && search.Ok?
    ensures e.Walked? ==> e.word == Rotation.WordIndex(dayOfYear, hour, SearchWordCount) && e.word < SearchWordCount
    ensures e.Walked? ==> e.run.count <= MaxCommented
  {
    if login != DraftSteps.LoggedIn then LoginFailed(login)
    else match search
      case Err(m) => SearchThrew(m)
      case Ok(articles) => Walked(Rotation.WordIndex(dayOfYear, hour, SearchWordCount), Comment(LoadHistory(file), articles))
  }

  /** The run three hours later on the same day searches for the next of the ten words, wrapping after the last. */
  lemma NextRunNextWord(dayOfYear: nat, hour: nat, file: HistoryFile, first: seq<Article>, second: seq<Article>)
    requires hour + 3 < 24
    ensures Script(DraftSteps.LoggedIn, dayOfYear, hour + 3, file, Ok(second)).word
      == (Script(DraftSteps.LoggedIn, dayOfYear, hour, file, Ok(first)).word + 1) % SearchWordCount
  {
    Rotation.NextRunSameDay(dayOfYear, hour, SearchWordCount);
  }
}
