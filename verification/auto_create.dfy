/**
 * The article generator's `main` (autoCreateAndDraftNote.js): generate an
 * article, reject it when it is too short, extract the title, rewrite and tag
 * it (or fall back to the fixed footer when that throws), then drive the
 * editor: log in, open a new post, upload the thumbnail, type title and body,
 * save the draft and close the dialogs. Any error is rethrown.
 */
module AutoCreate {
  import opened JsText
  import opened Outcomes
  import opened Retry
  import opened Titles
  import opened ArticlePipeline
  import opened Affiliate
  import opened DraftSteps

  /** Articles shorter than this many UTF-16 units are not posted. */
  const MinArticleLength: nat := 30

  /** The error of the launch race when the browser does not start within 30 s. */
  const LaunchTimeout: string := "Puppeteer起動タイムアウト（30秒）"

  /**
   * The rewriter's behaviour: the section and tag reply streams, and whether
   * `rewriteAndTagArticle` throws as a whole (which sends `main` to its
   * fallback branch).
   */
  datatype Writer = Writer(replies: nat -> nat -> Reply, tagReplies: nat -> Reply, throws: bool)

  /** How `puppeteer.launch` raced the 30 s timer. */
  datatype Launch = Started | TimedOut | LaunchFailed(error: string)

  /** What the browser session sees: the launch, the login page and the editor pages. */
  datatype Browser = Browser(launch: Launch, login: LoginPage, editor: Editor)

  /** How `main` ends. */
  datatype Ending = TooShort | Saved | Rejected(error: string) | Quit(code: int)

  /**
   * The ending, the title and text prepared for the editor, whether a browser
   * launch was attempted, and whether the browser was closed.
   */
  datatype Created = Created(end: Ending, title: string, text: string, launched: bool, closed: bool)

  // ---------------------------------------------------------------------------
  // Preparing the text

  /** The body handed to `fillArticle`: the rewritten and tagged article, or the catch block's fallback. */
  function Prepared(filtered: string, w: Writer): (text: string)
    ensures w.throws ==> EndsWith(text, ParagraphBreak + FallbackTags + "\n")
    ensures w.throws ==> StartsWith(text, Trim(InsertAffiliateLinks(filtered)) + ParagraphBreak + Footer)
    ensures !w.throws ==> EndsWith(text, ParagraphBreak + TagLine(w.tagReplies) + "\n")
    ensures !w.throws ==> StartsWith(text, Trim(ArticleBody(filtered, w.replies)) + ParagraphBreak + Footer)
    ensures w.throws ==> text == Finish(InsertAffiliateLinks(filtered), FallbackTags)
    ensures !w.throws ==> text == Finish(ArticleBody(filtered, w.replies), TagLine(w.tagReplies))
  {
    if w.throws then FallbackArticle(filtered) else RewriteAndTag(filtered, w.replies, w.tagReplies).text
  }

  // ---------------------------------------------------------------------------
  // Driving the browser

  /** The editor steps after a successful login, with the error of the first one that throws rethrown. */
  function EditorEnding(e: Editor, title: string, text: string): (r: Ending)
    ensures r == Saved || r.Rejected?
    ensures r == Saved <==>
      GoToNewPost(e.post).end == Done && FillArticle(e.fill, title, text).end == Done && SaveDraft(e.save).end == Done
  {
    EditorStepsDone(e, title, text);
    match Sequence(EditorSteps(e, title, text)).end
    case Done => Saved
    case Threw(m) => Rejected(m)
  }

  /**
   * The `try` block of step 6: launch (racing the 30 s timeout), log in, run
   * the editor steps. `login` ends the process itself when no user icon
   * appears.
   */
  function Drive(b: Browser, title: string, text: string): (r: Ending)
    ensures b.launch == TimedOut ==> r == Rejected(LaunchTimeout)
    ensures b.launch.LaunchFailed? ==> r == Rejected(b.launch.error)
    ensures b.launch == Started && LogIn(b.login).end.LoginThrew? ==> r == Rejected(b.login.navigation.value)
    ensures r.Quit? <==> b.launch == Started && b.login.navigation.None? && !b.login.userIcon
    ensures r.Quit? ==> r.code == 1
    ensures r != TooShort
    ensures r == Saved <==>
      b.launch == Started && LogIn(b.login).end == LoggedIn && GoToNewPost(b.editor.post).end == Done
      && FillArticle(b.editor.fill, title, text).end == Done && SaveDraft(b.editor.save).end == Done
  {
    match b.launch
    case TimedOut => Rejected(LaunchTimeout)
    case LaunchFailed(m) => Rejected(m)
    case Started =>
      match LogIn(b.login).end
      case LoginThrew(m) => Rejected(m)
      case Exited(c) => Quit(c)
      case LoggedIn => EditorEnding(b.editor, title, text)
  }

  /** A rejected editor run reports the error of the first step that threw; every step before it finished. */
  lemma EditorReportsFirstFailure(e: Editor, title: string, text: string)
    ensures var r := EditorEnding(e, title, text);
      r.Rejected? ==>
        exists k :: 0 <= k < 5 && EditorSteps(e, title, text)[k] == Threw(r.error)
          && forall j :: 0 <= j < k ==> EditorSteps(e, title, text)[j] == Done
  {
    var ends := EditorSteps(e, title, text);
    assert EditorEnding(e, title, text).Rejected? ==> Sequence(ends).end == Threw(EditorEnding(e, title, text).error);
    FirstThrow(ends);
  }

  // ---------------------------------------------------------------------------
  // main

  /**
   * `main()` with the random topic and pattern left out (they only shape the
   * prompt), the generator's replies, the random emoji, the rewriter and the
   * browser as parameters. A generation failure propagates out of `main`
   * before anything else; a short article returns before any browser work.
   * The browser is closed only after the last step succeeds.
   */
  function Main(generation: nat -> Reply, emoji: string, w: Writer, b: Browser): (r: Created)
    ensures !AnyMessage(generation) ==> r.end == Rejected(ArticleFailurePrefix + generation(3).reason) && !r.launched
    ensures r.launched <==>
      AnyMessage(generation) && Utf16Length(GenerateArticle(generation).outcome.value) >= MinArticleLength
    ensures r.end == TooShort <==>
      AnyMessage(generation) && Utf16Length(GenerateArticle(generation).outcome.value) < MinArticleLength
    ensures r.closed <==> r.end == Saved
    ensures r.launched ==> r.title == ExtractTitle(GenerateArticle(generation).outcome.value, emoji).title
    ensures r.launched ==> r.text == Prepared(ExtractTitle(GenerateArticle(generation).outcome.value, emoji).filtered, w)
    ensures r.launched ==> r.end == Drive(b, r.title, r.text)
  {
    var g := GenerateArticle(generation);
    match g.outcome
    case Err(m) => Created(Rejected(m), "", "", false, false)
    case Ok(article) =>
      if Utf16Length(article) < MinArticleLength then Created(TooShort, "", "", false, false)
      else
        var x := ExtractTitle(article, emoji);
        var text := Prepared(x.filtered, w);
        var end := Drive(b, x.title, text);
        Created(end, x.title, text, true, end == Saved)
  }

  /**
   * A saved draft went through every step, and `fillArticle` typed exactly
   * the emoji-prefixed title and the prepared text.
   */
  lemma MainSavedTyped(generation: nat -> Reply, emoji: string, w: Writer, b: Browser)
    requires Main(generation, emoji, w, b).end == Saved
    ensures var r := Main(generation, emoji, w, b);
      FillArticle(b.editor.fill, r.title, r.text).typed == [r.title, r.text] && StartsWith(r.title, emoji)
      && LogIn(b.login).end == LoggedIn
  {
  }

  /** When the rewriter throws, the draft that is typed ends with the fixed tag line. */
  lemma MainFallsBack(generation: nat -> Reply, emoji: string, w: Writer, b: Browser)
    requires w.throws && Main(generation, emoji, w, b).launched
    ensures EndsWith(Main(generation, emoji, w, b).text, ParagraphBreak + FallbackTags + "\n")
  {
  }

  /**
   * An article of at least 30 units with a working login, new-post button,
   * fields and save button is saved, whatever the upload and the dialogs do.
   */
  lemma MainSavesWhenStepsFinish(generation: nat -> Reply, emoji: string, w: Writer, b: Browser)
    requires AnyMessage(generation) && Utf16Length(GenerateArticle(generation).outcome.value) >= MinArticleLength
    requires b.launch == Started && b.login.navigation.None? && b.login.userIcon
    requires GoToNewPost(b.editor.post).end == Done && SaveDraft(b.editor.save).end == Done
    requires b.editor.fill.titleWait.None? && b.editor.fill.titleFields > 0
      && b.editor.fill.bodyWait.None? && b.editor.fill.bodyField
    ensures Main(generation, emoji, w, b).end == Saved && Main(generation, emoji, w, b).closed
  {
    var r := Main(generation, emoji, w, b);
    assert FillArticle(b.editor.fill, r.title, r.text).end == Done;
  }
}
