/**
 * The browser steps that save one draft on note.com: log in, open the
 * editor, upload a thumbnail, fill in the title and body, save, close the
 * dialogs. The page is an oracle: each step receives what the page showed
 * it (the buttons' texts, which waits timed out, which polls found an
 * element) and returns whether it finished, threw, or ended the process.
 * The model records which steps throw on a missing element and which
 * swallow every error.
 */
module DraftSteps {
  import opened JsText
  import opened Outcomes

  /** How an editor step ended. `error` is the thrown error's `toString()` text. */
  datatype StepEnd = Done | Threw(error: string)

  /** How logging in ended: it may also end the whole process. */
  datatype LoginEnd = LoggedIn | LoginThrew(error: string) | Exited(code: int)

  /** `new Error(m).toString()`. */
  function ErrorText(m: string): string {
    "Error: " + m
  }

  /** The first `k` in `lo .. hi - 1` with `p(k)`: a poll repeated at most `hi - lo` times. */
  function FirstPoll(p: nat -> bool, lo: nat, hi: nat): (r: Option<nat>)
    requires lo <= hi
    ensures r.Some? ==> lo <= r.value < hi && p(r.value) && forall j :: lo <= j < r.value ==> !p(j)
    ensures r.None? ==> forall j :: lo <= j < hi ==> !p(j)
    decreases hi - lo
  {
    if lo == hi then None
    else if p(lo) then Some(lo)
    else FirstPoll(p, lo + 1, hi)
  }

  /**
   * A button whose text is exactly `name`. Every step compares a button's
   * `innerText.trim()`, so the pages below list the buttons' trimmed texts.
   */
  function Labelled(name: string): string -> bool {
    text => text == name
  }

  // ---------------------------------------------------------------------------
  // login

  /**
   * The login page: the trimmed texts of its buttons, the error of the navigation
   * wait if it timed out, and whether the user icon is shown afterwards.
   */
  datatype LoginPage = LoginPage(buttons: seq<string>, navigation: Option<string>, userIcon: bool)

  datatype Login = Login(end: LoginEnd, clicked: Option<nat>)

  const LoginLabel: string := "ログイン"

  /**
   * `login(page, email, password)`: clicks the first button labelled
   * `ログイン` (if any), waits for the navigation, and ends the process with
   * code 1 when no user icon appears.
   */
  function LogIn(page: LoginPage): (r: Login)
    ensures r.clicked == FirstWhere(Labelled(LoginLabel), page.buttons)
    ensures r.end == LoggedIn <==> page.navigation.None? && page.userIcon
    ensures r.end == Exited(1) <==> page.navigation.None? && !page.userIcon
    ensures r.end.LoginThrew? <==> page.navigation.Some?
    ensures r.end.Exited? ==> r.end.code == 1
  {
    var clicked := FirstWhere(Labelled(LoginLabel), page.buttons);
    match page.navigation
    case Some(e) => Login(LoginThrew(e), clicked)
    case None => Login(if page.userIcon then LoggedIn else Exited(1), clicked)
  }

  // ---------------------------------------------------------------------------
  // goToNewPost

  /**
   * The page where a new post starts: for each `投稿` button whether it is in
   * the viewport; whether the k-th quick poll (0-based) for the new-note link
   * finds it; whether the k-th waiting retry finds it; the error of the final
   * navigation wait, if it timed out.
   */
  datatype PostPage = PostPage(visible: seq<bool>, poll: nat -> bool, retry: nat -> bool, navigation: Option<string>)

  /** The button clicked, how many quick polls and waiting retries ran. */
  datatype NewPost = NewPost(end: StepEnd, button: Option<nat>, polls: nat, retries: nat)

  const NoPostButton: string := "表示されている投稿ボタンが見つかりませんでした"
  const NoNewNote: string := "新規投稿画面への遷移に失敗しました"

  /** Both loops looking for the new-note link make at most this many tries. */
  const LinkTries: nat := 5

  function IsVisible(v: bool): bool { v }

  /**
   * `goToNewPost(page)`: clicks the first visible post button (throwing when
   * there is none), polls for the new-note link five times, then retries
   * five more times with a wait, throwing when the link never appears.
   */
  function GoToNewPost(page: PostPage): (r: NewPost)
    ensures r.button == FirstWhere(IsVisible, page.visible)
    ensures r.polls <= LinkTries && r.retries <= LinkTries
    ensures r.button.None? ==> r.end == Threw(ErrorText(NoPostButton))
    ensures r.retries > 0 ==> r.polls == LinkTries && forall k :: 0 <= k < LinkTries ==> !page.poll(k)
    ensures r.end == Done <==>
      r.button.Some? && page.navigation.None?
      && ((exists k :: 0 <= k < LinkTries && page.poll(k)) || (exists k :: 0 <= k < LinkTries && page.retry(k)))
  {
    match FirstWhere(IsVisible, page.visible)
    case None => NewPost(Threw(ErrorText(NoPostButton)), None, 0, 0)
    case Some(b) =>
      match FirstPoll(page.poll, 0, LinkTries)
      case Some(k) => NewPost(Navigate(page.navigation), Some(b), k + 1, 0)
      case None =>
        match FirstPoll(page.retry, 0, LinkTries)
        case Some(k) => NewPost(Navigate(page.navigation), Some(b), LinkTries, k + 1)
        case None => NewPost(Threw(ErrorText(NoNewNote)), Some(b), LinkTries, LinkTries)
  }

  /** `await page.waitForNavigation()`. */
  function Navigate(navigation: Option<string>): (e: StepEnd)
    ensures e == Done <==> navigation.None?
    ensures navigation.Some? ==> e == Threw(navigation.value)
  {
    match navigation
    case None => Done
    case Some(err) => Threw(err)
  }

  // ---------------------------------------------------------------------------
  // dragAndDropToAddButton

  /** A button of the upload dialog: its trimmed text and whether it is disabled. */
  datatype ModalButton = ModalButton(text: string, disabled: bool)

  /**
   * The editor as the upload sees it: whether the add-image button appears
   * in time, how many thumbnails there are, whether the drop area is found,
   * whether the preview appears and a save button becomes enabled in time,
   * and the dialog's buttons.
   */
  datatype DropPage = DropPage(addButton: bool, thumbnails: nat, dropArea: bool, preview: bool, saveEnabled: bool,
                               buttons: seq<ModalButton>)

  /** Whether the image was dropped, and which dialog button was clicked to save it. */
  datatype Drop = Drop(end: StepEnd, uploaded: bool, saved: Option<nat>)

  const SaveLabel: string := "保存"

  predicate Savable(b: ModalButton) {
    b.text == SaveLabel && !b.disabled
  }

  /**
   * `dragAndDropToAddButton(page)`: every failure is caught and logged, so
   * the step always finishes. The save click is the first enabled `保存`
   * button of the dialog, and only after the image was dropped, the preview
   * shown and the save button enabled.
   */
  function DragAndDrop(page: DropPage): (r: Drop)
    ensures r.end == Done
    ensures r.uploaded <==> page.addButton && page.thumbnails > 0 && page.dropArea
    ensures r.saved.Some? ==>
      r.uploaded && page.preview && page.saveEnabled
      && r.saved.value < |page.buttons| && Savable(page.buttons[r.saved.value])
      && forall j :: 0 <= j < r.saved.value ==> !Savable(page.buttons[j])
    ensures r.uploaded && page.preview && page.saveEnabled && (exists j :: 0 <= j < |page.buttons| && Savable(page.buttons[j])) ==>
      r.saved.Some?
  {
    var uploaded := page.addButton && page.thumbnails > 0 && page.dropArea;
    if uploaded && page.preview && page.saveEnabled then Drop(Done, true, FirstWhere(Savable, page.buttons))
    else Drop(Done, uploaded, None)
  }

  // ---------------------------------------------------------------------------
  // fillArticle

  /**
   * The editor's fields: the error of the title-field wait if it timed out,
   * how many title fields there are, and the same for the body field.
   */
  datatype FillPage = FillPage(titleWait: Option<string>, titleFields: nat, bodyWait: Option<string>, bodyField: bool)

  /** How the step ended and what it typed, in order. */
  datatype Fill = Fill(end: StepEnd, typed: seq<string>)

  const NoTitleField: string := "タイトル入力欄が見つかりませんでした"
  const NoBodyField: string := "本文入力欄が見つかりませんでした"

  /**
   * `fillArticle(page, title, body)`: types the title into the first title
   * field and the body into the body field, throwing when either is missing.
   */
  function FillArticle(page: FillPage, title: string, body: string): (r: Fill)
    ensures r.end == Done <==> page.titleWait.None? && page.titleFields > 0 && page.bodyWait.None? && page.bodyField
    ensures r.end == Done ==> r.typed == [title, body]
    ensures r.end != Done ==> |r.typed| <= 1
    ensures page.titleWait.None? && page.titleFields == 0 ==> r == Fill(Threw(ErrorText(NoTitleField)), [])
    ensures page.titleWait.None? && page.titleFields > 0 && page.bodyWait.None? && !page.bodyField ==>
      r == Fill(Threw(ErrorText(NoBodyField)), [title])
  {
    if page.titleWait.Some? then Fill(Threw(page.titleWait.value), [])
    else if page.titleFields == 0 then Fill(Threw(ErrorText(NoTitleField)), [])
    else if page.bodyWait.Some? then Fill(Threw(page.bodyWait.value), [title])
    else if !page.bodyField then Fill(Threw(ErrorText(NoBodyField)), [title])
    else Fill(Done, [title, body])
  }

  // ---------------------------------------------------------------------------
  // saveDraft

  /** The editor's buttons' trimmed texts, after the wait for any button (its error if it timed out). */
  datatype SavePage = SavePage(wait: Option<string>, buttons: seq<string>)

  datatype Save = Save(end: StepEnd, clicked: Option<nat>)

  const DraftLabel: string := "下書き保存"
  const NoDraftButton: string := "「下書き保存」ボタンが見つかりませんでした"

  function SavesDraft(text: string): bool {
    Contains(text, DraftLabel)
  }

  /**
   * `saveDraft(page)`: clicks the first button whose trimmed text contains
   * `下書き保存`, and throws when there is none.
   */
  function SaveDraft(page: SavePage): (r: Save)
    ensures page.wait.None? ==> (r.end == Done <==> exists j :: 0 <= j < |page.buttons| && SavesDraft(page.buttons[j]))
    ensures r.clicked.Some? ==>
      r.end == Done && r.clicked.value < |page.buttons| && SavesDraft(page.buttons[r.clicked.value])
      && forall j :: 0 <= j < r.clicked.value ==> !SavesDraft(page.buttons[j])
    ensures r.end == Done ==> r.clicked.Some?
    ensures page.wait.None? && r.end != Done ==> r.end == Threw(ErrorText(NoDraftButton))
    ensures page.wait.Some? ==> r == Save(Threw(page.wait.value), None)
  {
    if page.wait.Some? then Save(Threw(page.wait.value), None)
    else
      match FirstWhere(SavesDraft, page.buttons)
      case Some(j) => Save(Done, Some(j))
      case None => Save(Threw(ErrorText(NoDraftButton)), None)
  }

  // ---------------------------------------------------------------------------
  // closeDialogs

  /** The page's trimmed button texts, and the dialog's at each of the modal polls (0-based). */
  datatype ClosePage = ClosePage(buttons: seq<string>, modal: nat -> seq<string>)

  /** The page button clicked, how many modal polls ran, and the modal button clicked. */
  datatype Close = Close(end: StepEnd, first: Option<nat>, polls: nat, second: Option<nat>)

  const CloseLabel: string := "閉じる"

  /** The modal phase tries at most this many times. */
  const ModalTries: nat := 5

  /** Some button of the dialog is labelled `閉じる`. */
  predicate ShowsClose(buttons: seq<string>) {
    CloseLabel in buttons
  }

  /** The dialog's first button labelled `閉じる` at poll `k`. */
  function CloseAt(modal: nat -> seq<string>, k: nat): Option<nat> {
    FirstWhere(Labelled(CloseLabel), modal(k))
  }

  function HasClose(modal: nat -> seq<string>): nat -> bool {
    (k: nat) => CloseAt(modal, k).Some?
  }

  /**
   * `closeDialogs(page)`: clicks the first page button labelled `閉じる`, then
   * polls the dialog at most five times until one of its buttons is
   * labelled `閉じる`; a missing button is only warned about.
   */
  function CloseDialogs(page: ClosePage): (r: Close)
    ensures r.end == Done
    ensures r.first == FirstWhere(Labelled(CloseLabel), page.buttons)
    ensures 1 <= r.polls <= ModalTries
    ensures r.second.Some? <==> exists k :: 0 <= k < ModalTries && HasClose(page.modal)(k)
    ensures r.second.Some? ==>
      1 <= r.polls && r.second == CloseAt(page.modal, r.polls - 1) && forall k :: 0 <= k < r.polls - 1 ==> !HasClose(page.modal)(k)
    ensures r.second.None? ==> r.polls == ModalTries
  {
    var first := FirstWhere(Labelled(CloseLabel), page.buttons);
    match FirstPoll(HasClose(page.modal), 0, ModalTries)
    case Some(k) => Close(Done, first, k + 1, CloseAt(page.modal, k))
    case None => Close(Done, first, ModalTries, None)
  }

  /** The search for a `閉じる` button succeeds exactly on a dialog that shows one. */
  lemma CloseFound(buttons: seq<string>)
    ensures FirstWhere(Labelled(CloseLabel), buttons).Some? <==> ShowsClose(buttons)
  {
    if ShowsClose(buttons) {
      var j :| 0 <= j < |buttons| && buttons[j] == CloseLabel;
      assert Labelled(CloseLabel)(buttons[j]);
    }
  }

  // ---------------------------------------------------------------------------
  // steps in sequence

  function NotDone(e: StepEnd): bool { e != Done }

  /** Steps run one after the other: the first one that does not finish ends the sequence. */
  datatype Sequenced = Sequenced(end: StepEnd, ran: nat)

  function Sequence(ends: seq<StepEnd>): (r: Sequenced)
    requires ends != []
    ensures 1 <= r.ran <= |ends|
    ensures r.end == Done <==> forall k :: 0 <= k < |ends| ==> ends[k] == Done
    ensures r.end != Done ==> r.end == ends[r.ran - 1] && forall k :: 0 <= k < r.ran - 1 ==> ends[k] == Done
    ensures r.end == Done ==> r.ran == |ends|
  {
    match FirstWhere(NotDone, ends)
    case Some(k) => Sequenced(ends[k], k + 1)
    case None => Sequenced(Done, |ends|)
  }

  /** A sequence that ends with a throw reports the first step that threw; every step before it finished. */
  lemma FirstThrow(ends: seq<StepEnd>)
    requires ends != []
    ensures Sequence(ends).end.Threw? ==>
      exists k :: 0 <= k < |ends| && ends[k] == Sequence(ends).end && forall j :: 0 <= j < k ==> ends[j] == Done
  {
    var s := Sequence(ends);
    if s.end.Threw? {
      assert ends[s.ran - 1] == s.end;
    }
  }

  /** Five steps in a row finish exactly when each of them does. */
  lemma FiveSteps(a: StepEnd, b: StepEnd, c: StepEnd, d: StepEnd, e: StepEnd)
    ensures Sequence([a, b, c, d, e]).end == Done <==> a == Done && b == Done && c == Done && d == Done && e == Done
  {
    var ends := [a, b, c, d, e];
    assert ends[0] == a && ends[1] == b && ends[2] == c && ends[3] == d && ends[4] == e;
  }

  /** The pages the five editor steps see, in the order they run. */
  datatype Editor = Editor(post: PostPage, drop: DropPage, fill: FillPage, save: SavePage, close: ClosePage)

  /**
   * `goToNewPost`, `dragAndDropToAddButton`, `fillArticle`, `saveDraft`,
   * `closeDialogs`, each awaited after the one before.
   */
  function EditorSteps(e: Editor, title: string, body: string): (ends: seq<StepEnd>)
    ensures |ends| == 5
  {
    [GoToNewPost(e.post).end, DragAndDrop(e.drop).end, FillArticle(e.fill, title, body).end,
     SaveDraft(e.save).end, CloseDialogs(e.close).end]
  }

  /**
   * Only the steps that throw on a missing element can stop the editor
   * sequence; the upload and the dialog closing never do.
   */
  lemma EditorStepsDone(e: Editor, title: string, body: string)
    ensures Sequence(EditorSteps(e, title, body)).end == Done <==>
      GoToNewPost(e.post).end == Done && FillArticle(e.fill, title, body).end == Done && SaveDraft(e.save).end == Done
  {
    var post, drop, fill, save, close := GoToNewPost(e.post).end, DragAndDrop(e.drop).end,
      FillArticle(e.fill, title, body).end, SaveDraft(e.save).end, CloseDialogs(e.close).end;
    assert EditorSteps(e, title, body) == [post, drop, fill, save, close];
    FiveSteps(post, drop, fill, save, close);
  }
}
