/**
 * The management-table driven run that saves every pending article as a
 * note.com draft: read the table, log in once, then for each pending row
 * open the home page, read the article file, run the five editor steps and
 * stamp the row with today's date (one date for the whole run; the script
 * reads the clock again after each article). The first article that fails ends the
 * run; an article whose file is missing is skipped.
 */
module DraftRun {
  import opened JsText
  import opened Outcomes
  import opened DraftSteps
  import opened MgmtTable

  /** What reading an article file gave: no such file (ENOENT), another error, or the text. */
  datatype FileRead = Missing | Unreadable(error: string) | Contents(text: string)

  /**
   * Everything one article's turn sees: the error of loading the home page
   * if it failed, the article file, and the pages of the five editor steps.
   */
  datatype Visit = Visit(home: Option<string>, file: FileRead, editor: Editor)

  /** How one article's turn ended. */
  datatype Turn = Skipped | Drafted | Failed(error: string)

  /**
   * One pass of the loop body for a pending row: the title comes from the
   * file name and the body from the file.
   */
  function TurnOf(p: Pending, v: Visit): (t: Turn)
  {
    if v.home.Some? then Failed(v.home.value)
    else
      match v.file
      case Missing => Skipped
      case Unreadable(e) => Failed(e)
      case Contents(body) =>
        Outcome(Sequence(EditorSteps(v.editor, ArticleTitle(p.filePath), body)).end)
  }

  /** A turn whose steps all ran to the end drafted the article; otherwise the first step's error fails it. */
  function Outcome(e: StepEnd): (t: Turn)
    ensures t == Drafted <==> e == Done
  {
    match e
    case Done => Drafted
    case Threw(err) => Failed(err)
  }

  /** The turn of an article whose file was read is the outcome of its editor steps. */
  lemma TurnOfContents(p: Pending, v: Visit)
    requires v.home.None? && v.file.Contents?
    ensures TurnOf(p, v) == Outcome(Sequence(EditorSteps(v.editor, ArticleTitle(p.filePath), v.file.text)).end)
  {
  }

  /**
   * Only the steps that throw on a missing element can make an article
   * fail; the upload and the dialog closing never do.
   */
  lemma TurnFailsOnlyThrough(p: Pending, v: Visit)
    requires v.home.None? && v.file.Contents?
    ensures TurnOf(p, v) == Drafted <==>
      GoToNewPost(v.editor.post).end == Done && FillArticle(v.editor.fill, ArticleTitle(p.filePath), v.file.text).end == Done
      && SaveDraft(v.editor.save).end == Done
  {
    TurnOfContents(p, v);
    EditorStepsDone(v.editor, ArticleTitle(p.filePath), v.file.text);
  }

  /** The date written into a stamped row: `updateDraftDate` writes nothing when the row cannot be found. */
  function Stamp(table: string, r: nat, date: string): (t: string)
    ensures UpdateDraftDate(table, r, date).None? ==> t == table
  {
    UpdateDraftDate(table, r, date).GetOr(table)
  }

  /**
   * The loop from pending entry `i` on: the table after the stamps, the
   * entries drafted (as positions in `pending` and as table rows), how many
   * entries were started, and the error that stopped the loop. `turn` runs
   * one entry's turn and `stamp` writes the date into a row of the table.
   */
  datatype Walk = Walk(table: string, drafted: seq<nat>, stamped: seq<nat>, visited: nat, error: Option<string>)

  function WalkFrom<V>(pending: seq<Pending>, visits: nat -> V, turn: (Pending, V) -> Turn,
                       stamp: (string, nat) -> string, i: nat, table: string): (w: Walk)
    requires i <= |pending|
    ensures i <= w.visited <= |pending|
    decreases |pending| - i
  {
    if i == |pending| then Walk(table, [], [], i, None)
    else
      match turn(pending[i], visits(i))
      case Failed(e) => Walk(table, [], [], i + 1, Some(e))
      case Skipped => WalkFrom(pending, visits, turn, stamp, i + 1, table)
      case Drafted =>
        var w := WalkFrom(pending, visits, turn, stamp, i + 1, stamp(table, pending[i].rowIndex));
        Walk(w.table, [i] + w.drafted, [pending[i].rowIndex] + w.stamped, w.visited, w.error)
  }

  /**
   * The loop stops at the first failing entry and reports its error;
   * without a failure it visits every entry.
   */
  lemma {:induction false} WalkStops<V>(pending: seq<Pending>, visits: nat -> V, turn: (Pending, V) -> Turn,
                                        stamp: (string, nat) -> string, i: nat, table: string)
    requires i <= |pending|
    ensures var w := WalkFrom(pending, visits, turn, stamp, i, table);
      (w.error.Some? <==> exists k :: i <= k < |pending| && turn(pending[k], visits(k)).Failed?)
      && (w.error.None? ==> w.visited == |pending|)
      && (w.error.Some? ==>
            i < w.visited && turn(pending[w.visited - 1], visits(w.visited - 1)) == Failed(w.error.value)
            && forall k :: i <= k < w.visited - 1 ==> !turn(pending[k], visits(k)).Failed?)
    decreases |pending| - i
  {
    if i < |pending| {
      match turn(pending[i], visits(i))
      case Failed(_) =>
      case Skipped =>
        WalkStops(pending, visits, turn, stamp, i + 1, table);
      case Drafted =>
        WalkStops(pending, visits, turn, stamp, i + 1, stamp(table, pending[i].rowIndex));
    }
  }

  /**
   * An entry is drafted exactly when it was reached before the loop stopped
   * and all its steps succeeded; the drafted entries' rows are the rows
   * stamped, in the same order.
   */
  lemma {:induction false} WalkDrafts<V>(pending: seq<Pending>, visits: nat -> V, turn: (Pending, V) -> Turn,
                                         stamp: (string, nat) -> string, i: nat, table: string, k: nat)
    requires i <= |pending|
    ensures var w := WalkFrom(pending, visits, turn, stamp, i, table);
      (k in w.drafted <==> i <= k < w.visited && k < |pending| && turn(pending[k], visits(k)) == Drafted)
      && |w.stamped| == |w.drafted|
      && forall j :: 0 <= j < |w.drafted| ==> w.drafted[j] < |pending| && w.stamped[j] == pending[w.drafted[j]].rowIndex
    decreases |pending| - i
  {
    if i < |pending| {
      match turn(pending[i], visits(i))
      case Failed(_) =>
      case Skipped =>
        WalkDrafts(pending, visits, turn, stamp, i + 1, table, k);
      case Drafted =>
        WalkDrafts(pending, visits, turn, stamp, i + 1, stamp(table, pending[i].rowIndex), k);
    }
  }

  /** `updateDraftDate(tablePath, rowIndex, today)` on the table file's contents. */
  function Stamper(date: string): (string, nat) -> string {
    (t: string, r: nat) => Stamp(t, r, date)
  }

  /** Row indices that only grow along the list. */
  predicate Ascending(pending: seq<Pending>, i: nat) {
    forall k, l :: i <= k < l < |pending| ==> pending[k].rowIndex < pending[l].rowIndex
  }

  /** A date `updateDraftDate` can write and the parser reads back as filled in. */
  predicate Writable(date: string) {
    '\n' !in date && '|' !in date && !AllSpace(date)
  }

  /**
   * Every stamp removes its row from the table's listing and keeps every
   * other row listed, so the final listing is the first one without the
   * stamped rows.
   */
  lemma {:induction false} WalkTable<V>(pending: seq<Pending>, visits: nat -> V, turn: (Pending, V) -> Turn,
                                        date: string, i: nat, table: string)
    requires i <= |pending| && Ascending(pending, i) && Writable(date)
    requires forall k :: i <= k < |pending| ==> pending[k] in ParseUnsubmitted(table)
    ensures var w := WalkFrom(pending, visits, turn, Stamper(date), i, table);
      ParseUnsubmitted(w.table) == WithoutAll(ParseUnsubmitted(table), w.stamped)
    decreases |pending| - i
  {
    if i < |pending| {
      match turn(pending[i], visits(i))
      case Failed(_) =>
      case Skipped =>
        WalkTable(pending, visits, turn, date, i + 1, table);
      case Drafted =>
        StampOne(pending, date, i, table);
        WalkTable(pending, visits, turn, date, i + 1, Stamper(date)(table, pending[i].rowIndex));
    }
  }

  /** Stamping the first pending row unlists it alone, and the later pending rows stay listed. */
  lemma StampOne(pending: seq<Pending>, date: string, i: nat, table: string)
    requires i < |pending| && Ascending(pending, i) && Writable(date)
    requires forall k :: i <= k < |pending| ==> pending[k] in ParseUnsubmitted(table)
    ensures var t := Stamper(date)(table, pending[i].rowIndex);
      ParseUnsubmitted(t) == Without(ParseUnsubmitted(table), pending[i].rowIndex)
      && forall k :: i + 1 <= k < |pending| ==> pending[k] in ParseUnsubmitted(t)
  {
    var r := pending[i].rowIndex;
    var t := Stamper(date)(table, r);
    assert ParseUnsubmitted(t) == Without(ParseUnsubmitted(table), r) by {
      ListedUpdates(table, pending[i], date);
      StampedRowUnlisted(table, r, date);
    }
    forall k | i + 1 <= k < |pending|
      ensures pending[k] in ParseUnsubmitted(t)
    {
      WithoutIn(ParseUnsubmitted(table), r, pending[k]);
    }
  }

  // ---------------------------------------------------------------------------
  // main

  /** How `main` ended: the process exited, the promise rejected, or it returned a status. */
  datatype Ending = Exit(code: int) | Rejected(error: string) | Returned(status: string, failure: Option<string>)

  /** The ending, the table file afterwards, whether login ran, and the drafted rows. */
  datatype Run = Run(ending: Ending, table: string, loggedIn: bool, stamped: seq<nat>)

  /**
   * `main()` of the table-driven drafter, with the table file's contents,
   * today's date, the login page and each pending article's pages as
   * parameters.
   */
  function Main(raw: string, today: string, login: LoginPage, visits: nat -> Visit): (r: Run)
    ensures r.ending.Exit? ==> r.ending.code == 0 || r.ending.code == 1
  {
    var pending := ParseUnsubmitted(raw);
    if pending == [] then Run(Exit(0), raw, false, [])
    else
      match LogIn(login).end
      case Exited(c) => Run(Exit(c), raw, true, [])
      case LoginThrew(e) => Run(Rejected(e), raw, true, [])
      case LoggedIn =>
        var w := WalkFrom(pending, visits, TurnOf, Stamper(today), 0, raw);
        Run(if w.error.Some? then Returned("error", w.error) else Returned("done", None), w.table, true, w.stamped)
  }

  /** With no pending row the process exits with 0 before logging in, and the table is untouched. */
  lemma MainNothingPending(raw: string, today: string, login: LoginPage, visits: nat -> Visit)
    requires ParseUnsubmitted(raw) == []
    ensures Main(raw, today, login, visits) == Run(Exit(0), raw, false, [])
  {
  }

  /** Without a user icon after logging in, the process exits with 1 and no article is touched. */
  lemma MainLoginFails(raw: string, today: string, login: LoginPage, visits: nat -> Visit)
    requires ParseUnsubmitted(raw) != [] && login.navigation.None? && !login.userIcon
    ensures Main(raw, today, login, visits) == Run(Exit(1), raw, true, [])
  {
  }

  /**
   * After logging in, `main` returns `error` exactly when some pending
   * article fails, and then with that first failure's error.
   */
  lemma MainStatus(raw: string, today: string, login: LoginPage, visits: nat -> Visit)
    requires ParseUnsubmitted(raw) != [] && LogIn(login).end == LoggedIn
    ensures var pending := ParseUnsubmitted(raw);
      var r := Main(raw, today, login, visits);
      r.ending.Returned?
      && (r.ending.status == "error" <==> exists k :: 0 <= k < |pending| && TurnOf(pending[k], visits(k)).Failed?)
      && (r.ending.status == "error" ==>
            exists k :: 0 <= k < |pending| && TurnOf(pending[k], visits(k)) == Failed(r.ending.failure.value)
              && forall j :: 0 <= j < k ==> !TurnOf(pending[j], visits(j)).Failed?)
  {
    var pending := ParseUnsubmitted(raw);
    MainWalks(raw, today, login, visits);
    WalkStops(pending, visits, TurnOf, Stamper(today), 0, raw);
  }

  /** After logging in, `main` reports what the loop over the pending rows did. */
  lemma MainWalks(raw: string, today: string, login: LoginPage, visits: nat -> Visit)
    requires ParseUnsubmitted(raw) != [] && LogIn(login).end == LoggedIn
    ensures var w := WalkFrom(ParseUnsubmitted(raw), visits, TurnOf, Stamper(today), 0, raw);
      Main(raw, today, login, visits)
        == Run(if w.error.Some? then Returned("error", w.error) else Returned("done", None), w.table, true, w.stamped)
  {
  }

  /**
   * A row is stamped exactly when its article was drafted before the run
   * stopped; afterwards the stamped rows are no longer pending and every
   * other row still is.
   */
  lemma MainStamps(raw: string, today: string, login: LoginPage, visits: nat -> Visit, x: Pending)
    requires ParseUnsubmitted(raw) != [] && LogIn(login).end == LoggedIn && Writable(today)
    ensures var r := Main(raw, today, login, visits);
      x in ParseUnsubmitted(r.table) <==> x in ParseUnsubmitted(raw) && x.rowIndex !in r.stamped
  {
    MainWalks(raw, today, login, visits);
    WalkListing(raw, ParseUnsubmitted(raw), visits, TurnOf, today, x);
  }

  /** The loop over the table's own listing leaves listed exactly the rows it did not stamp. */
  lemma WalkListing<V>(raw: string, pending: seq<Pending>, visits: nat -> V, turn: (Pending, V) -> Turn, date: string, x: Pending)
    requires pending == ParseUnsubmitted(raw) && Writable(date)
    ensures var w := WalkFrom(pending, visits, turn, Stamper(date), 0, raw);
      x in ParseUnsubmitted(w.table) <==> x in pending && x.rowIndex !in w.stamped
  {
    assert Ascending(pending, 0) by {
      ParseTableShape(TableLines(Split(raw, '\n')));
    }
    WalkTable(pending, visits, turn, date, 0, raw);
    var w := WalkFrom(pending, visits, turn, Stamper(date), 0, raw);
    WithoutAllIn(pending, w.stamped, x);
  }

  /**
   * Pending row `k` is stamped exactly when its turn drafted the article and
   * no earlier turn failed.
   */
  lemma MainDrafted(raw: string, today: string, login: LoginPage, visits: nat -> Visit, k: nat)
    requires ParseUnsubmitted(raw) != [] && LogIn(login).end == LoggedIn && k < |ParseUnsubmitted(raw)|
    ensures var pending := ParseUnsubmitted(raw);
      pending[k].rowIndex in Main(raw, today, login, visits).stamped <==>
        TurnOf(pending[k], visits(k)) == Drafted && forall j :: 0 <= j < k ==> !TurnOf(pending[j], visits(j)).Failed?
  {
    var pending := ParseUnsubmitted(raw);
    MainWalks(raw, today, login, visits);
    ParseTableShape(TableLines(Split(raw, '\n')));
    assert Ascending(pending, 0);
    WalkStamps(pending, visits, TurnOf, Stamper(today), raw, k);
  }

  /** Along the whole loop, entry `k`'s row is stamped exactly when `k` drafted and nothing failed before it. */
  lemma WalkStamps<V>(pending: seq<Pending>, visits: nat -> V, turn: (Pending, V) -> Turn,
                      stamp: (string, nat) -> string, table: string, k: nat)
    requires k < |pending| && Ascending(pending, 0)
    ensures pending[k].rowIndex in WalkFrom(pending, visits, turn, stamp, 0, table).stamped <==>
      turn(pending[k], visits(k)) == Drafted && forall j :: 0 <= j < k ==> !turn(pending[j], visits(j)).Failed?
  {
    var w := WalkFrom(pending, visits, turn, stamp, 0, table);
    WalkStops(pending, visits, turn, stamp, 0, table);
    WalkDrafts(pending, visits, turn, stamp, 0, table, k);
    if turn(pending[k], visits(k)) == Drafted && forall j :: 0 <= j < k ==> !turn(pending[j], visits(j)).Failed? {
      if w.error.Some? {
        assert k != w.visited - 1;
      }
      var j :| 0 <= j < |w.drafted| && w.drafted[j] == k;
      assert w.stamped[j] == pending[k].rowIndex;
    }
    if pending[k].rowIndex in w.stamped {
      var j :| 0 <= j < |w.stamped| && w.stamped[j] == pending[k].rowIndex;
      var m := w.drafted[j];
      WalkDrafts(pending, visits, turn, stamp, 0, table, m);
      assert m in w.drafted;
      assert m == k;
    }
  }
}
