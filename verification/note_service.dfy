/**
 * The Rails backend's note.com client (`NoteService`): a form login that
 * sets a session flag, draft creation and following through note.com's JSON
 * API, and a user search over the search page's article summaries. Every
 * page fetch and POST is a parameter: its result, or the message of the
 * exception it raised, which each operation rescues.
 */
module NoteService {
  import opened Outcomes
  import opened JsText
  import opened RubyText

  // ---------------------------------------------------------------------------
  // Session and login

  /** The client's state: only the `@logged_in` flag survives between calls. */
  datatype Session = Session(loggedIn: bool)

  /** A fresh client has not logged in. */
  const NewSession := Session(false)

  /** A form field, found by its `name` or its `id` attribute. */
  datatype Field = Field(name: string, id: string)

  datatype Form = Form(action: string, fields: seq<Field>)

  /** The page the submitted form led to. */
  datatype Landing = Landing(uri: string, body: string)

  /** The login page's forms and the result of submitting one, each possibly an exception. */
  datatype LoginSite = LoginSite(page: Result<seq<Form>>, submit: Result<Landing>)

  datatype Credentials = Credentials(email: string, password: string)

  /** What `login` returns, the flag it leaves, and the credentials it submitted, if it got that far. */
  datatype LoginResult = LoginResult(ok: bool, session: Session, sent: Option<Credentials>)

  const LoginAction: string := "/api/v1/login"

  /** The form `login` fills: one whose action is the API login path, else the first whose action mentions `login`. */
  function FindForm(forms: seq<Form>): (r: Option<nat>)
    ensures r.Some? ==> r.value < |forms| && Contains(forms[r.value].action, "login")
    ensures r.None? <==> forall i :: 0 <= i < |forms| ==> !Contains(forms[i].action, "login")
    ensures (exists i :: 0 <= i < |forms| && forms[i].action == LoginAction) ==> r.Some? && forms[r.value].action == LoginAction
  {
    ContainsMiddle("/api/v1/", "login", "");
    assert "/api/v1/" + "login" + "" == LoginAction;
    match FirstWhere((f: Form) => f.action == LoginAction, forms)
    case Some(k) => Some(k)
    case None => FirstWhere((f: Form) => Contains(f.action, "login"), forms)
  }

  /** `form.field_with(name: key) || form.field_with(id: key)` finds something. */
  predicate HasField(form: Form, key: string) {
    exists i :: 0 <= i < |form.fields| && (form.fields[i].name == key || form.fields[i].id == key)
  }

  /** The landing shows a logged-in user: a dashboard URL, the dashboard caption, or the user icon. */
  predicate LoggedInLanding(l: Landing) {
    Contains(l.uri, "dashboard") || Contains(l.body, "ダッシュボード") || Contains(l.body, "userIcon")
  }

  /** The login form is there and has both fields, so `login` submits it. */
  predicate Submits(site: LoginSite) {
    site.page.Ok? && FindForm(site.page.value).Some?
    && var form := site.page.value[FindForm(site.page.value).value];
    HasField(form, "email") && HasField(form, "password")
  }

  /** `login(email, password)`. */
  function Login(s: Session, site: LoginSite, email: string, password: string): (r: LoginResult)
    ensures r.session.loggedIn <==> r.ok
    ensures r.ok <==> s.loggedIn || (Submits(site) && site.submit.Ok? && LoggedInLanding(site.submit.value))
    ensures r.sent.Some? <==> !s.loggedIn && Submits(site)
    ensures r.sent.Some? ==> r.sent.value == Credentials(email, password)
  {
    if s.loggedIn then LoginResult(true, s, None)
    else if !Submits(site) then LoginResult(false, s, None)
    else
      var sent := Some(Credentials(email, password));
      match site.submit
      case Err(_) => LoginResult(false, s, sent)
      case Ok(landing) =>
        if LoggedInLanding(landing) then LoginResult(true, Session(true), sent) else LoginResult(false, s, sent)
  }

  /** A logged-in client answers `true` at once and submits nothing, whatever the site does. */
  lemma LoginOnce(s: Session, site1: LoginSite, site2: LoginSite, email: string, password: string)
    requires Login(s, site1, email, password).ok
    ensures var s1 := Login(s, site1, email, password).session;
      Login(s1, site2, email, password) == LoginResult(true, s1, None)
  {
  }

  /** A failed login leaves the client as it was. */
  lemma FailedLoginChangesNothing(s: Session, site: LoginSite, email: string, password: string)
    requires !Login(s, site, email, password).ok
    ensures Login(s, site, email, password).session == s == NewSession
  {
  }

  // ---------------------------------------------------------------------------
  // The CSRF token and the JSON API

  /** A fetched page, reduced to the `content` of its `meta[name="csrf-token"]`, if it has one. */
  datatype Page = Page(csrfMeta: Option<string>)

  /** `extract_csrf_token(page)`. */
  function CsrfToken(page: Page): (token: string)
    ensures page.csrfMeta.None? ==> token == ""
    ensures page.csrfMeta.Some? ==> token == page.csrfMeta.value
  {
    page.csrfMeta.GetOr("")
  }

  /** A POST's status code and, for a draft, the parsed body's `id` (an exception when the body is not JSON). */
  datatype Reply = Reply(code: string, id: Result<Option<int>>)

  const NotesApi: string := "https://note.com/api/v1/notes"

  /** The JSON POST `create_draft` sends: the note's fields and the page's CSRF token as a header. */
  datatype DraftRequest = DraftRequest(url: string, name: string, body: string, status: string, eyeCatchType: string, csrf: string)

  /** The request `create_draft` sent, if any, and the draft id it returns. */
  datatype DraftCall = DraftCall(request: Option<DraftRequest>, id: Option<int>)

  /** `create_draft(title, content)` with the new-post page and the POST's reply as parameters. */
  function CreateDraft(s: Session, title: string, content: string, page: Result<Page>, reply: Result<Reply>): (r: DraftCall)
    ensures r.request.Some? <==> s.loggedIn && page.Ok?
    ensures r.request.Some? ==>
      r.request.value == DraftRequest(NotesApi, title, content, "draft", "none", CsrfToken(page.value))
    ensures r.id.Some? <==>
      s.loggedIn && page.Ok? && reply.Ok? && reply.value.code == "201" && reply.value.id.Ok? && reply.value.id.value.Some?
    ensures r.id.Some? ==> r.id == reply.value.id.value
  {
    if !s.loggedIn then DraftCall(None, None)
    else match page
      case Err(_) => DraftCall(None, None)
      case Ok(p) =>
        var request := Some(DraftRequest(NotesApi, title, content, "draft", "none", CsrfToken(p)));
        match reply
        case Err(_) => DraftCall(request, None)
        case Ok(rep) =>
          if rep.code != "201" then DraftCall(request, None)
          else match rep.id
            case Err(_) => DraftCall(request, None)
            case Ok(id) => DraftCall(request, id)
  }

  /** The follow endpoint for a user id. */
  function FollowUrl(userId: string): (url: string)
    ensures StartsWith(url, "https://note.com/api/v1/users/") && EndsWith(url, "/following")
  {
    "https://note.com/api/v1/users/" + userId + "/following"
  }

  /** Different users are followed through different URLs. */
  lemma FollowUrlNamesUser(a: string, b: string)
    requires FollowUrl(a) == FollowUrl(b)
    ensures a == b
  {
    var n := |"https://note.com/api/v1/users/"|;
    assert |a| == |b|;
    assert a == FollowUrl(a)[n..n + |a|];
  }

  /** The request `follow_user` sent, if any, and whether it reports success. */
  datatype FollowCall = FollowCall(request: Option<(string, string)>, ok: bool)

  /** `follow_user(user_id)`: the POST goes to the user's URL with the home page's CSRF token; only 200 and 201 succeed. */
  function FollowUser(s: Session, userId: string, home: Result<Page>, reply: Result<string>): (r: FollowCall)
    ensures r.request.Some? <==> s.loggedIn && home.Ok?
    ensures r.request.Some? ==> r.request.value == (FollowUrl(userId), CsrfToken(home.value))
    ensures r.ok <==> s.loggedIn && home.Ok? && reply.Ok? && (reply.value == "200" || reply.value == "201")
  {
    if !s.loggedIn then FollowCall(None, false)
    else match home
      case Err(_) => FollowCall(None, false)
      case Ok(p) =>
        var request := Some((FollowUrl(userId), CsrfToken(p)));
        match reply
        case Err(_) => FollowCall(request, false)
        case Ok(code) => FollowCall(request, code == "200" || code == "201")
  }

  /** Drafts and follows need the flag: before a successful login nothing is posted. */
  lemma PostsNeedLogin(site: LoginSite, email: string, password: string, title: string, content: string,
                       userId: string, page: Result<Page>, draft: Result<Reply>, follow: Result<string>)
    requires !Login(NewSession, site, email, password).ok
    ensures var s := Login(NewSession, site, email, password).session;
      CreateDraft(s, title, content, page, draft) == DraftCall(None, None)
      && FollowUser(s, userId, page, follow) == FollowCall(None, false)
  {
  }

  /** After a successful login, a follow answered 201 succeeds. */
  lemma FollowAfterLogin(site: LoginSite, email: string, password: string, userId: string, home: Page)
    requires Submits(site) && site.submit.Ok? && LoggedInLanding(site.submit.value)
    ensures var s := Login(NewSession, site, email, password).session;
      FollowUser(s, userId, Ok(home), Ok("201")).ok
  {
  }

  // ---------------------------------------------------------------------------
  // User ids in profile URLs

  const Origin: string := "https://note.com"

  /** What `%r{https://note\.com/([^/]+)}` must see before its capture. */
  const ProfilePrefix: string := "https://note.com/"

  /** Number of leading characters that are not `/`. */
  function SegmentLength(s: string): (n: nat)
    ensures n <= |s|
    ensures forall i :: 0 <= i < n ==> s[i] != '/'
    ensures n < |s| ==> s[n] == '/'
  {
    if s == [] || s[0] == '/' then 0 else 1 + SegmentLength(s[1..])
  }

  /** The expression matches at `i`: the prefix, then at least one character that is not `/`. */
  predicate MatchAt(url: string, i: nat) {
    i + |ProfilePrefix| < |url| && url[i..i + |ProfilePrefix|] == ProfilePrefix && url[i + |ProfilePrefix|] != '/'
  }

  /** The leftmost position from `i` where the expression matches. */
  function FirstMatch(url: string, i: nat): (r: Option<nat>)
    ensures r.Some? ==> i <= r.value && MatchAt(url, r.value) && forall k :: i <= k < r.value ==> !MatchAt(url, k)
    ensures r.None? ==> forall k :: i <= k ==> !MatchAt(url, k)
    decreases |url| - i
  {
    if i + |ProfilePrefix| >= |url| then None
    else if MatchAt(url, i) then Some(i)
    else FirstMatch(url, i + 1)
  }

  /** `extract_user_id_from_url(url)`: the greedy `[^/]+` after the leftmost match. */
  function ExtractUserId(url: string): (r: Option<string>)
    ensures r.Some? ==> r.value != [] && '/' !in r.value && Contains(url, ProfilePrefix + r.value)
    ensures r.None? <==> forall k :: 0 <= k ==> !MatchAt(url, k)
  {
    match FirstMatch(url, 0)
    case None => None
    case Some(i) =>
      var tail := url[i + |ProfilePrefix|..];
      var id := tail[..SegmentLength(tail)];
      assert url[i..i + |ProfilePrefix| + |id|] == ProfilePrefix + id;
      ContainsInfix(url, ProfilePrefix + id, i);
      Some(id)
  }

  /** A profile URL, with or without a path after the user name, yields that user name. */
  lemma {:induction false} ProfileUserId(u: string, tail: string)
    requires u != [] && '/' !in u
    requires tail == [] || tail[0] == '/'
    ensures ExtractUserId(ProfilePrefix + u + tail) == Some(u)
  {
    var url := ProfilePrefix + u + tail;
    assert url[..|ProfilePrefix|] == ProfilePrefix;
    assert url[|ProfilePrefix|] == u[0];
    assert MatchAt(url, 0);
    var rest := url[|ProfilePrefix|..];
    assert rest == u + tail;
    assert SegmentLength(rest) == |u| by {
      assert forall i :: 0 <= i < |u| ==> rest[i] == u[i];
      assert |u| < |rest| ==> rest[|u|] == '/';
    }
    assert rest[..|u|] == u;
  }

  /** `author_url` made absolute when it does not start with `http`. */
  function Absolute(href: string): (url: string)
    ensures StartsWith(href, "http") ==> url == href
    ensures !StartsWith(href, "http") ==> url == Origin + href
  {
    if StartsWith(href, "http") then href else Origin + href
  }

  /** A root-relative profile link keeps its user name once made absolute. */
  lemma RelativeProfileUserId(u: string, tail: string)
    requires u != [] && '/' !in u
    requires tail == [] || tail[0] == '/'
    ensures ExtractUserId(Absolute("/" + u + tail)) == Some(u)
  {
    assert !StartsWith("/" + u + tail, "http") by {
      assert ("/" + u + tail)[0] == '/';
    }
    assert Origin + ("/" + u + tail) == ProfilePrefix + u + tail;
    ProfileUserId(u, tail);
  }

  // ---------------------------------------------------------------------------
  // User search

  /** A `.o-largeNoteSummary` node: its user-name node's text and the `href` of its first link containing `/`. */
  datatype Summary = Summary(author: Option<string>, href: Option<string>)

  datatype User = User(name: string, url: string, userId: Option<string>)

  /** The user a summary yields when it has both nodes. */
  function Author(n: Summary): (r: Option<User>)
    ensures r.Some? <==> n.author.Some? && n.href.Some?
    ensures r.Some? ==> r.value.url == Absolute(n.href.value) && r.value.userId == ExtractUserId(r.value.url)
    ensures r.Some? ==> r.value.name == Strip(n.author.value)
  {
    if n.author.Some? && n.href.Some? then
      var url := Absolute(n.href.value);
      Some(User(Strip(n.author.value), url, ExtractUserId(url)))
    else None
  }

  /** `users.uniq { |user| user[:user_id] }`, with the ids already seen: the first user of each id, in order. */
  function Uniq(us: seq<User>, seen: set<Option<string>>): (r: seq<User>)
    ensures |r| <= |us|
  {
    if us == [] then []
    else if us[0].userId in seen then Uniq(us[1..], seen)
    else [us[0]] + Uniq(us[1..], seen + {us[0].userId})
  }

  /** `a` is `b` with some elements left out. */
  predicate Subsequence(a: seq<User>, b: seq<User>)
    decreases |b|
  {
    a == [] || (b != [] && ((a[0] == b[0] && Subsequence(a[1..], b[1..])) || Subsequence(a, b[1..])))
  }

  /** The first user in `us` with the given id. */
  function FirstWithId(us: seq<User>, id: Option<string>): (r: Option<User>)
    ensures r.Some? ==> r.value in us && r.value.userId == id
    ensures r.None? ==> forall i :: 0 <= i < |us| ==> us[i].userId != id
  {
    if us == [] then None else if us[0].userId == id then Some(us[0]) else FirstWithId(us[1..], id)
  }

  /** `uniq` keeps the order and only the first user of each id not seen before; the ids it keeps are distinct. */
  lemma {:induction false} UniqKeepsFirsts(us: seq<User>, seen: set<Option<string>>)
    ensures Subsequence(Uniq(us, seen), us)
    ensures forall k :: 0 <= k < |Uniq(us, seen)| ==>
      Uniq(us, seen)[k].userId !in seen && FirstWithId(us, Uniq(us, seen)[k].userId) == Some(Uniq(us, seen)[k])
    ensures forall j, k :: 0 <= j < k < |Uniq(us, seen)| ==> Uniq(us, seen)[j].userId != Uniq(us, seen)[k].userId
  {
    if us != [] {
      var r := Uniq(us, seen);
      if us[0].userId in seen {
        UniqKeepsFirsts(us[1..], seen);
        forall k | 0 <= k < |r|
          ensures FirstWithId(us, r[k].userId) == Some(r[k])
        {
          assert r[k].userId != us[0].userId;
        }
      } else {
        var seen' := seen + {us[0].userId};
        UniqKeepsFirsts(us[1..], seen');
        var tail := Uniq(us[1..], seen');
        assert r[1..] == tail;
        forall k | 1 <= k < |r|
          ensures r[k].userId !in seen && FirstWithId(us, r[k].userId) == Some(r[k])
          ensures r[0].userId != r[k].userId
        {
          assert r[k] == tail[k - 1];
        }
      }
    }
  }

  /** Every id not seen before is kept. */
  lemma {:induction false} UniqKeepsEveryId(us: seq<User>, seen: set<Option<string>>)
    ensures forall i :: 0 <= i < |us| && us[i].userId !in seen ==>
      exists k :: 0 <= k < |Uniq(us, seen)| && Uniq(us, seen)[k].userId == us[i].userId
  {
    if us != [] {
      var r := Uniq(us, seen);
      if us[0].userId in seen {
        UniqKeepsEveryId(us[1..], seen);
        forall i | 1 <= i < |us| && us[i].userId !in seen
          ensures exists k :: 0 <= k < |r| && r[k].userId == us[i].userId
        {
          assert us[i] == us[1..][i - 1];
        }
      } else {
        var seen' := seen + {us[0].userId};
        UniqKeepsEveryId(us[1..], seen');
        var tail := Uniq(us[1..], seen');
        assert r == [us[0]] + tail;
        forall i | 0 <= i < |us| && us[i].userId !in seen
          ensures exists k :: 0 <= k < |r| && r[k].userId == us[i].userId
        {
          if us[i].userId == us[0].userId {
            assert r[0].userId == us[i].userId;
          } else {
            assert us[i] == us[1..][i - 1];
            var k :| 0 <= k < |tail| && tail[k].userId == us[i].userId;
            assert r[k + 1] == tail[k];
          }
        }
        assert forall i :: 0 <= i < |us| && us[i].userId !in seen ==> exists k :: 0 <= k < |r| && r[k].userId == us[i].userId;
        assert r == Uniq(us, seen);
      }
    }
  }

  /** `search_users(keyword)` with the search page's summaries (or the exception raised) as a parameter. */
  function SearchUsers(page: Result<seq<Summary>>): (r: seq<User>)
    ensures page.Err? ==> r == []
    ensures page.Ok? ==> |r| <= |page.value|
  {
    match page
    case Err(_) => []
    case Ok(nodes) => Uniq(MapFilter(Author, nodes), {})
  }

  /**
   * The users found are the summaries' authors with distinct ids, each the
   * first author of that id in page order, and every author's id is among them.
   */
  lemma SearchUsersFirstOfEachId(nodes: seq<Summary>)
    ensures var found := MapFilter(Author, nodes); var r := SearchUsers(Ok(nodes));
      Subsequence(r, found)
      && (forall k :: 0 <= k < |r| ==> FirstWithId(found, r[k].userId) == Some(r[k]))
      && (forall j, k :: 0 <= j < k < |r| ==> r[j].userId != r[k].userId)
      && (forall i :: 0 <= i < |found| ==> exists k :: 0 <= k < |r| && r[k].userId == found[i].userId)
  {
    UniqKeepsFirsts(MapFilter(Author, nodes), {});
    UniqKeepsEveryId(MapFilter(Author, nodes), {});
  }

  /** The URL of a user is absolute. */
  predicate AbsoluteUrl(u: User) {
    StartsWith(u.url, "http")
  }

  lemma AuthorUrlAbsolute(n: Summary)
    requires Author(n).Some?
    ensures AbsoluteUrl(Author(n).value)
  {
    AbsoluteStartsHttp(n.href.value);
  }

  lemma AbsoluteStartsHttp(href: string)
    ensures StartsWith(Absolute(href), "http")
  {
    if !StartsWith(href, "http") {
      assert Origin[..4] == "http";
      assert (Origin + href)[..4] == Origin[..4];
    }
  }

  /** Every URL the search returns is absolute. */
  lemma SearchUrlsAbsolute(nodes: seq<Summary>)
    ensures forall k :: 0 <= k < |SearchUsers(Ok(nodes))| ==> AbsoluteUrl(SearchUsers(Ok(nodes))[k])
  {
    var found := MapFilter(Author, nodes);
    forall i | 0 <= i < |nodes| && Author(nodes[i]).Some?
      ensures AbsoluteUrl(Author(nodes[i]).value)
    {
      AuthorUrlAbsolute(nodes[i]);
    }
    MapFilterAll(Author, nodes, AbsoluteUrl);
    UniqKeepsFirsts(found, {});
    var r := SearchUsers(Ok(nodes));
    forall k | 0 <= k < |r|
      ensures AbsoluteUrl(r[k])
    {
      assert r[k] in found;
      var i :| 0 <= i < |found| && found[i] == r[k];
    }
  }
}
