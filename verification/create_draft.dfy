/**
 * The serverless draft endpoint (api/create-draft.js): generate an article,
 * split it on `#`..`######` heading lines, send every section with a non-blank
 * body to the rewriter, reassemble with level-1 headings, ask for tags, and
 * type the result into the editor. Unlike the command-line generator it has no
 * retries and no validation: any failure becomes a 500 response.
 */
module CreateDraftApi {
  import opened JsText
  import opened Outcomes
  import opened MdSections
  import opened Retry

  // ---------------------------------------------------------------------------
  // Heading lines

  /**
   * The length of the match of `/^#{1,6}\s+/` at the start of `line`, or 0.
   * The hash run must be one to six long and be followed by `\s`; `\s+` is
   * greedy, so the match ends at the first non-space character.
   */
  function AtxMarker(line: string): (n: nat)
    ensures n <= |line|
    ensures n > 0 <==> 1 <= HashRun(line) <= 6 && HashRun(line) < |line| && IsSpace(line[HashRun(line)])
    ensures n > 0 ==> HashRun(line) < n && AllSpace(line[HashRun(line)..n]) && (n == |line| || !IsSpace(line[n]))
  {
    var h := HashRun(line);
    if 1 <= h <= 6 && h < |line| && IsSpace(line[h]) then h + SpaceRun(line[h..]) else 0
  }

  predicate IsHeadingLine(line: string) {
    AtxMarker(line) > 0
  }

  /** `line.replace(/^#{1,6}\s+/, '')` on a heading line. */
  function HeadingText(line: string): (t: string)
    requires IsHeadingLine(line)
    ensures line == line[..AtxMarker(line)] + t
    ensures t == [] || !IsSpace(t[0])
  {
    line[AtxMarker(line)..]
  }

  /** A line of the article as the split loop sees it: a heading line with its text, or a body line. */
  datatype Line = HeadingLine(text: string) | BodyLine(text: string)

  function Classify(line: string): (l: Line)
    ensures l.HeadingLine? <==> IsHeadingLine(line)
    ensures l.HeadingLine? ==> l.text == HeadingText(line)
    ensures l.BodyLine? ==> l.text == line
  {
    if IsHeadingLine(line) then HeadingLine(HeadingText(line)) else BodyLine(line)
  }

  /** A section: its heading text and the lines under it, each followed by `'\n'`. */
  datatype Part = Part(heading: string, body: string)

  // ---------------------------------------------------------------------------
  // splitSections (the nested one)

  /**
   * The loop over the classified lines from `i`, with `cur` the section being
   * built. A section is pushed only when its heading is non-empty, so the text
   * before the first heading and a heading line with nothing after its marker
   * are dropped together with their lines.
   */
  function Collect(lines: seq<Line>, i: nat, cur: Part): (r: seq<Part>)
    requires i <= |lines|
    ensures forall j :: 0 <= j < |r| ==> r[j].heading != ""
    decreases |lines| - i
  {
    var open := if cur.heading != "" then [cur] else [];
    if i == |lines| then open
    else if lines[i].HeadingLine? then open + Collect(lines, i + 1, Part(lines[i].text, ""))
    else Collect(lines, i + 1, Part(cur.heading, cur.body + lines[i].text + "\n"))
  }

  /** `raw.split('\n')`, each line classified. */
  function Lines(raw: string): (ls: seq<Line>)
    ensures |ls| == |Split(raw, '\n')|
  {
    MapSeq(Classify, Split(raw, '\n'))
  }

  /** `splitSections(raw)` in the request handler. */
  function SplitParts(raw: string): (r: seq<Part>)
    ensures forall j :: 0 <= j < |r| ==> r[j].heading != ""
  {
    Collect(Lines(raw), 0, Part("", ""))
  }

  /** The lines from `i` up to the next heading line, each followed by `'\n'`. */
  function BodyFrom(lines: seq<Line>, i: nat): (b: string)
    requires i <= |lines|
    decreases |lines| - i
  {
    if i == |lines| || lines[i].HeadingLine? then "" else lines[i].text + "\n" + BodyFrom(lines, i + 1)
  }

  /**
   * The reference reading of the split: one section per heading line from `i`
   * on whose heading text is non-empty, holding the lines up to the next
   * heading line.
   */
  function Sections(lines: seq<Line>, i: nat): (r: seq<Part>)
    requires i <= |lines|
    decreases |lines| - i
  {
    if i == |lines| then []
    else if lines[i].HeadingLine? && lines[i].text != "" then
      [Part(lines[i].text, BodyFrom(lines, i + 1))] + Sections(lines, i + 1)
    else Sections(lines, i + 1)
  }

  /** The section under construction with the rest of its lines, if it is pushed at all. */
  function Opened(cur: Part, rest: string): seq<Part> {
    if cur.heading != "" then [Part(cur.heading, cur.body + rest)] else []
  }

  /** The section under construction receives the rest of its lines; the others follow the reference. */
  lemma {:induction false} CollectIsSections(lines: seq<Line>, i: nat, cur: Part)
    requires i <= |lines|
    ensures Collect(lines, i, cur) == Opened(cur, BodyFrom(lines, i)) + Sections(lines, i)
    decreases |lines| - i
  {
    if i == |lines| {
      assert cur.body + "" == cur.body;
    } else if lines[i].HeadingLine? {
      CollectIsSections(lines, i + 1, Part(lines[i].text, ""));
      HeadingStep(lines, i, cur);
    } else {
      var next := Part(cur.heading, cur.body + lines[i].text + "\n");
      CollectIsSections(lines, i + 1, next);
      BodyStep(cur, lines[i].text, BodyFrom(lines, i + 1));
    }
  }

  /** At a heading line the current section is complete and the new one starts empty. */
  lemma HeadingStep(lines: seq<Line>, i: nat, cur: Part)
    requires i < |lines| && lines[i].HeadingLine?
    ensures Opened(cur, BodyFrom(lines, i)) == (if cur.heading != "" then [cur] else [])
    ensures Opened(Part(lines[i].text, ""), BodyFrom(lines, i + 1)) + Sections(lines, i + 1) == Sections(lines, i)
  {
    assert cur.body + "" == cur.body;
    assert "" + BodyFrom(lines, i + 1) == BodyFrom(lines, i + 1);
  }

  /** A body line moves from the rest of the section into the section under construction. */
  lemma BodyStep(cur: Part, line: string, rest: string)
    ensures Opened(Part(cur.heading, cur.body + line + "\n"), rest) == Opened(cur, line + "\n" + rest)
  {
    assert cur.body + line + "\n" + rest == cur.body + (line + "\n" + rest);
  }

  /**
   * The split is the reference reading of the whole text: in particular the
   * text before the first heading line never reaches a section.
   */
  lemma SplitPartsAreSections(raw: string)
    ensures SplitParts(raw) == Sections(Lines(raw), 0)
  {
    CollectIsSections(Lines(raw), 0, Part("", ""));
  }

  /** A text without heading lines has no sections. */
  lemma {:induction false} NoHeadingNoSections(lines: seq<Line>, i: nat)
    requires i <= |lines|
    requires forall k :: i <= k < |lines| ==> lines[k].BodyLine?
    ensures Sections(lines, i) == []
    decreases |lines| - i
  {
    if i < |lines| {
      NoHeadingNoSections(lines, i + 1);
    }
  }

  // ---------------------------------------------------------------------------
  // Reassembly

  /** `section.body.trim()` is truthy exactly when the body is not all `\s` (see `TrimEmptyIff`). */
  predicate Wanted(p: Part) {
    !AllSpace(p.body)
  }

  /** The sections from `i` on that are sent to the rewriter, in order. */
  function WantedFrom(parts: seq<Part>, i: nat): (w: seq<nat>)
    requires i <= |parts|
    ensures forall j :: 0 <= j < |w| ==> i <= w[j] < |parts| && Wanted(parts[w[j]])
    decreases |parts| - i
  {
    if i == |parts| then [] else (if Wanted(parts[i]) then [i] else []) + WantedFrom(parts, i + 1)
  }

  /** The reassembled text (or the first rewrite error) and the sections sent to the rewriter. */
  datatype Improved = Improved(outcome: Result<string>, called: seq<nat>)

  function Prepend(s: string, r: Result<string>): (q: Result<string>)
    ensures q.Ok? <==> r.Ok?
    ensures q.Ok? ==> q.value == s + r.value
    ensures q.Err? ==> q == r
  {
    match r
    case Ok(v) => Ok(s + v)
    case Err(m) => Err(m)
  }

  /** `'# ' + heading + '\n\n'`. */
  function HeadingBlock(p: Part): string {
    "# " + p.heading + "\n\n"
  }

  /**
   * The loop building `improvedContent` from section `i`: the heading, then
   * (for a non-blank body) the rewriter's answer and a blank line. The
   * rewriter has no retry, so its first failure ends the request.
   */
  function Improve(parts: seq<Part>, rewrite: nat -> Reply, i: nat): (r: Improved)
    requires i <= |parts|
    ensures |r.called| <= |parts| - i
    decreases |parts| - i
  {
    if i == |parts| then Improved(Ok(""), [])
    else if !Wanted(parts[i]) then
      var rest := Improve(parts, rewrite, i + 1);
      Improved(Prepend(HeadingBlock(parts[i]), rest.outcome), rest.called)
    else
      match rewrite(i)
      case Failure(e) => Improved(Err(e), [i])
      case Message(c) =>
        var rest := Improve(parts, rewrite, i + 1);
        Improved(Prepend(HeadingBlock(parts[i]) + c + "\n\n", rest.outcome), [i] + rest.called)
  }

  /** Every listed section got an answer from the rewriter. */
  predicate Answered(rewrite: nat -> Reply, w: seq<nat>) {
    forall j :: 0 <= j < |w| ==> rewrite(w[j]).Message?
  }

  lemma AnsweredCons(rewrite: nat -> Reply, x: nat, w: seq<nat>)
    ensures Answered(rewrite, [x] + w) <==> rewrite(x).Message? && Answered(rewrite, w)
  {
    if rewrite(x).Message? && Answered(rewrite, w) {
      forall j | 0 <= j < |[x] + w|
        ensures rewrite(([x] + w)[j]).Message?
      {
        if j > 0 {
          assert ([x] + w)[j] == w[j - 1];
        }
      }
    }
    if Answered(rewrite, [x] + w) {
      assert ([x] + w)[0] == x;
      forall j | 0 <= j < |w|
        ensures rewrite(w[j]).Message?
      {
        assert ([x] + w)[j + 1] == w[j];
      }
    }
  }

  lemma WantedStep(parts: seq<Part>, i: nat)
    requires i < |parts|
    ensures WantedFrom(parts, i) == (if Wanted(parts[i]) then [i] else []) + WantedFrom(parts, i + 1)
  {
  }

  /** One section of the loop, when it does not end it: what it adds to the calls, and the outcome kept from the rest. */
  lemma ImproveStep(parts: seq<Part>, rewrite: nat -> Reply, i: nat)
    requires i < |parts|
    requires Wanted(parts[i]) ==> rewrite(i).Message?
    ensures Improve(parts, rewrite, i).called ==
      (if Wanted(parts[i]) then [i] else []) + Improve(parts, rewrite, i + 1).called
    ensures Improve(parts, rewrite, i).outcome.Ok? == Improve(parts, rewrite, i + 1).outcome.Ok?
    ensures Improve(parts, rewrite, i).outcome.Err? ==> Improve(parts, rewrite, i).outcome == Improve(parts, rewrite, i + 1).outcome
  {
  }

  /**
   * The rewriter is asked about the wanted sections in order: when every one
   * of them is answered, each is asked once and the reassembly succeeds.
   */
  lemma {:induction false} ImproveAllCalled(parts: seq<Part>, rewrite: nat -> Reply, i: nat)
    requires i <= |parts|
    requires Answered(rewrite, WantedFrom(parts, i))
    ensures Improve(parts, rewrite, i).outcome.Ok?
    ensures Improve(parts, rewrite, i).called == WantedFrom(parts, i)
    decreases |parts| - i
  {
    if i < |parts| {
      var w := WantedFrom(parts, i + 1);
      assert Answered(rewrite, w) && (Wanted(parts[i]) ==> rewrite(i).Message?) by {
        WantedStep(parts, i);
        if Wanted(parts[i]) {
          AnsweredCons(rewrite, i, w);
        } else {
          assert WantedFrom(parts, i) == w;
        }
      }
      ImproveAllCalled(parts, rewrite, i + 1);
      ImproveStep(parts, rewrite, i);
    }
  }

  /**
   * Otherwise the calls stop at the first wanted section whose rewrite fails,
   * and its reason is the error.
   */
  lemma {:induction false} ImproveStopsAtFailure(parts: seq<Part>, rewrite: nat -> Reply, i: nat, n: nat)
    requires i <= |parts|
    requires n < |WantedFrom(parts, i)| && rewrite(WantedFrom(parts, i)[n]).Failure?
    requires Answered(rewrite, WantedFrom(parts, i)[..n])
    ensures Improve(parts, rewrite, i).outcome == Err(rewrite(WantedFrom(parts, i)[n]).reason)
    ensures Improve(parts, rewrite, i).called == WantedFrom(parts, i)[..n + 1]
    decreases |parts| - i, 1
  {
    WantedStep(parts, i);
    if !Wanted(parts[i]) {
      StopsPastSkipped(parts, rewrite, i, n);
    } else if n == 0 {
      assert WantedFrom(parts, i)[0] == i;
      assert WantedFrom(parts, i)[..1] == [i];
    } else {
      StopsPastAnswered(parts, rewrite, i, n);
    }
  }

  /** A section with a blank body is passed over. */
  lemma {:induction false} StopsPastSkipped(parts: seq<Part>, rewrite: nat -> Reply, i: nat, n: nat)
    requires i < |parts| && !Wanted(parts[i])
    requires n < |WantedFrom(parts, i)| && rewrite(WantedFrom(parts, i)[n]).Failure?
    requires Answered(rewrite, WantedFrom(parts, i)[..n])
    ensures Improve(parts, rewrite, i).outcome == Err(rewrite(WantedFrom(parts, i)[n]).reason)
    ensures Improve(parts, rewrite, i).called == WantedFrom(parts, i)[..n + 1]
    decreases |parts| - i, 0
  {
    WantedStep(parts, i);
    assert WantedFrom(parts, i) == WantedFrom(parts, i + 1);
    ImproveStopsAtFailure(parts, rewrite, i + 1, n);
    ImproveStep(parts, rewrite, i);
  }

  /** A wanted section before the failing one is answered and recorded as called. */
  lemma {:induction false} StopsPastAnswered(parts: seq<Part>, rewrite: nat -> Reply, i: nat, n: nat)
    requires i < |parts| && Wanted(parts[i]) && n > 0
    requires n < |WantedFrom(parts, i)| && rewrite(WantedFrom(parts, i)[n]).Failure?
    requires Answered(rewrite, WantedFrom(parts, i)[..n])
    ensures Improve(parts, rewrite, i).outcome == Err(rewrite(WantedFrom(parts, i)[n]).reason)
    ensures Improve(parts, rewrite, i).called == WantedFrom(parts, i)[..n + 1]
    decreases |parts| - i, 0
  {
    var w := WantedFrom(parts, i + 1);
    var W := WantedFrom(parts, i);
    assert W == [i] + w by {
      WantedStep(parts, i);
    }
    ConsPrefix(i, w, n - 1);
    assert rewrite(i).Message? && Answered(rewrite, w[..n - 1]) by {
      AnsweredCons(rewrite, i, w[..n - 1]);
    }
    ImproveStopsAtFailure(parts, rewrite, i + 1, n - 1);
    ImproveStep(parts, rewrite, i);
  }

  lemma ConsPrefix(x: nat, w: seq<nat>, m: nat)
    requires m < |w|
    ensures ([x] + w)[m + 1] == w[m]
    ensures ([x] + w)[..m + 1] == [x] + w[..m]
    ensures ([x] + w)[..m + 2] == [x] + w[..m + 1]
  {
  }

  /** Every heading reaches the reassembled text as a level-1 heading line. */
  lemma {:induction false} ImproveKeepsHeadings(parts: seq<Part>, rewrite: nat -> Reply, i: nat, k: nat)
    requires i <= k < |parts|
    requires Improve(parts, rewrite, i).outcome.Ok?
    ensures Contains(Improve(parts, rewrite, i).outcome.value, HeadingBlock(parts[k]))
    decreases |parts| - i
  {
    var r := Improve(parts, rewrite, i);
    var rest := Improve(parts, rewrite, i + 1);
    var lead := if Wanted(parts[i]) then HeadingBlock(parts[i]) + rewrite(i).content + "\n\n" else HeadingBlock(parts[i]);
    assert r.outcome.value == lead + rest.outcome.value;
    if k == i {
      assert lead + rest.outcome.value == HeadingBlock(parts[i]) + (lead[|HeadingBlock(parts[i])|..] + rest.outcome.value);
      ContainsInfix(r.outcome.value, HeadingBlock(parts[k]), 0);
    } else {
      ImproveKeepsHeadings(parts, rewrite, i + 1, k);
      ContainsAppendRight(lead, rest.outcome.value, HeadingBlock(parts[k]));
    }
  }

  // ---------------------------------------------------------------------------
  // The handler

  /** The environment variables, `""` standing for unset (both are falsy). */
  datatype Env = Env(apiKey: string, email: string, password: string)

  /**
   * The generator's answers: the article, the rewrites (by section index) and
   * the tags; `browser` is the error of the first browser step that throws
   * (launch, login, navigation, typing, or the save-button query, whose
   * `:contains` selector a browser rejects), if any.
   */
  datatype Oracles = Oracles(article: Reply, rewrite: nat -> Reply, tags: Reply, browser: Option<string>)

  datatype Body = NotAllowed | Errored(error: string) | Created(title: string, contentLength: nat, tags: string)

  datatype Response = Response(status: nat, body: Body)

  const NoApiKey: string := "OPENROUTER_API_KEY is not set"
  const NoCredentials: string := "NOTE_EMAIL or NOTE_PASSWORD is not set"

  predicate Allowed(verb: string) {
    verb == "GET" || verb == "POST"
  }

  /** `${topic} - ${pattern}`. */
  function DraftTitle(topic: string, pattern: string): (t: string)
    ensures |t| == |topic| + 3 + |pattern| && t[..|topic|] == topic && t[|topic| + 3..] == pattern
  {
    topic + " - " + pattern
  }

  /** The generated article turned into the draft text, or the error that ends the request. */
  function Content(o: Oracles): (r: Result<string>)
    ensures o.article.Failure? ==> r == Err(o.article.reason)
  {
    match o.article
    case Failure(e) => Err(e)
    case Message(raw) => Improve(SplitParts(raw), o.rewrite, 0).outcome
  }

  /**
   * `handler(req, res)` with the request verb, the random topic and pattern as parameters. The
   * title is typed as `${topic} - ${pattern}`; a missing save button is
   * ignored, so only the steps that throw decide the status. In a browser
   * the save-button query is one of them on every request.
   */
  function Handle(verb: string, env: Env, topic: string, pattern: string, o: Oracles): (r: Response)
    ensures r.status == 405 <==> !Allowed(verb)
    ensures r.status == 405 ==> r.body == NotAllowed
    ensures r.status in {200, 405, 500}
    ensures Allowed(verb) && env.apiKey == "" ==> r == Response(500, Errored(NoApiKey))
    ensures Allowed(verb) && env.apiKey != "" && (env.email == "" || env.password == "") ==>
      r == Response(500, Errored(NoCredentials))
    ensures r.status == 200 <==>
      Allowed(verb) && env.apiKey != "" && env.email != "" && env.password != ""
      && Content(o).Ok? && o.tags.Message? && o.browser.None?
    ensures r.status == 200 ==>
      r.body == Created(DraftTitle(topic, pattern), Utf16Length(Content(o).value), o.tags.content)
    ensures r.status == 500 ==> r.body.Errored?
  {
    if !Allowed(verb) then Response(405, NotAllowed)
    else if env.apiKey == "" then Response(500, Errored(NoApiKey))
    else if env.email == "" || env.password == "" then Response(500, Errored(NoCredentials))
    else
      match Content(o)
      case Err(e) => Response(500, Errored(e))
      case Ok(text) =>
        if o.tags.Failure? then Response(500, Errored(o.tags.reason))
        else if o.browser.Some? then Response(500, Errored(o.browser.value))
        else Response(200, Created(DraftTitle(topic, pattern), Utf16Length(text), o.tags.content))
  }

  /**
   * A rewrite failure on a section with a non-blank body becomes the 500
   * error, provided every earlier such section was rewritten.
   */
  lemma HandleRewriteFailure(verb: string, env: Env, topic: string, pattern: string, o: Oracles, n: nat)
    requires Allowed(verb) && env.apiKey != "" && env.email != "" && env.password != ""
    requires o.article.Message?
    requires var w := WantedFrom(SplitParts(o.article.content), 0);
      n < |w| && o.rewrite(w[n]).Failure? && Answered(o.rewrite, w[..n])
    ensures Handle(verb, env, topic, pattern, o) ==
      Response(500, Errored(o.rewrite(WantedFrom(SplitParts(o.article.content), 0)[n]).reason))
  {
    ImproveStopsAtFailure(SplitParts(o.article.content), o.rewrite, 0, n);
  }

  /** With every non-blank section rewritten, tags generated and the browser steps passing, the request succeeds. */
  lemma HandleSucceeds(verb: string, env: Env, topic: string, pattern: string, o: Oracles)
    requires Allowed(verb) && env.apiKey != "" && env.email != "" && env.password != ""
    requires o.article.Message? && Answered(o.rewrite, WantedFrom(SplitParts(o.article.content), 0))
    requires o.tags.Message? && o.browser.None?
    ensures Handle(verb, env, topic, pattern, o).status == 200
    ensures Handle(verb, env, topic, pattern, o).body.title == DraftTitle(topic, pattern)
  {
    ImproveAllCalled(SplitParts(o.article.content), o.rewrite, 0);
  }
}
