/**
 * The serverless workflow's article step: its line-based title extraction
 * (the first trimmed `# ` line gives the title, every `# ` line leaves the
 * body) and the checks `run` makes before it launches a browser.
 */
module Pipedream {
  import opened JsText
  import opened Outcomes

  /** A trimmed line that the workflow treats as a level-one heading. */
  predicate IsH1(line: string) {
    StartsWith(line, "# ")
  }

  /** Every line trimmed, as the loop does before looking at a line. */
  function TrimAll(lines: seq<string>): (r: seq<string>)
    ensures |r| == |lines|
  {
    MapSeq(Trim, lines)
  }

  lemma TrimAllAt(lines: seq<string>)
    ensures forall i :: 0 <= i < |lines| ==> TrimAll(lines)[i] == Trim(lines[i])
  {
    forall i | 0 <= i < |lines|
      ensures TrimAll(lines)[i] == Trim(lines[i])
    {
      MapSeqAt(Trim, lines, i);
    }
  }

  /** Trimmed lines hold no line break when the raw lines hold none. */
  lemma TrimAllKeepsOut(lines: seq<string>)
    requires forall i :: 0 <= i < |lines| ==> '\n' !in lines[i]
    ensures forall i :: 0 <= i < |TrimAll(lines)| ==> '\n' !in TrimAll(lines)[i]
  {
    TrimAllAt(lines);
    forall i | 0 <= i < |lines|
      ensures '\n' !in Trim(lines[i])
    {
      TrimKeepsOut(lines[i], '\n');
    }
  }

  /** A trimmed line does not end in `\\s`. */
  lemma TrimAllTrimmed(lines: seq<string>)
    ensures AllTrimmed(TrimAll(lines))
  {
    TrimAllAt(lines);
  }

  predicate AllTrimmed(lines: seq<string>) {
    forall i :: 0 <= i < |lines| ==> lines[i] == [] || !IsSpace(lines[i][|lines[i]| - 1])
  }

  /**
   * The extraction loop over the trimmed lines, one line at a time: `title`
   * and `body` are the values built so far. The first `# ` line sets the
   * title (and is skipped); later `# ` lines are skipped; every other line
   * goes to the body followed by a line break.
   */
  function Scan(lines: seq<string>, title: string, body: string): (r: (string, string))
  {
    if lines == [] then (title, body)
    else
      var line := lines[0];
      if title == "" && IsH1(line) then Scan(lines[1..], line[2..], body)
      else if !IsH1(line) then Scan(lines[1..], title, body + line + "\n")
      else Scan(lines[1..], title, body)
  }

  /** The first `# ` heading line. */
  function FirstH1(lines: seq<string>): (r: Option<nat>)
    ensures r.Some? ==> r.value < |lines| && IsH1(lines[r.value])
    ensures r.Some? ==> forall j :: 0 <= j < r.value ==> !IsH1(lines[j])
    ensures r.None? ==> forall j :: 0 <= j < |lines| ==> !IsH1(lines[j])
  {
    if lines == [] then None
    else if IsH1(lines[0]) then Some(0)
    else
      var r := FirstH1(lines[1..]);
      if r.None? then None else Some(r.value + 1)
  }

  /** The lines that are not `# ` headings, in order. */
  function BodyLines(lines: seq<string>): (r: seq<string>)
    ensures |r| <= |lines|
  {
    Filter(NotH1, lines)
  }

  predicate NotH1(line: string) {
    !IsH1(line)
  }

  /** The kept lines are the input's lines that are not `# ` headings, and every such line is kept. */
  lemma BodyLinesKeep(lines: seq<string>)
    ensures forall i :: 0 <= i < |BodyLines(lines)| ==> !IsH1(BodyLines(lines)[i]) && BodyLines(lines)[i] in lines
    ensures forall j :: 0 <= j < |lines| && !IsH1(lines[j]) ==> lines[j] in BodyLines(lines)
  {
    FilterKeeps(NotH1, lines);
    FilterComplete(NotH1, lines);
  }

  /** The title a trimmed `# ` heading line gives: the line without its marker, never empty. */
  function H1Title(line: string): (t: string)
    requires IsH1(line) && !IsSpace(line[|line| - 1])
    ensures t != [] && line == "# " + t
  {
    assert line[1] == ' ';
    line[2..]
  }

  /** Once the title is set, the loop only adds to the body. */
  lemma {:induction false} ScanTitled(lines: seq<string>, title: string, body: string)
    requires title != []
    ensures Scan(lines, title, body) == (title, body + Terminated(BodyLines(lines), '\n'))
  {
    if lines != [] {
      if IsH1(lines[0]) {
        ScanTitled(lines[1..], title, body);
      } else {
        ScanTitled(lines[1..], title, body + lines[0] + "\n");
        KeptStep(lines);
        assert Scan(lines, title, body) == Scan(lines[1..], title, body + lines[0] + "\n");
        AppendLine(body, lines[0], Terminated(BodyLines(lines[1..]), '\n'));
      }
    } else {
      assert body + "" == body;
    }
  }

  lemma AppendLine(body: string, line: string, t: string)
    ensures body + line + "\n" + t == body + (line + "\n" + t)
  {
  }

  lemma KeptStep(lines: seq<string>)
    requires lines != [] && !IsH1(lines[0])
    ensures Terminated(BodyLines(lines), '\n') == lines[0] + "\n" + Terminated(BodyLines(lines[1..]), '\n')
  {
    var rest := BodyLines(lines[1..]);
    assert BodyLines(lines) == [lines[0]] + rest;
    assert ([lines[0]] + rest)[1..] == rest;
  }

  /** The loop's title is the first heading's title, or empty when there is none. */
  lemma {:induction false} ScanTitle(lines: seq<string>, body: string)
    requires AllTrimmed(lines)
    ensures Scan(lines, "", body).0 == (match FirstH1(lines) case Some(k) => H1Title(lines[k]) case None => "")
  {
    if lines != [] {
      if IsH1(lines[0]) {
        ScanTitled(lines[1..], H1Title(lines[0]), body);
      } else {
        assert AllTrimmed(lines[1..]) by {
          assert forall i :: 0 <= i < |lines[1..]| ==> lines[1..][i] == lines[i + 1];
        }
        ScanTitle(lines[1..], body + lines[0] + "\n");
        var r := FirstH1(lines[1..]);
        if r.Some? {
          assert lines[r.value + 1] == lines[1..][r.value];
        }
      }
    }
  }

  /** The loop's body is the kept lines, each followed by a line break. */
  lemma {:induction false} ScanBody(lines: seq<string>, body: string)
    requires AllTrimmed(lines)
    ensures Scan(lines, "", body).1 == body + Terminated(BodyLines(lines), '\n')
  {
    if lines != [] {
      if IsH1(lines[0]) {
        ScanTitled(lines[1..], H1Title(lines[0]), body);
      } else {
        assert AllTrimmed(lines[1..]) by {
          assert forall i :: 0 <= i < |lines[1..]| ==> lines[1..][i] == lines[i + 1];
        }
        ScanBody(lines[1..], body + lines[0] + "\n");
        KeptStep(lines);
        assert Scan(lines, "", body) == Scan(lines[1..], "", body + lines[0] + "\n");
        AppendLine(body, lines[0], Terminated(BodyLines(lines[1..]), '\n'));
      }
    } else {
      assert body + "" == body;
    }
  }

  datatype Extracted = Extracted(title: string, filtered: string)

  /** `extractTitleAndFilterH1(article)` of the workflow. */
  function ExtractLines(article: string): (r: Extracted)
    ensures var lines := TrimAll(Split(article, '\n'));
      (FirstH1(lines).Some? ==> "# " + r.title == lines[FirstH1(lines).value])
      && (FirstH1(lines).None? ==> r.title == lines[0])
      && r.filtered == Trim(Terminated(BodyLines(lines), '\n'))
  {
    var lines := TrimAll(Split(article, '\n'));
    TrimAllTrimmed(Split(article, '\n'));
    ScanTitle(lines, "");
    ScanBody(lines, "");
    assert "" + Terminated(BodyLines(lines), '\n') == Terminated(BodyLines(lines), '\n');
    var (title, body) := Scan(lines, "", "");
    Extracted(if title == "" then lines[0] else title, Trim(body))
  }

  /**
   * The title is the first `# ` line without its marker, or else the trimmed
   * first line; the filtered article is the trim of the kept lines, each
   * followed by a line break.
   */
  lemma ExtractLinesSpec(article: string)
    ensures var lines := TrimAll(Split(article, '\n'));
      var r := ExtractLines(article);
      (FirstH1(lines).Some? ==> "# " + r.title == lines[FirstH1(lines).value])
      && (FirstH1(lines).None? ==> r.title == lines[0])
      && r.filtered == Trim(Terminated(BodyLines(lines), '\n'))
  {
    var lines := TrimAll(Split(article, '\n'));
    TrimAllTrimmed(Split(article, '\n'));
    ScanTitle(lines, "");
    ScanBody(lines, "");
    assert "" + Terminated(BodyLines(lines), '\n') == Terminated(BodyLines(lines), '\n');
  }

  /**
   * Before the final trim, the body's lines are exactly the kept lines: no
   * `# ` heading among them, and every `##` or `###` heading survives.
   */
  lemma BodyLinesSplit(article: string)
    ensures var lines := TrimAll(Split(article, '\n'));
      Split(Terminated(BodyLines(lines), '\n'), '\n') == BodyLines(lines) + [""]
      && (forall i :: 0 <= i < |BodyLines(lines)| ==> !IsH1(BodyLines(lines)[i]))
      && (forall j :: 0 <= j < |lines| && StartsWith(lines[j], "##") ==> lines[j] in BodyLines(lines))
  {
    var lines := TrimAll(Split(article, '\n'));
    TrimAllKeepsOut(Split(article, '\n'));
    KeptLinesSplit(lines);
    BodyLinesKeep(lines);
  }

  lemma KeptLinesSplit(lines: seq<string>)
    requires forall i :: 0 <= i < |lines| ==> '\n' !in lines[i]
    ensures Split(Terminated(BodyLines(lines), '\n'), '\n') == BodyLines(lines) + [""]
    ensures forall j :: 0 <= j < |lines| && StartsWith(lines[j], "##") ==> lines[j] in BodyLines(lines)
  {
    var kept := BodyLines(lines);
    BodyLinesKeep(lines);
    forall i | 0 <= i < |kept|
      ensures '\n' !in kept[i]
    {
      var j :| 0 <= j < |lines| && lines[j] == kept[i];
    }
    SplitTerminated(kept, '\n');
    forall j | 0 <= j < |lines| && StartsWith(lines[j], "##")
      ensures !IsH1(lines[j])
    {
      assert lines[j][1] == '#';
    }
  }

  // ---------------------------------------------------------------------------
  // `run`, up to the browser

  /** An environment variable; JavaScript treats a missing and an empty one alike. */
  predicate Unset(v: Option<string>) {
    v.None? || v.value == ""
  }

  datatype Report = Report(title: string, topic: string, pattern: string, contentLength: nat)

  /** What `run` did: its outcome, and whether it got as far as launching a browser. */
  datatype RunTrace = RunTrace(outcome: Result<Report>, launched: bool)

  const ApiKeyMissing: string := "OPENROUTER_API_KEY is not set"
  const CredentialsMissing: string := "NOTE_EMAIL or NOTE_PASSWORD is not set"
  const ArticleTooShort: string := "AI記事生成に失敗、または内容が不十分です。"

  /**
   * `run` with the chosen topic and pattern, the generator's outcome and the
   * browser session's outcome as parameters. Every error is rethrown.
   */
  function Run(apiKey: Option<string>, email: Option<string>, password: Option<string>,
               topic: string, pattern: string, generated: Result<string>, browser: Result<()>): (t: RunTrace)
    ensures t.launched ==> !Unset(apiKey) && !Unset(email) && !Unset(password)
    ensures t.launched ==> generated.Ok? && Utf16Length(generated.value) >= 30
    ensures t.outcome.Ok? <==> t.launched && browser.Ok?
  {
    if Unset(apiKey) then RunTrace(Err(ApiKeyMissing), false)
    else if Unset(email) || Unset(password) then RunTrace(Err(CredentialsMissing), false)
    else if generated.Err? then RunTrace(Err(generated.message), false)
    else if generated.value == "" || Utf16Length(generated.value) < 30 then RunTrace(Err(ArticleTooShort), false)
    else
      var x := ExtractLines(generated.value);
      if browser.Err? then RunTrace(Err(browser.message), true)
      else RunTrace(Ok(Report(x.title, topic, pattern, Utf16Length(x.filtered))), true)
  }

  /** The checks come in order: the API key first, then the credentials, then the article. */
  lemma RunChecksInOrder(apiKey: Option<string>, email: Option<string>, password: Option<string>,
                         topic: string, pattern: string, generated: Result<string>, browser: Result<()>)
    ensures Unset(apiKey) ==> Run(apiKey, email, password, topic, pattern, generated, browser).outcome == Err(ApiKeyMissing)
    ensures !Unset(apiKey) && (Unset(email) || Unset(password)) ==>
      Run(apiKey, email, password, topic, pattern, generated, browser).outcome == Err(CredentialsMissing)
    ensures !Unset(apiKey) && !Unset(email) && !Unset(password) && generated.Ok? && Utf16Length(generated.value) < 30 ==>
      Run(apiKey, email, password, topic, pattern, generated, browser).outcome == Err(ArticleTooShort)
  {
  }
}
