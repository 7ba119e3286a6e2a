/**
 * The lightweight cron endpoint: it asks the generator for a dated article,
 * splits the reply into a title and content line by line, and answers with
 * the title and a 200-unit preview.
 */
module LightweightCron {
  import opened JsText
  import opened Outcomes

  // ---------------------------------------------------------------------------
  // `line.replace(/.*[:：]\s*/i, '')`

  predicate IsColon(c: char) {
    c == ':' || c == '：'
  }

  /** The first colon of either width. */
  function FirstColon(s: string): (r: Option<nat>)
    ensures r.Some? ==> r.value < |s| && IsColon(s[r.value])
    ensures r.Some? ==> forall m :: 0 <= m < r.value ==> !IsColon(s[m])
    ensures r.None? ==> forall m :: 0 <= m < |s| ==> !IsColon(s[m])
  {
    if s == [] then None
    else if IsColon(s[0]) then Some(0)
    else
      var r := FirstColon(s[1..]);
      if r.None? then None else Some(r.value + 1)
  }

  /** The start of the line (run without line terminators) that holds position `j`. */
  function RunStart(s: string, j: nat): (i: nat)
    requires j <= |s|
    ensures i <= j && (i == 0 || IsLineTerminator(s[i - 1]))
    ensures forall m :: i <= m < j ==> !IsLineTerminator(s[m])
  {
    if j == 0 || IsLineTerminator(s[j - 1]) then j else RunStart(s, j - 1)
  }

  /** The end of the line (run without line terminators) that holds position `j`. */
  function LineEnd(s: string, j: nat): (e: nat)
    requires j <= |s|
    ensures j <= e <= |s| && (e == |s| || IsLineTerminator(s[e]))
    ensures forall m :: j <= m < e ==> !IsLineTerminator(s[m])
    decreases |s| - j
  {
    if j == |s| || IsLineTerminator(s[j]) then j else LineEnd(s, j + 1)
  }

  /** The end of the run of `\s` that starts at `i`. */
  function SpaceEnd(s: string, i: nat): (e: nat)
    requires i <= |s|
    ensures i <= e <= |s| && (e == |s| || !IsSpace(s[e]))
    ensures forall m :: i <= m < e ==> IsSpace(s[m])
    decreases |s| - i
  {
    if i == |s| || !IsSpace(s[i]) then i else SpaceEnd(s, i + 1)
  }

  /** The last colon in `s[lo..hi]`, where `s[lo]` is one. */
  function LastColonIn(s: string, lo: nat, hi: nat): (k: nat)
    requires lo < hi <= |s| && IsColon(s[lo])
    ensures lo <= k < hi && IsColon(s[k])
    ensures forall m :: k < m < hi ==> !IsColon(s[m])
    decreases hi - lo
  {
    if IsColon(s[hi - 1]) then hi - 1 else LastColonIn(s, lo, hi - 1)
  }

  /**
   * The text with the leftmost match of `.*[:：]\s*` removed. `.` does not
   * match a line terminator, so the match starts at the line holding the
   * first colon; `.*` is greedy, so it runs to that line's last colon, and
   * `\s*` then takes every following whitespace character.
   */
  function StripLabel(s: string): string {
    match FirstColon(s)
    case None => s
    case Some(j) => LabelCut(s, j)
  }

  /** The cut once the first colon `j` is known. */
  function LabelCut(s: string, j: nat): string
    requires j < |s| && IsColon(s[j])
  {
    CutFrom(s, RunStart(s, j), LastColonIn(s, j, LineEnd(s, j)))
  }

  /** The text without `s[i..k]`, the colon at `k` and the whitespace after it. */
  function CutFrom(s: string, i: nat, k: nat): string
    requires i <= k < |s|
  {
    s[..i] + s[SpaceEnd(s, k + 1)..]
  }

  /** Without a colon nothing is removed. */
  lemma StripLabelNoColon(s: string)
    requires forall m :: 0 <= m < |s| ==> !IsColon(s[m])
    ensures StripLabel(s) == s
  {
  }

  /**
   * On one line with a colon, what remains is the text after the last colon
   * and the whitespace that follows it: a suffix with no colon that does not
   * start with whitespace.
   */
  lemma StripLabelOneLine(s: string) returns (e: nat)
    requires forall m :: 0 <= m < |s| ==> !IsLineTerminator(s[m])
    requires exists m :: 0 <= m < |s| && IsColon(s[m])
    ensures 0 < e <= |s| && StripLabel(s) == s[e..]
    ensures forall m :: e <= m < |s| ==> !IsColon(s[m])
    ensures e == |s| || !IsSpace(s[e])
    ensures exists k :: 0 <= k < e && IsColon(s[k]) && forall m :: k < m < e ==> IsSpace(s[m])
  {
    var j := FirstColon(s).value;
    RunStartOneLine(s, j);
    e := StripLabelSuffix(s, j);
  }

  /** The same, once the first colon's line is known to be the whole text. */
  lemma StripLabelSuffix(s: string, j: nat) returns (e: nat)
    requires FirstColon(s) == Some(j)
    requires RunStart(s, j) == 0 && LineEnd(s, j) == |s|
    ensures 0 < e <= |s| && StripLabel(s) == s[e..]
    ensures forall m :: e <= m < |s| ==> !IsColon(s[m])
    ensures e == |s| || !IsSpace(s[e])
    ensures exists k :: 0 <= k < e && IsColon(s[k]) && forall m :: k < m < e ==> IsSpace(s[m])
  {
    var k := LastColonIn(s, j, |s|);
    e := SpaceEnd(s, k + 1);
    assert StripLabel(s) == s[e..] by {
      StripLabelAt(s, j);
      LabelCutOneLine(s, j);
    }
    assert k < e && IsColon(s[k]);
  }

  lemma StripLabelAt(s: string, j: nat)
    requires FirstColon(s) == Some(j)
    ensures StripLabel(s) == LabelCut(s, j)
  {
  }

  /** On one line the cut keeps what follows the last colon and its whitespace. */
  lemma LabelCutOneLine(s: string, j: nat)
    requires j < |s| && IsColon(s[j])
    requires RunStart(s, j) == 0 && LineEnd(s, j) == |s|
    ensures var k := LastColonIn(s, j, |s|); LabelCut(s, j) == s[SpaceEnd(s, k + 1)..]
  {
    CutFromStart(s, LastColonIn(s, j, |s|));
  }

  lemma CutFromStart(s: string, k: nat)
    requires k < |s|
    ensures CutFrom(s, 0, k) == s[SpaceEnd(s, k + 1)..]
  {
    var e := SpaceEnd(s, k + 1);
    assert s[..0] + s[e..] == s[e..];
  }

  lemma RunStartOneLine(s: string, j: nat)
    requires j <= |s|
    requires forall m :: 0 <= m < |s| ==> !IsLineTerminator(s[m])
    ensures RunStart(s, j) == 0 && LineEnd(s, j) == |s|
  {
  }

  // ---------------------------------------------------------------------------
  // The title/content split

  /** A line that names the title: it contains `title` in any letter case, or `タイトル`. */
  predicate IsTitleLine(line: string) {
    Contains(LowerCase(line), "title") || Contains(line, "タイトル")
  }

  /** The title a title line gives. */
  function LabelValue(line: string): string {
    Trim(StripLabel(line))
  }

  /** A line that goes to the content: not a title line, not blank, not opening with `#`. */
  predicate IsContentLine(line: string) {
    !IsTitleLine(line) && Trim(line) != [] && !StartsWith(line, "#")
  }

  /** What the loop does with one line. */
  datatype Kind = TitleLine(value: string) | ContentLine(text: string) | Skipped

  /** The loop's decision for one line: a title line, a content line, or neither. */
  function Classify(line: string): (k: Kind)
    ensures k.TitleLine? <==> IsTitleLine(line)
    ensures k.ContentLine? <==> IsContentLine(line)
    ensures k.TitleLine? ==> k.value == LabelValue(line)
    ensures k.ContentLine? ==> k.text == line
  {
    if IsTitleLine(line) then TitleLine(LabelValue(line))
    else if Trim(line) != [] && !StartsWith(line, "#") then ContentLine(line)
    else Skipped
  }

  function ClassifyAll(lines: seq<string>): (r: seq<Kind>)
    ensures |r| == |lines|
  {
    MapSeq(Classify, lines)
  }

  lemma ClassifyAllAt(lines: seq<string>)
    ensures forall i :: 0 <= i < |lines| ==> ClassifyAll(lines)[i] == Classify(lines[i])
  {
    forall i | 0 <= i < |lines|
      ensures ClassifyAll(lines)[i] == Classify(lines[i])
    {
      MapSeqAt(Classify, lines, i);
    }
  }

  /** The loop over the classified lines with the title and content built so far. */
  function Scan(kinds: seq<Kind>, title: string, content: string): (r: (string, string))
  {
    if kinds == [] then (title, content)
    else match kinds[0]
      case TitleLine(v) => Scan(kinds[1..], v, content)
      case ContentLine(t) => Scan(kinds[1..], title, content + t + "\n")
      case Skipped => Scan(kinds[1..], title, content)
  }

  /** The last title line. */
  function LastTitle(kinds: seq<Kind>): (r: Option<nat>)
    ensures r.Some? ==> r.value < |kinds| && kinds[r.value].TitleLine?
    ensures r.Some? ==> forall j :: r.value < j < |kinds| ==> !kinds[j].TitleLine?
    ensures r.None? ==> forall j :: 0 <= j < |kinds| ==> !kinds[j].TitleLine?
  {
    if kinds == [] then None
    else
      var r := LastTitle(kinds[1..]);
      assert forall j :: 1 <= j < |kinds| ==> kinds[j] == kinds[1..][j - 1];
      if r.Some? then Some(r.value + 1)
      else if kinds[0].TitleLine? then Some(0)
      else None
  }

  /** The content lines, in order. */
  function ContentOf(kinds: seq<Kind>): (r: seq<string>)
    ensures |r| <= |kinds|
  {
    if kinds == [] then []
    else
      var rest := ContentOf(kinds[1..]);
      if kinds[0].ContentLine? then [kinds[0].text] + rest else rest
  }

  /** Every content line comes from a `ContentLine`, and every `ContentLine` gives one. */
  lemma {:induction false} ContentOfLines(kinds: seq<Kind>)
    ensures forall i :: 0 <= i < |ContentOf(kinds)| ==> ContentLine(ContentOf(kinds)[i]) in kinds
    ensures forall j :: 0 <= j < |kinds| && kinds[j].ContentLine? ==> kinds[j].text in ContentOf(kinds)
  {
    if kinds != [] {
      ContentOfLines(kinds[1..]);
      var r := ContentOf(kinds);
      var rest := ContentOf(kinds[1..]);
      assert r == if kinds[0].ContentLine? then [kinds[0].text] + rest else rest;
      forall i | 0 <= i < |r|
        ensures ContentLine(r[i]) in kinds
      {
        if kinds[0].ContentLine? && i == 0 {
          assert kinds[0] == ContentLine(r[0]);
        } else {
          var i' := if kinds[0].ContentLine? then i - 1 else i;
          assert r[i] == rest[i'];
          assert ContentLine(rest[i']) in kinds[1..];
        }
      }
      forall j | 0 <= j < |kinds| && kinds[j].ContentLine?
        ensures kinds[j].text in r
      {
        if j > 0 {
          assert kinds[j] == kinds[1..][j - 1];
          assert kinds[j].text in rest;
        }
      }
    }
  }

  /** The loop's title is the value of the last title line, if there is one. */
  lemma {:induction false} ScanTitle(kinds: seq<Kind>, title: string, content: string)
    ensures Scan(kinds, title, content).0 ==
      (match LastTitle(kinds) case Some(k) => kinds[k].value case None => title)
  {
    if kinds != [] {
      var r := LastTitle(kinds[1..]);
      match kinds[0]
      case TitleLine(v) => ScanTitle(kinds[1..], v, content);
      case ContentLine(t) => ScanTitle(kinds[1..], title, content + t + "\n");
      case Skipped => ScanTitle(kinds[1..], title, content);
      if r.Some? {
        assert kinds[r.value + 1] == kinds[1..][r.value];
      }
    }
  }

  /** The loop's content is the content lines, each followed by a line break. */
  lemma {:induction false} ScanContent(kinds: seq<Kind>, title: string, content: string)
    ensures Scan(kinds, title, content).1 == content + Terminated(ContentOf(kinds), '\n')
  {
    if kinds == [] {
      assert content + "" == content;
    } else {
      match kinds[0]
      case TitleLine(v) => ScanContent(kinds[1..], v, content);
      case Skipped => ScanContent(kinds[1..], title, content);
      case ContentLine(t) =>
        ScanContent(kinds[1..], title, content + t + "\n");
        var rest := ContentOf(kinds[1..]);
        assert ContentOf(kinds) == [t] + rest;
        assert ([t] + rest)[1..] == rest;
        var tail := Terminated(rest, '\n');
        assert content + t + "\n" + tail == content + (t + "\n" + tail);
    }
  }

  const DefaultTitlePrefix: string := "Investment Information - "

  datatype Parsed = Parsed(title: string, content: string)

  /**
   * The split of the generated text, with its defaults: a dated title when
   * no title line gave one, and the whole text when the content is blank.
   */
  function SplitReply(generated: string, date: string): (r: Parsed)
    ensures r.title != []
  {
    var (title, content) := Scan(ClassifyAll(Split(generated, '\n')), "", "");
    Parsed(if title == "" then DefaultTitlePrefix + date else title,
           if Trim(content) == [] then generated else content)
  }

  /**
   * The title is the value of the last title line, unless there is none or
   * it is empty, when the dated default takes its place.
   */
  lemma SplitReplyTitle(generated: string, date: string)
    ensures var lines := Split(generated, '\n');
      var t := match LastTitleLine(lines) case Some(k) => LabelValue(lines[k]) case None => "";
      SplitReply(generated, date).title == (if t == "" then DefaultTitlePrefix + date else t)
  {
    var lines := Split(generated, '\n');
    var kinds := ClassifyAll(lines);
    ScanTitle(kinds, "", "");
    LastTitleAgrees(lines);
  }

  /** The last title line, stated on the lines themselves. */
  function LastTitleLine(lines: seq<string>): (r: Option<nat>)
    ensures r.Some? ==> r.value < |lines| && IsTitleLine(lines[r.value])
    ensures r.Some? ==> forall j :: r.value < j < |lines| ==> !IsTitleLine(lines[j])
    ensures r.None? ==> forall j :: 0 <= j < |lines| ==> !IsTitleLine(lines[j])
  {
    ClassifyAllAt(lines);
    LastTitle(ClassifyAll(lines))
  }

  lemma LastTitleAgrees(lines: seq<string>)
    ensures var kinds := ClassifyAll(lines);
      LastTitle(kinds).Some? ==> kinds[LastTitle(kinds).value].value == LabelValue(lines[LastTitle(kinds).value])
  {
    ClassifyAllAt(lines);
  }

  /**
   * The content is the content lines, each followed by a line break, unless
   * they are blank, when the whole generated text takes their place; every
   * content line is one of the reply's lines that is neither a title line,
   * blank, nor opening with `#`, and every such line is in it.
   */
  lemma SplitReplyContent(generated: string, date: string)
    ensures var lines := Split(generated, '\n');
      var kept := ContentOf(ClassifyAll(lines));
      var c := Terminated(kept, '\n');
      SplitReply(generated, date).content == (if Trim(c) == [] then generated else c)
      && (forall i :: 0 <= i < |kept| ==> IsContentLine(kept[i]) && kept[i] in lines)
      && (forall j :: 0 <= j < |lines| && IsContentLine(lines[j]) ==> lines[j] in kept)
  {
    var lines := Split(generated, '\n');
    var kinds := ClassifyAll(lines);
    assert Scan(kinds, "", "").1 == Terminated(ContentOf(kinds), '\n') by {
      ScanContent(kinds, "", "");
      assert "" + Terminated(ContentOf(kinds), '\n') == Terminated(ContentOf(kinds), '\n');
    }
    ContentLinesAre(lines);
  }

  /** The content lines are exactly the lines that are neither title lines, blank, nor opening with `#`. */
  lemma ContentLinesAre(lines: seq<string>)
    ensures var kept := ContentOf(ClassifyAll(lines));
      && (forall i :: 0 <= i < |kept| ==> IsContentLine(kept[i]) && kept[i] in lines)
      && (forall j :: 0 <= j < |lines| && IsContentLine(lines[j]) ==> lines[j] in kept)
  {
    var kinds := ClassifyAll(lines);
    var kept := ContentOf(kinds);
    ClassifyAllAt(lines);
    ContentOfLines(kinds);
    forall i | 0 <= i < |kept|
      ensures IsContentLine(kept[i]) && kept[i] in lines
    {
      var j :| 0 <= j < |kinds| && kinds[j] == ContentLine(kept[i]);
      assert kinds[j] == Classify(lines[j]);
    }
    forall j | 0 <= j < |lines| && IsContentLine(lines[j])
      ensures lines[j] in kept
    {
      assert kinds[j] == Classify(lines[j]);
    }
  }

  /** The content's lines are the content lines and one empty tail. */
  lemma ContentLinesSplit(generated: string)
    ensures var kept := ContentOf(ClassifyAll(Split(generated, '\n')));
      Split(Terminated(kept, '\n'), '\n') == kept + [""]
  {
    var lines := Split(generated, '\n');
    var kept := ContentOf(ClassifyAll(lines));
    ContentLinesAre(lines);
    forall i | 0 <= i < |kept|
      ensures '\n' !in kept[i]
    {
      var j :| 0 <= j < |lines| && lines[j] == kept[i];
    }
    SplitTerminated(kept, '\n');
  }

  // ---------------------------------------------------------------------------
  // The handler

  /** What the generator request gave: a refusal with its status and text, or a reply. */
  datatype Generation = Refused(status: string, text: string) | Broken(error: string) | Reply(text: string)

  datatype Body = Failure(error: string) | Summary(title: string, preview: string)
  datatype Response = Response(status: nat, body: Body)

  const MethodNotAllowed: string := "Method not allowed"
  const EnvMissing: string := "必要な環境変数が設定されていません"

  predicate Unset(v: Option<string>) {
    v.None? || v.value == ""
  }

  /** The preview: the first 200 UTF-16 units of the content and `...`. */
  function Preview(content: string): (p: string)
    ensures EndsWith(p, "...") && StartsWith(content, p[..|p| - 3])
    ensures Utf16Length(p) <= 203
    ensures p == Utf16Prefix(content, 200) + "..."
    ensures Utf16Length(content) <= 200 ==> p == content + "..."
    ensures |p| - 3 < |content| ==> Utf16Length(p[..|p| - 3]) + Units(content[|p| - 3]) > 200
  {
    var head := Utf16Prefix(content, 200);
    Utf16LengthAppend(head, "...");
    head + "..."
  }

  /** `handler(req, res)` with the environment, the generation and today's date as parameters. */
  function Handle(verb: string, apiKey: Option<string>, email: Option<string>, password: Option<string>,
                  gen: Generation, date: string): (r: Response)
    ensures r.status == 405 <==> verb != "GET" && verb != "POST"
    ensures r.status == 200 <==>
      (verb == "GET" || verb == "POST") && !Unset(apiKey) && !Unset(email) && !Unset(password) && gen.Reply?
    ensures r.status in {200, 405, 500}
    ensures r.body.Summary? <==> r.status == 200
    ensures r.status == 405 ==> r.body == Failure(MethodNotAllowed)
    ensures (verb == "GET" || verb == "POST") && (Unset(apiKey) || Unset(email) || Unset(password)) ==>
      r == Response(500, Failure(EnvMissing))
    ensures r.status == 200 ==>
      r.body == Summary(SplitReply(gen.text, date).title, Preview(SplitReply(gen.text, date).content))
    ensures (verb == "GET" || verb == "POST") && !Unset(apiKey) && !Unset(email) && !Unset(password) && gen.Refused? ==>
      r == Response(500, Failure("OpenRouter API エラー: " + gen.status + " - " + gen.text))
    ensures (verb == "GET" || verb == "POST") && !Unset(apiKey) && !Unset(email) && !Unset(password) && gen.Broken? ==>
      r == Response(500, Failure(gen.error))
  {
    if verb != "GET" && verb != "POST" then Response(405, Failure(MethodNotAllowed))
    else if Unset(apiKey) || Unset(email) || Unset(password) then Response(500, Failure(EnvMissing))
    else match gen
      case Refused(status, text) => Response(500, Failure("OpenRouter API エラー: " + status + " - " + text))
      case Broken(error) => Response(500, Failure(error))
      case Reply(text) =>
        var s := SplitReply(text, date);
        Response(200, Summary(s.title, Preview(s.content)))
  }
}
