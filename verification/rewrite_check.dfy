/**
 * The rewrite-and-check tool: the article ids on its command line, the file
 * each id names, the loop that rewrites the sections the length checker
 * reports as short until none is reported or none matches, and the final
 * tag line.
 */
module RewriteCheck {
  import opened JsText
  import opened Outcomes
  import opened Decimal
  import opened MdSections
  import opened SectionCheck
  import Affiliate

  // ---------------------------------------------------------------------------
  // parseIds

  /** `Array.from({ length: hi - lo + 1 }, (_, i) => lo + i)`. */
  function Range(lo: int, hi: int): (r: seq<int>)
    ensures |r| == if lo <= hi then hi - lo + 1 else 0
    ensures forall i :: 0 <= i < |r| ==> r[i] == lo + i
    decreases hi - lo
  {
    if lo > hi then [] else [lo] + Range(lo + 1, hi)
  }

  /** `parts.map(Number).filter(n => !isNaN(n))`. */
  function NumbersOf(parts: seq<string>): seq<int> {
    MapFilter(ToNumber, parts)
  }

  /**
   * `parseIds(arg)`: an argument with a `-` is a range `start-end` (empty when
   * either end is not a number or `start > end`); otherwise a comma-separated
   * list whose non-numbers are dropped; a missing argument is `""`.
   */
  function ParseIds(arg: string): (ids: seq<int>)
    ensures arg == [] ==> ids == []
    ensures '-' !in arg ==> |ids| <= |Split(arg, ',')|
    ensures '-' in arg ==> forall k :: 0 <= k < |ids| ==> ids[k] == ids[0] + k
  {
    if arg == [] then []
    else if '-' in arg then
      var parts := Split(arg, '-');
      var start := ToNumber(parts[0]);
      // a missing second part is `undefined`, and `Number(undefined)` is NaN
      var end := if |parts| >= 2 then ToNumber(parts[1]) else None;
      if start.None? || end.None? || start.value > end.value then [] else Range(start.value, end.value)
    else NumbersOf(Split(arg, ','))
  }

  lemma NumbersOfNonNegative(parts: seq<string>)
    requires forall i :: 0 <= i < |parts| ==> '-' !in parts[i]
    ensures forall k :: 0 <= k < |NumbersOf(parts)| ==> NumbersOf(parts)[k] >= 0
  {
    MapFilterAll(ToNumber, parts, (n: int) => n >= 0);
  }

  /** No id is negative: a `-` always selects the range form, whose ends carry no sign. */
  lemma ParseIdsNonNegative(arg: string)
    ensures forall k :: 0 <= k < |ParseIds(arg)| ==> ParseIds(arg)[k] >= 0
  {
    if arg != [] && '-' !in arg {
      SplitKeepsOut(arg, ',', '-');
      NumbersOfNonNegative(Split(arg, ','));
    }
  }

  lemma SplitPair(x: string, y: string, c: char)
    requires c !in x && c !in y
    ensures Split(x + [c] + y, c) == [x, y]
  {
    SplitPrefix(x, y, c);
    SplitNoSeparator(y, c);
  }

  /** An argument `x-y` whose parts hold no further `-` compares the two numbers. */
  lemma ParseIdsPair(x: string, y: string)
    requires '-' !in x && '-' !in y
    ensures ParseIds(x + "-" + y) ==
      if ToNumber(x).None? || ToNumber(y).None? || ToNumber(x).value > ToNumber(y).value then []
      else Range(ToNumber(x).value, ToNumber(y).value)
  {
    var arg := x + "-" + y;
    assert arg == x + ['-'] + y;
    assert arg[|x|] == '-';
    SplitPair(x, y, '-');
  }

  /** `a-b` gives every id from `a` to `b`, or none when `a > b`. */
  lemma ParseIdsRange(a: nat, b: nat)
    ensures ParseIds(Show(a) + "-" + Show(b)) == if a <= b then Range(a, b) else []
  {
    assert '-' !in Show(a) && '-' !in Show(b);
    ParseIdsPair(Show(a), Show(b));
    ToNumberShow(a);
    ToNumberShow(b);
  }

  /** The ids printed, in order. */
  function ShowAll(ids: seq<nat>): (r: seq<string>)
    ensures |r| == |ids|
    ensures forall i :: 0 <= i < |ids| ==> r[i] == Show(ids[i])
  {
    if ids == [] then [] else [Show(ids[0])] + ShowAll(ids[1..])
  }

  /** Every printed id reads back through `Number`, so the list reads back whole. */
  lemma {:induction false} NumbersOfShowAll(ids: seq<nat>)
    ensures NumbersOf(ShowAll(ids)) == ids
  {
    if ids != [] {
      ToNumberShow(ids[0]);
      NumbersOfShowAll(ids[1..]);
      assert ShowAll(ids) == [Show(ids[0])] + ShowAll(ids[1..]);
      MapFilterCons(ToNumber, Show(ids[0]), ShowAll(ids[1..]));
    }
  }

  /** A comma-separated list reads entry by entry, non-numbers dropped. */
  lemma ParseIdsEntries(parts: seq<string>)
    requires |parts| >= 1 && Join(parts, ",") != []
    requires forall i :: 0 <= i < |parts| ==> ',' !in parts[i] && '-' !in parts[i]
    ensures ParseIds(Join(parts, ",")) == NumbersOf(parts)
  {
    JoinKeepsOut(parts, ",", '-');
    SplitJoin(parts, ',');
  }

  /** A comma-separated list of ids reads back as the list. */
  lemma ParseIdsList(ids: seq<nat>)
    requires ids != []
    ensures ParseIds(Join(ShowAll(ids), ",")) == ids
  {
    var parts := ShowAll(ids);
    assert Join(parts, ",") != [] by {
      if |parts| > 1 {
        assert Join(parts, ",") == parts[0] + "," + Join(parts[1..], ",");
      }
    }
    ParseIdsEntries(parts);
    NumbersOfShowAll(ids);
  }

  lemma EmptyIsZero()
    ensures ToNumber("") == Some(0)
  {
    TrimOfTrimmed("");
  }

  lemma NumbersOfEmptyEntry(a: nat, b: nat)
    ensures NumbersOf([Show(a), "", Show(b)]) == [a, 0, b]
  {
    ToNumberShow(a);
    ToNumberShow(b);
    EmptyIsZero();
    MapFilterCons(ToNumber, Show(b), []);
    MapFilterCons(ToNumber, "", [Show(b)]);
    MapFilterCons(ToNumber, Show(a), ["", Show(b)]);
    assert [Show(a), "", Show(b)] == [Show(a)] + ["", Show(b)];
  }

  /** An empty list entry is `Number("")`, which is 0, so `a,,b` reads as `a`, 0, `b`. */
  lemma EmptyEntryIsZero(a: nat, b: nat)
    ensures ParseIds(Join([Show(a), "", Show(b)], ",")) == [a, 0, b]
  {
    var parts := [Show(a), "", Show(b)];
    assert Join(parts, ",") != [] by {
      assert Join(parts, ",") == Show(a) + "," + Join(parts[1..], ",");
    }
    ParseIdsEntries(parts);
    NumbersOfEmptyEntry(a, b);
  }

  // ---------------------------------------------------------------------------
  // findFileById

  /** `new RegExp(`^${id}__.*\\.md$`).test(f)`: the id, `__`, one line of anything, `.md`. */
  predicate MatchesId(f: string, id: nat) {
    var p := Show(id) + "__";
    |f| >= |p| + 3 && f[..|p|] == p && f[|f| - 3..] == ".md"
    && forall i :: |p| <= i < |f| - 3 ==> !IsLineTerminator(f[i])
  }

  function FirstMatch(files: seq<string>, id: nat, from: nat): (r: Option<nat>)
    requires from <= |files|
    ensures r.Some? ==> from <= r.value < |files| && MatchesId(files[r.value], id)
    ensures r.Some? ==> forall j :: from <= j < r.value ==> !MatchesId(files[j], id)
    ensures r.None? ==> forall j :: from <= j < |files| ==> !MatchesId(files[j], id)
    decreases |files| - from
  {
    if from == |files| then None
    else if MatchesId(files[from], id) then Some(from)
    else FirstMatch(files, id, from + 1)
  }

  /** `findFileById(id)` over the directory listing `files`: the first name that matches. */
  function FindFileById(files: seq<string>, id: nat): (r: Option<string>)
    ensures r.Some? ==> r.value in files && MatchesId(r.value, id)
    ensures r.None? ==> forall j :: 0 <= j < |files| ==> !MatchesId(files[j], id)
  {
    match FirstMatch(files, id, 0)
    case None => None
    case Some(j) => Some(files[j])
  }

  /** A file name matches at most one id: the `__` after the digits ends the id. */
  lemma MatchesOneId(f: string, a: nat, b: nat)
    requires MatchesId(f, a) && MatchesId(f, b)
    ensures a == b
  {
    var sa := Show(a);
    var sb := Show(b);
    assert f[|sa|] == '_' && f[|sb|] == '_';
    assert forall i :: 0 <= i < |sa| ==> f[i] == sa[i];
    assert forall i :: 0 <= i < |sb| ==> f[i] == sb[i];
    assert |sa| == |sb|;
    {
      assert sa == f[..|sa|] == sb;
      ShowInjective(a, b);
    }
  }

  /** Id 1 does not pick the file of id 11. */
  lemma OneIsNotEleven()
    ensures MatchesId("11__x.md", 11) && !MatchesId("11__x.md", 1)
  {
    assert Show(11) == "11";
    assert Show(1) == "1";
    assert "11__x.md"[1] == '1';
  }

  // ---------------------------------------------------------------------------
  // processFile

  /** `ngSections.includes(heading)`: the section's heading is among the reported ones. */
  predicate Listed(sec: Section, ng: seq<string>) {
    Heading(sec.raw) in ng
  }

  /** Which sections the pass rewrites. */
  function Targeted(secs: seq<Section>, ng: seq<string>): (f: seq<bool>)
    ensures |f| == |secs|
    ensures forall j :: 0 <= j < |secs| ==> (f[j] <==> Listed(secs[j], ng))
  {
    seq(|secs|, j requires 0 <= j < |secs| => Listed(secs[j], ng))
  }

  /**
   * A rewritten section: the heading line kept, the rest replaced by the
   * trimmed reply and a newline (`lines.splice(1, …, newBody + '\n')`).
   */
  function Rewrite(sec: Section, reply: string): Section {
    Section(sec.marker, Splice(sec.raw, Trim(reply)))
  }

  /** A rewrite keeps the section's marker and heading. */
  lemma RewriteKeepsHeading(sec: Section, reply: string)
    ensures Rewrite(sec, reply).marker == sec.marker
    ensures Heading(Rewrite(sec, reply).raw) == Heading(sec.raw)
  {
    SpliceKeepsHeading(sec.raw, Trim(reply));
  }

  /** A one-line reply becomes the rewritten section's whole body. */
  lemma RewriteBody(sec: Section, reply: string)
    requires '\n' !in reply && MarkerLen(Trim(reply)) == 0 && !StartsWith(Trim(reply), "---")
    ensures Body(Rewrite(sec, reply).raw) == Trim(reply)
  {
    TrimKeepsOut(reply, '\n');
    SpliceBody(sec.raw, Trim(reply));
    TrimIdempotent(reply);
  }

  /** The first flagged section from `i` on whose rewrite request fails. */
  function FirstFailure(flags: seq<bool>, reply: nat -> Result<string>, i: nat): (r: Option<nat>)
    requires i <= |flags|
    ensures r.Some? ==> i <= r.value < |flags| && flags[r.value] && reply(r.value).Err?
    ensures r.Some? ==> forall k :: i <= k < r.value ==> !flags[k] || reply(k).Ok?
    ensures r.None? ==> forall k :: i <= k < |flags| ==> !flags[k] || reply(k).Ok?
    decreases |flags| - i
  {
    if i == |flags| then None
    else if flags[i] && reply(i).Err? then Some(i)
    else FirstFailure(flags, reply, i + 1)
  }

  /**
   * One pass of the `for` loop from section `i` on: flagged sections are
   * replaced in order by `edit` applied to the section and its reply
   * (`Rewrite` in the tool), unflagged ones kept, and the first failed
   * rewrite ends the run with its error.
   */
  function RewritePass(secs: seq<Section>, flags: seq<bool>, reply: nat -> Result<string>,
                       edit: (Section, string) -> Section, i: nat): (r: Result<seq<Section>>)
    requires |flags| == |secs| && i <= |secs|
    ensures r.Ok? ==> |r.value| == |secs| - i
    decreases |secs| - i
  {
    if i == |secs| then Ok([])
    else if flags[i] && reply(i).Err? then Err(reply(i).message)
    else
      var s := if flags[i] then edit(secs[i], reply(i).value) else secs[i];
      match RewritePass(secs, flags, reply, edit, i + 1)
      case Err(e) => Err(e)
      case Ok(rest) => Ok([s] + rest)
  }

  /** A pass fails exactly when some flagged section's rewrite fails, with the first such error. */
  lemma {:induction false} RewritePassError(secs: seq<Section>, flags: seq<bool>, reply: nat -> Result<string>,
                                            edit: (Section, string) -> Section, i: nat)
    requires |flags| == |secs| && i <= |secs|
    ensures RewritePass(secs, flags, reply, edit, i).Err? <==> FirstFailure(flags, reply, i).Some?
    ensures RewritePass(secs, flags, reply, edit, i).Err? ==>
      RewritePass(secs, flags, reply, edit, i).message == reply(FirstFailure(flags, reply, i).value).message
    decreases |secs| - i
  {
    if i < |secs| && !(flags[i] && reply(i).Err?) {
      RewritePassError(secs, flags, reply, edit, i + 1);
    }
  }

  /**
   * `out` is the sections from `i` on with every flagged one edited with its
   * (successful) reply and every other one kept.
   */
  predicate Edits(secs: seq<Section>, flags: seq<bool>, reply: nat -> Result<string>,
                  edit: (Section, string) -> Section, i: nat, out: seq<Section>)
    requires |flags| == |secs| && i <= |secs|
  {
    |out| == |secs| - i &&
    forall k :: 0 <= k < |out| ==>
      if flags[i + k] then reply(i + k).Ok? && out[k] == edit(secs[i + k], reply(i + k).value)
      else out[k] == secs[i + k]
  }

  /** A successful pass keeps every unflagged section and edits every flagged one with its reply. */
  lemma {:induction false} RewritePassContents(secs: seq<Section>, flags: seq<bool>, reply: nat -> Result<string>,
                                               edit: (Section, string) -> Section, i: nat)
    requires |flags| == |secs| && i <= |secs|
    ensures RewritePass(secs, flags, reply, edit, i).Ok? ==>
      Edits(secs, flags, reply, edit, i, RewritePass(secs, flags, reply, edit, i).value)
    decreases |secs| - i
  {
    if i < |secs| && !(flags[i] && reply(i).Err?) {
      RewritePassContents(secs, flags, reply, edit, i + 1);
      var rest := RewritePass(secs, flags, reply, edit, i + 1);
      if rest.Ok? {
        var out := RewritePass(secs, flags, reply, edit, i).value;
        forall k | 0 <= k < |out|
          ensures if flags[i + k] then reply(i + k).Ok? && out[k] == edit(secs[i + k], reply(i + k).value)
                  else out[k] == secs[i + k]
        {
          if k > 0 {
            var j := k - 1;
            assert out[k] == rest.value[j];
            assert i + 1 + j == i + k;
          }
        }
        assert RewritePass(secs, flags, reply, edit, i) == Ok(out);
        assert |out| == |secs| - i;
        assert Edits(secs, flags, reply, edit, i, out);
      } else {
        assert RewritePass(secs, flags, reply, edit, i).Err?;
      }
    }
  }

  /** The headings the checker script reports short for the file's current contents. */
  function Reported(content: string): seq<string> {
    GetShortSections(Some(CheckOutput(Some(content), DefaultMinLength)))
  }

  /** The loop's exit test: nothing reported, or no section's heading among the reported ones. */
  predicate Settled(content: string) {
    Reported(content) == [] || true !in Targeted(SplitSections(content).sections, Reported(content))
  }

  datatype Progress = Finished(content: string) | Aborted(error: string) | Unfinished(content: string)

  /**
   * The `while (true)` loop of `processFile`, at most `fuel` further passes
   * after this one; `replies(p)` answers the rewrites of pass `p`.
   */
  function ProcessLoop(content: string, replies: nat -> nat -> Result<string>, pass: nat, fuel: nat): (r: Progress)
    ensures Settled(content) ==> r == Finished(content)
    ensures r.Finished? ==> Settled(r.content)
    decreases fuel
  {
    var ng := Reported(content);
    if ng == [] then Finished(content)
    else
      var doc := SplitSections(content);
      var flags := Targeted(doc.sections, ng);
      if true !in flags then Finished(content)
      else match RewritePass(doc.sections, flags, replies(pass), Rewrite, 0)
        case Err(e) => Aborted(e)
        case Ok(secs) =>
          var next := Reassemble(Document(doc.firstPart, secs));
          if fuel == 0 then Unfinished(next) else ProcessLoop(next, replies, pass + 1, fuel - 1)
  }

  /** The text the tags follow: `\n# ` lines removed, every other line kept, then trimmed. */
  function Untagged(content: string): (r: string)
    ensures Affiliate.NoH1Line(r)
    ensures r == Trim(Affiliate.KeepLines(content))
  {
    Affiliate.StripLeavesNoH1(content);
    Affiliate.StripIsKeepLines(content);
    Affiliate.TrimKeepsNoH1Line(Affiliate.StripH1Lines(content));
    Trim(Affiliate.StripH1Lines(content))
  }

  /** What follows the text: three blank lines, the trimmed tags and a newline. */
  function TagTail(tags: string): string {
    "\n\n\n\n" + Trim(tags) + "\n"
  }

  lemma EndsWithAppend(a: string, b: string)
    ensures EndsWith(a + b, b)
  {
    assert (a + b)[|a|..] == b;
  }

  /** The final step; a failed tag request propagates. */
  function TagStep(content: string, tags: Result<string>): (r: Result<string>)
    ensures tags.Err? <==> r.Err?
    ensures r.Ok? ==> EndsWith(r.value, TagTail(tags.value))
    ensures r.Ok? ==> StartsWith(r.value, Untagged(content))
    ensures r.Ok? ==> |r.value| == |Untagged(content)| + |TagTail(tags.value)|
  {
    match tags
    case Err(e) => Err(e)
    case Ok(t) =>
      var head := Untagged(content);
      EndsWithAppend(head, TagTail(t));
      assert (head + TagTail(t))[..|head|] == head;
      Ok(head + TagTail(t))
  }

  /** Text with no `\n# ` line is only trimmed before the tags. */
  lemma UntaggedIsTrim(content: string)
    requires Affiliate.NoH1Line(content)
    ensures Untagged(content) == Trim(content)
  {
    Affiliate.StripIdentity(content);
  }

  /** Removing the `\n# ` lines and trimming a second time changes nothing. */
  lemma UntaggedIdempotent(content: string)
    ensures Untagged(Untagged(content)) == Untagged(content)
  {
    var u := Untagged(content);
    UntaggedIsTrim(u);
    TrimIdempotent(Affiliate.StripH1Lines(content));
  }

  /** `processFile(mdPath)` on the file's contents. */
  function ProcessFile(content: string, replies: nat -> nat -> Result<string>, tags: Result<string>, fuel: nat): (r: Progress)
    ensures r.Finished? ==> tags.Ok? && EndsWith(r.content, TagTail(tags.value))
  {
    Finish(ProcessLoop(content, replies, 0, fuel), tags)
  }

  /** After the loop: a finished text gets its tag line, anything else stands. */
  function Finish(p: Progress, tags: Result<string>): (r: Progress)
    ensures r.Finished? ==> p.Finished? && TagStep(p.content, tags) == Ok(r.content)
    ensures r.Finished? ==> tags.Ok? && EndsWith(r.content, TagTail(tags.value))
    ensures !p.Finished? ==> r == p
  {
    if !p.Finished? then p
    else match TagStep(p.content, tags)
      case Ok(t) => Finished(t)
      case Err(e) => Aborted(e)
  }

  // ---------------------------------------------------------------------------
  // The command line

  const MissingArgument: string := "記事ID（例: 1,5,6 または 2-5）を指定してください"
  const NoValidIds: string := "有効な記事IDが指定されていません"

  /** The files found for the ids, in id order; ids without a file are skipped. */
  function FoundFiles(ids: seq<int>, files: seq<string>): (r: seq<string>)
    requires forall k :: 0 <= k < |ids| ==> ids[k] >= 0
    ensures |r| <= |ids|
    ensures forall k :: 0 <= k < |r| ==> r[k] in files
  {
    if ids == [] then []
    else match FindFileById(files, ids[0])
      case None => FoundFiles(ids[1..], files)
      case Some(f) => [f] + FoundFiles(ids[1..], files)
  }

  /**
   * The files the tool processes for its argument (`""` when absent): it
   * exits with 1 when the argument is missing or names no valid id.
   */
  function Targets(arg: string, files: seq<string>): (r: Result<seq<string>>)
    ensures arg == [] ==> r == Err(MissingArgument)
    ensures arg != [] && ParseIds(arg) == [] ==> r == Err(NoValidIds)
  {
    if arg == [] then Err(MissingArgument)
    else
      var ids := ParseIds(arg);
      if ids == [] then Err(NoValidIds)
      else
        ParseIdsNonNegative(arg);
        Ok(FoundFiles(ids, files))
  }

  /**
   * The `for (const id of ids)` loop over the `count` files found, from the
   * `i`-th on: `outcome(k)` is what processing the `k`-th file comes to.
   * A failed request inside `processFile` is not caught anywhere, so the
   * first aborted file ends the run.
   */
  function RunFiles(count: nat, outcome: nat -> Progress, i: nat): (r: seq<Progress>)
    requires i <= count
    ensures |r| <= count - i
    ensures forall k :: 0 <= k < |r| ==> r[k] == outcome(i + k)
    ensures forall k :: 0 <= k < |r| - 1 ==> !r[k].Aborted?
    ensures |r| < count - i ==> r != [] && r[|r| - 1].Aborted?
    decreases count - i
  {
    if i == count then []
    else if outcome(i).Aborted? then [outcome(i)]
    else
      var rest := RunFiles(count, outcome, i + 1);
      assert forall k :: 1 <= k < |rest| + 1 ==> ([outcome(i)] + rest)[k] == rest[k - 1];
      [outcome(i)] + rest
  }

  /** Every file is processed exactly when no file but perhaps the last aborts. */
  lemma {:induction false} RunFilesComplete(count: nat, outcome: nat -> Progress, i: nat)
    requires i <= count
    ensures |RunFiles(count, outcome, i)| == count - i <==>
      forall k :: i <= k < count - 1 ==> !outcome(k).Aborted?
    decreases count - i
  {
    if i < count && !outcome(i).Aborted? {
      RunFilesComplete(count, outcome, i + 1);
    }
  }
}
