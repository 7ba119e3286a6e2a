/**
 * The article management table: a markdown file whose pipe-delimited table
 * lists one article per row, with a file-name column and a draft-date
 * column. The draft saver lists the rows whose draft date is still empty
 * and, once an article is saved as a draft, writes the date into that row
 * only. Article file names also carry the article title.
 */
module MgmtTable {
  import opened JsText
  import opened Outcomes
  import opened Decimal

  const FileNameHeader: string := "ファイル名"
  const DraftDateHeader: string := "下書き保存日"
  const PostsDir: string := "posts/"

  // ---------------------------------------------------------------------------
  // Table lines and cells

  /**
   * `line.trim().startsWith('|')`: the first non-whitespace character is a
   * `|` (trimming the end cannot reach it, see TableLineIsTrimmedPipe).
   */
  predicate IsTableLine(line: string) {
    var t := TrimStart(line);
    t != [] && t[0] == '|'
  }

  lemma TrimEndKeepsHead(s: string)
    requires s != [] && !IsSpace(s[0])
    ensures TrimEnd(s) != [] && TrimEnd(s)[0] == s[0]
  {
    var e := TrimEnd(s);
    forall k | |e| <= k < |s|
      ensures IsSpace(s[k])
    {
      assert s[k] == s[|e|..][k - |e|];
    }
  }

  /** The predicate above is the source's `trim` test. */
  lemma TableLineIsTrimmedPipe(line: string)
    ensures IsTableLine(line) <==> StartsWith(Trim(line), "|")
  {
    var t := TrimStart(line);
    var e := TrimEnd(t);
    TrimDef(line);
    if t != [] && !IsSpace(t[0]) {
      TrimEndKeepsHead(t);
      assert e[..1] == [t[0]];
    }
    if e != [] {
      assert e[0] == t[0];
    }
  }

  /** `lines.filter(line => line.trim().startsWith('|'))`. */
  function TableLines(lines: seq<string>): (t: seq<string>)
    ensures |t| <= |lines|
  {
    Filter(IsTableLine, lines)
  }

  /** `line.split('|').map(c => c.trim())`. */
  function Cells(line: string): seq<string> {
    MapSeq(Trim, Split(line, '|'))
  }

  /** `cols[k]`, where reading past the end gives `undefined`, which the parser treats like `''`. */
  function CellAt(cols: seq<string>, k: nat): string {
    if k < |cols| then cols[k] else ""
  }

  // ---------------------------------------------------------------------------
  // parseUnsubmittedArticles

  datatype Pending = Pending(filePath: string, rowIndex: nat)

  /** A file name with `posts/` put in front unless it already starts so. */
  function InPosts(name: string): (p: string)
    ensures StartsWith(p, PostsDir)
    ensures StartsWith(name, PostsDir) ==> p == name
    ensures !StartsWith(name, PostsDir) ==> p[|PostsDir|..] == name
  {
    if StartsWith(name, PostsDir) then name else PostsDir + name
  }

  /** Every table line split into trimmed cells, in order. */
  function RowCells(tbl: seq<string>): (rows: seq<seq<string>>)
    ensures |rows| == |tbl|
  {
    MapSeq(Cells, tbl)
  }

  /** A row waits for a draft: its date cell is empty and its file-name cell is not. */
  predicate Unsubmitted(cols: seq<string>, fileIdx: nat, dateIdx: nat) {
    CellAt(cols, dateIdx) == [] && CellAt(cols, fileIdx) != []
  }

  /** The `for (let i = 2; …)` loop from row `i` on, over the rows' cells. */
  function PendingRows(rows: seq<seq<string>>, fileIdx: nat, dateIdx: nat, i: nat): (r: seq<Pending>)
    requires i <= |rows|
    ensures forall k :: 0 <= k < |r| ==> i <= r[k].rowIndex < |rows|
    decreases |rows| - i
  {
    if i == |rows| then []
    else
      var rest := PendingRows(rows, fileIdx, dateIdx, i + 1);
      if Unsubmitted(rows[i], fileIdx, dateIdx) then
        [Pending(InPosts(CellAt(rows[i], fileIdx)), i)] + rest
      else rest
  }

  /** Listed rows are rows `lo .. hi - 1`, in row order, with their files under `posts/`. */
  predicate Listing(r: seq<Pending>, lo: nat, hi: nat) {
    && (forall k :: 0 <= k < |r| ==> lo <= r[k].rowIndex < hi && StartsWith(r[k].filePath, PostsDir))
    && (forall k, l :: 0 <= k < l < |r| ==> r[k].rowIndex < r[l].rowIndex)
  }

  /** Listed rows come in row order, with their files under `posts/`. */
  lemma {:induction false} PendingRowsShape(rows: seq<seq<string>>, fileIdx: nat, dateIdx: nat, i: nat)
    requires i <= |rows|
    ensures Listing(PendingRows(rows, fileIdx, dateIdx, i), i, |rows|)
    decreases |rows| - i
  {
    if i < |rows| {
      PendingRowsShape(rows, fileIdx, dateIdx, i + 1);
      var r := PendingRows(rows, fileIdx, dateIdx, i);
      var rest := PendingRows(rows, fileIdx, dateIdx, i + 1);
      if Unsubmitted(rows[i], fileIdx, dateIdx) {
        var e := Pending(InPosts(CellAt(rows[i], fileIdx)), i);
        assert r == [e] + rest;
        assert StartsWith(e.filePath, PostsDir);
        forall k | 0 < k < |r|
          ensures r[k] == rest[k - 1]
        {
        }
      } else {
        assert r == rest;
      }
    }
  }

  /** Every listed row is unsubmitted, and is listed with its file name under `posts/`. */
  lemma {:induction false} PendingRowsSound(rows: seq<seq<string>>, fileIdx: nat, dateIdx: nat, i: nat, k: nat)
    requires i <= |rows| && k < |PendingRows(rows, fileIdx, dateIdx, i)|
    ensures var e := PendingRows(rows, fileIdx, dateIdx, i)[k];
      Unsubmitted(rows[e.rowIndex], fileIdx, dateIdx) && e.filePath == InPosts(CellAt(rows[e.rowIndex], fileIdx))
    decreases |rows| - i
  {
    if Unsubmitted(rows[i], fileIdx, dateIdx) {
      if k > 0 {
        PendingRowsSound(rows, fileIdx, dateIdx, i + 1, k - 1);
      }
    } else {
      PendingRowsSound(rows, fileIdx, dateIdx, i + 1, k);
    }
  }

  /** Every unsubmitted row from `i` on is listed. */
  lemma {:induction false} PendingRowsComplete(rows: seq<seq<string>>, fileIdx: nat, dateIdx: nat, i: nat, j: nat)
    requires i <= j < |rows| && Unsubmitted(rows[j], fileIdx, dateIdx)
    ensures exists k :: 0 <= k < |PendingRows(rows, fileIdx, dateIdx, i)| && PendingRows(rows, fileIdx, dateIdx, i)[k].rowIndex == j
    decreases |rows| - i
  {
    var r := PendingRows(rows, fileIdx, dateIdx, i);
    var rest := PendingRows(rows, fileIdx, dateIdx, i + 1);
    if i == j {
      assert r == [Pending(InPosts(CellAt(rows[i], fileIdx)), i)] + rest;
      assert 0 < |r| && r[0].rowIndex == j;
    } else {
      PendingRowsComplete(rows, fileIdx, dateIdx, i + 1, j);
      var k :| 0 <= k < |rest| && rest[k].rowIndex == j;
      if Unsubmitted(rows[i], fileIdx, dateIdx) {
        assert r == [Pending(InPosts(CellAt(rows[i], fileIdx)), i)] + rest;
        assert 0 <= k + 1 < |r| && r[k + 1].rowIndex == j;
      } else {
        assert r == rest;
        assert 0 <= k < |r| && r[k].rowIndex == j;
      }
    }
  }

  /** The column of `name` in the header row, or -1 (`header.findIndex(h => h === name)`). */
  function Column(tbl: seq<string>, name: string): int
    requires tbl != []
  {
    IndexOf(Cells(tbl[0]), name)
  }

  /**
   * The rows listed from the table lines `tbl`: nothing when there are fewer
   * than three or a header is missing, else the unsubmitted data rows (from
   * the third table line on) in order.
   */
  function ParseTable(tbl: seq<string>): (r: seq<Pending>)
  {
    if |tbl| < 3 then []
    else
      var f := Column(tbl, FileNameHeader);
      var d := Column(tbl, DraftDateHeader);
      if f == -1 || d == -1 then [] else PendingRows(RowCells(tbl), f, d, 2)
  }

  /** Listed rows are data rows, in table order, with their files under `posts/`. */
  lemma ParseTableShape(tbl: seq<string>)
    ensures Listing(ParseTable(tbl), 2, |tbl|)
  {
    if |tbl| >= 3 {
      var f := Column(tbl, FileNameHeader);
      var d := Column(tbl, DraftDateHeader);
      if f != -1 && d != -1 {
        assert ParseTable(tbl) == PendingRows(RowCells(tbl), f as nat, d as nat, 2);
        PendingRowsShape(RowCells(tbl), f as nat, d as nat, 2);
      } else {
        assert ParseTable(tbl) == [];
      }
    } else {
      assert ParseTable(tbl) == [];
    }
  }

  /** `parseUnsubmittedArticles` on the table file's contents. */
  function ParseUnsubmitted(raw: string): (r: seq<Pending>)
    ensures Listing(r, 2, |TableLines(Split(raw, '\n'))|)
    ensures |TableLines(Split(raw, '\n'))| < 3 ==> r == []
  {
    ParseTableShape(TableLines(Split(raw, '\n')));
    ParseTable(TableLines(Split(raw, '\n')))
  }

  /** A row index is listed exactly when it is a data row (from `i` on) that waits for a draft. */
  lemma PendingRowsListed(tbl: seq<string>, fileIdx: nat, dateIdx: nat, i: nat, j: nat)
    requires i <= |tbl|
    ensures (exists k :: 0 <= k < |PendingRows(RowCells(tbl), fileIdx, dateIdx, i)| && PendingRows(RowCells(tbl), fileIdx, dateIdx, i)[k].rowIndex == j) <==>
      (i <= j < |tbl| && Unsubmitted(Cells(tbl[j]), fileIdx, dateIdx))
  {
    var rows := RowCells(tbl);
    var listed := PendingRows(rows, fileIdx, dateIdx, i);
    if exists k :: 0 <= k < |listed| && listed[k].rowIndex == j {
      var k :| 0 <= k < |listed| && listed[k].rowIndex == j;
      PendingRowsSound(rows, fileIdx, dateIdx, i, k);
      MapSeqAt(Cells, tbl, j);
    }
    if i <= j < |tbl| && Unsubmitted(Cells(tbl[j]), fileIdx, dateIdx) {
      MapSeqAt(Cells, tbl, j);
      PendingRowsComplete(rows, fileIdx, dateIdx, i, j);
    }
  }

  /** Exactly the unsubmitted data rows are listed, under their table-line index. */
  lemma ParseUnsubmittedListed(raw: string, j: nat)
    requires var tbl := TableLines(Split(raw, '\n'));
      3 <= |tbl| && Column(tbl, FileNameHeader) >= 0 && Column(tbl, DraftDateHeader) >= 0
    ensures var tbl := TableLines(Split(raw, '\n'));
      (exists k :: 0 <= k < |ParseUnsubmitted(raw)| && ParseUnsubmitted(raw)[k].rowIndex == j) <==>
      (2 <= j < |tbl| && Unsubmitted(Cells(tbl[j]), Column(tbl, FileNameHeader) as nat, Column(tbl, DraftDateHeader) as nat))
  {
    var tbl := TableLines(Split(raw, '\n'));
    var f := Column(tbl, FileNameHeader) as nat;
    var d := Column(tbl, DraftDateHeader) as nat;
    assert ParseUnsubmitted(raw) == PendingRows(RowCells(tbl), f, d, 2);
    PendingRowsListed(tbl, f, d, 2, j);
  }

  // ---------------------------------------------------------------------------
  // updateDraftDate

  /** `while (cols.length <= n) cols.push('')`. */
  function Pad(cols: seq<string>, n: nat): (r: seq<string>)
    ensures |r| == if |cols| > n then |cols| else n + 1
    ensures r[..|cols|] == cols
    ensures forall i :: |cols| <= i < |r| ==> r[i] == ""
    decreases n + 1 - |cols|
  {
    if |cols| > n then cols else Pad(cols + [""], n)
  }

  /** The row with cell `d` set to ` date ` (`cols[d] = ' ' + dateStr + ' '`), other cells untouched. */
  function SetCell(row: string, d: nat, date: string): string {
    Join(SetCols(row, d, date), "|")
  }

  /**
   * The write-back loop: every element of `xs` that passes `p` is replaced,
   * in order, by the next element of `ys`; the others stay.
   */
  function Restore<T>(p: T -> bool, xs: seq<T>, ys: seq<T>): (r: seq<T>)
    requires |ys| == |Filter(p, xs)|
    ensures |r| == |xs|
  {
    if xs == [] then []
    else if p(xs[0]) then [ys[0]] + Restore(p, xs[1..], ys[1..])
    else [xs[0]] + Restore(p, xs[1..], ys)
  }

  /**
   * `updateDraftDate` on the table file's contents: `None` when nothing is
   * written (the row is past the table or the header has no date column);
   * otherwise the file's lines with the row's own line stamped, and every
   * other line as it was.
   */
  function UpdateDraftDate(raw: string, rowIndex: nat, date: string): (r: Option<string>)
    ensures var tbl := TableLines(Split(raw, '\n'));
      r.None? <==> rowIndex >= |tbl| || Column(tbl, DraftDateHeader) < 0
    ensures var lines := Split(raw, '\n');
      var tbl := TableLines(lines);
      r.Some? && '\n' !in date ==>
        Split(r.value, '\n')
          == lines[Position(IsTableLine, lines, rowIndex) := SetCell(tbl[rowIndex], Column(tbl, DraftDateHeader) as nat, date)]
  {
    var lines := Split(raw, '\n');
    var tbl := TableLines(lines);
    if rowIndex >= |tbl| then None
    else
      var d := Column(tbl, DraftDateHeader);
      if d == -1 then None
      else
        StampedLineWritten(lines, rowIndex, d as nat, date);
        Some(Join(Restore(IsTableLine, lines, tbl[rowIndex := SetCell(tbl[rowIndex], d as nat, date)]), "\n"))
  }

  /** The write-back of one stamped table line, split again, is the lines with that one replaced. */
  lemma StampedLineWritten(lines: seq<string>, rowIndex: nat, d: nat, date: string)
    requires forall i :: 0 <= i < |lines| ==> '\n' !in lines[i]
    requires rowIndex < |TableLines(lines)|
    ensures var tbl := TableLines(lines);
      '\n' !in date ==>
        Split(Join(Restore(IsTableLine, lines, tbl[rowIndex := SetCell(tbl[rowIndex], d, date)]), "\n"), '\n')
          == lines[Position(IsTableLine, lines, rowIndex) := SetCell(tbl[rowIndex], d, date)]
  {
    if '\n' !in date {
      var tbl := TableLines(lines);
      var k := Position(IsTableLine, lines, rowIndex);
      var x := SetCell(tbl[rowIndex], d, date);
      RestoreOne(IsTableLine, lines, rowIndex, x);
      assert '\n' !in x by {
        assert tbl[rowIndex] == lines[k];
        SetCellKeepsOut(tbl[rowIndex], d, date, '\n');
      }
      LineWritten(lines, k, x);
    }
  }

  /** Where in `xs` the `r`-th element passing `p` sits. */
  function Position<T>(p: T -> bool, xs: seq<T>, r: nat): (k: nat)
    requires r < |Filter(p, xs)|
    ensures k < |xs| && xs[k] == Filter(p, xs)[r]
  {
    if p(xs[0]) then
      if r == 0 then 0 else 1 + Position(p, xs[1..], r - 1)
    else 1 + Position(p, xs[1..], r)
  }

  /** Writing back one changed element changes exactly that element. */
  lemma {:induction false} RestoreOne<T>(p: T -> bool, xs: seq<T>, r: nat, x: T)
    requires r < |Filter(p, xs)|
    ensures Restore(p, xs, Filter(p, xs)[r := x]) == xs[Position(p, xs, r) := x]
  {
    var ys := Filter(p, xs);
    var tail := Filter(p, xs[1..]);
    if p(xs[0]) {
      assert ys == [xs[0]] + tail;
      if r == 0 {
        RestoreSame(p, xs[1..]);
        assert ys[r := x][1..] == tail;
        assert Restore(p, xs, ys[r := x]) == [x] + xs[1..];
      } else {
        RestoreOne(p, xs[1..], r - 1, x);
        assert ys[r := x] == [xs[0]] + tail[r - 1 := x];
        assert Restore(p, xs, ys[r := x]) == [xs[0]] + xs[1..][Position(p, xs[1..], r - 1) := x];
      }
    } else {
      assert ys == tail;
      RestoreOne(p, xs[1..], r, x);
      assert Restore(p, xs, ys[r := x]) == [xs[0]] + xs[1..][Position(p, xs[1..], r) := x];
    }
  }

  /** Writing back the unchanged elements changes nothing. */
  lemma {:induction false} RestoreSame<T>(p: T -> bool, xs: seq<T>)
    ensures Restore(p, xs, Filter(p, xs)) == xs
  {
    if xs != [] {
      RestoreSame(p, xs[1..]);
    }
  }

  /** Replacing a kept element by another passing element replaces it among the kept ones. */
  lemma {:induction false} FilterOne<T>(p: T -> bool, xs: seq<T>, r: nat, x: T)
    requires r < |Filter(p, xs)| && p(x)
    ensures Filter(p, xs[Position(p, xs, r) := x]) == Filter(p, xs)[r := x]
  {
    var k := Position(p, xs, r);
    assert xs[k := x][1..] == if k == 0 then xs[1..] else xs[1..][k - 1 := x];
    if p(xs[0]) {
      if r > 0 {
        FilterOne(p, xs[1..], r - 1, x);
      }
    } else {
      FilterOne(p, xs[1..], r, x);
    }
  }

  /** A table line's text before its first `|` is whitespace, and there is a second cell. */
  lemma TableLineLead(line: string)
    requires IsTableLine(line)
    ensures |Split(line, '|')| >= 2 && AllSpace(Split(line, '|')[0])
  {
    var t := TrimStart(line);
    var i := |line| - |t|;
    assert line[i] == '|';
    assert '|' !in line[..i] by {
      assert forall k :: 0 <= k < i ==> IsSpace(line[..i][k]);
    }
    assert line == line[..i] + ['|'] + line[i + 1..];
    SplitPrefix(line[..i], line[i + 1..], '|');
  }

  /** Whitespace, a `|`, anything: a table line. */
  lemma PipeAfterSpace(w: string, rest: string)
    requires AllSpace(w)
    ensures IsTableLine(w + "|" + rest)
  {
    var s := "|" + rest;
    assert TrimStart(s) == s by {
      assert !IsSpace(s[0]);
    }
    assert TrimStart(w + s) == s by {
      TrimStartPadded(w, s);
    }
    assert w + "|" + rest == w + s;
  }

  /** The header row's first cell is empty, so the date column is never column 0. */
  lemma DateColumnPositive(tbl: seq<string>)
    requires tbl != [] && IsTableLine(tbl[0])
    ensures Column(tbl, DraftDateHeader) != 0
  {
    TableLineLead(tbl[0]);
    TrimEmptyIff(Split(tbl[0], '|')[0]);
  }

  /** The cells written back by `SetCell`, before joining. */
  function SetCols(row: string, d: nat, date: string): (cols: seq<string>)
    ensures |cols| > d
  {
    Pad(Split(row, '|'), d)[d := " " + date + " "]
  }

  /** No cell written back by `SetCell` holds a `|`, so splitting the new row gives them back. */
  lemma SetCellSplit(row: string, d: nat, date: string)
    requires '|' !in date
    ensures Split(SetCell(row, d, date), '|') == SetCols(row, d, date)
  {
    var cols := SetCols(row, d, date);
    var parts := Split(row, '|');
    forall i | 0 <= i < |cols|
      ensures '|' !in cols[i]
    {
      if i != d && i < |parts| {
        assert cols[i] == parts[i];
      }
    }
    SplitJoin(cols, '|');
  }

  /** The row stays a table line. */
  lemma SetCellIsTableLine(row: string, d: nat, date: string)
    requires IsTableLine(row) && d >= 1
    ensures IsTableLine(SetCell(row, d, date))
  {
    var cols := SetCols(row, d, date);
    assert AllSpace(cols[0]) by {
      TableLineLead(row);
      assert cols[0] == Split(row, '|')[0];
    }
    assert SetCell(row, d, date) == cols[0] + "|" + Join(cols[1..], "|");
    PipeAfterSpace(cols[0], Join(cols[1..], "|"));
  }

  /** The set cell reads back as the trimmed date. */
  lemma SetCellReads(row: string, d: nat, date: string)
    requires '|' !in date
    ensures CellAt(Cells(SetCell(row, d, date)), d) == Trim(date)
  {
    var cols := SetCols(row, d, date);
    SetCellSplit(row, d, date);
    MapSeqAt(Trim, cols, d);
    assert Trim(cols[d]) == Trim(date) by {
      TrimPadded(" ", date, " ");
    }
  }

  /** The update rewrites exactly one line of the file: the line holding table row `rowIndex`. */
  lemma UpdateTouchesOneLine(raw: string, rowIndex: nat, date: string)
    requires UpdateDraftDate(raw, rowIndex, date).Some? && '\n' !in date
    ensures var lines := Split(raw, '\n');
      var out := Split(UpdateDraftDate(raw, rowIndex, date).value, '\n');
      rowIndex < |TableLines(lines)| &&
      |out| == |lines| &&
      (forall j :: 0 <= j < |lines| && j != Position(IsTableLine, lines, rowIndex) ==> out[j] == lines[j]) &&
      out[Position(IsTableLine, lines, rowIndex)] == SetCell(lines[Position(IsTableLine, lines, rowIndex)], Column(TableLines(lines), DraftDateHeader) as nat, date)
  {
    UpdateWrites(raw, rowIndex, date);
  }

  /** The written file's lines are the old ones with the row's line replaced by the stamped row. */
  lemma UpdateWrites(raw: string, rowIndex: nat, date: string)
    requires UpdateDraftDate(raw, rowIndex, date).Some? && '\n' !in date
    ensures var lines := Split(raw, '\n');
      var tbl := TableLines(lines);
      rowIndex < |tbl| && Column(tbl, DraftDateHeader) >= 0 &&
      Split(UpdateDraftDate(raw, rowIndex, date).value, '\n')
        == lines[Position(IsTableLine, lines, rowIndex) := SetCell(tbl[rowIndex], Column(tbl, DraftDateHeader) as nat, date)]
  {
    var lines := Split(raw, '\n');
    var tbl := TableLines(lines);
    var d := Column(tbl, DraftDateHeader) as nat;
    var k := Position(IsTableLine, lines, rowIndex);
    var x := SetCell(tbl[rowIndex], d, date);
    assert UpdateDraftDate(raw, rowIndex, date).value == Join(lines[k := x], "\n") by {
      RestoreOne(IsTableLine, lines, rowIndex, x);
    }
    assert '\n' !in x by {
      assert tbl[rowIndex] == lines[k];
      SetCellKeepsOut(tbl[rowIndex], d, date, '\n');
    }
    LineWritten(lines, k, x);
  }

  /** Splitting the lines joined back, one of them replaced by a line without a break. */
  lemma LineWritten(lines: seq<string>, k: nat, x: string)
    requires k < |lines| && '\n' !in x
    requires forall i :: 0 <= i < |lines| ==> '\n' !in lines[i]
    ensures Split(Join(lines[k := x], "\n"), '\n') == lines[k := x]
  {
    SplitJoin(lines[k := x], '\n');
  }

  /** A character in neither the row nor the date, other than `|`, is not in the rewritten row. */
  lemma SetCellKeepsOut(row: string, d: nat, date: string, c: char)
    requires c !in row && c !in date && c != '|' && c != ' '
    ensures c !in SetCell(row, d, date)
  {
    var cols := SetCols(row, d, date);
    var parts := Split(row, '|');
    SplitKeepsOut(row, '|', c);
    var padded := Pad(parts, d);
    forall i | 0 <= i < |cols|
      ensures c !in cols[i]
    {
      if i == d {
        assert cols[i] == " " + date + " ";
      } else if i < |parts| {
        assert cols[i] == padded[..|parts|][i];
      } else {
        assert cols[i] == padded[i] == "";
      }
    }
    JoinKeepsOut(cols, "|", c);
  }

  /** The listed rows of `tbl` from `i` on with row `r` dropped. */
  function Without(rows: seq<Pending>, r: nat): (w: seq<Pending>)
    ensures |w| <= |rows|
  {
    if rows == [] then []
    else if rows[0].rowIndex == r then Without(rows[1..], r)
    else [rows[0]] + Without(rows[1..], r)
  }

  lemma {:induction false} PendingRowsOne(rows: seq<seq<string>>, fileIdx: nat, dateIdx: nat, i: nat, r: nat, x: seq<string>)
    requires i <= |rows| && r < |rows| && CellAt(x, dateIdx) != []
    ensures PendingRows(rows[r := x], fileIdx, dateIdx, i) == Without(PendingRows(rows, fileIdx, dateIdx, i), r)
    decreases |rows| - i
  {
    if i < |rows| {
      var rest := PendingRows(rows, fileIdx, dateIdx, i + 1);
      var head := PendingHead(rows, fileIdx, dateIdx, i);
      var head' := PendingHead(rows[r := x], fileIdx, dateIdx, i);
      assert PendingRows(rows[r := x], fileIdx, dateIdx, i + 1) == Without(rest, r) by {
        PendingRowsOne(rows, fileIdx, dateIdx, i + 1, r, x);
      }
      assert PendingRows(rows, fileIdx, dateIdx, i) == head + rest by {
        PendingRowsStep(rows, fileIdx, dateIdx, i);
      }
      assert PendingRows(rows[r := x], fileIdx, dateIdx, i) == head' + PendingRows(rows[r := x], fileIdx, dateIdx, i + 1) by {
        PendingRowsStep(rows[r := x], fileIdx, dateIdx, i);
      }
      assert head' == if head != [] && head[0].rowIndex != r then head else [] by {
        if i != r {
          assert rows[r := x][i] == rows[i];
        }
      }
      WithoutHead(head, rest, r);
    }
  }

  /** What row `i` adds to the listing: itself when it waits for a draft, nothing otherwise. */
  function PendingHead(rows: seq<seq<string>>, fileIdx: nat, dateIdx: nat, i: nat): (h: seq<Pending>)
    requires i < |rows|
    ensures |h| <= 1 && (h != [] ==> h[0].rowIndex == i)
  {
    if Unsubmitted(rows[i], fileIdx, dateIdx) then [Pending(InPosts(CellAt(rows[i], fileIdx)), i)] else []
  }

  lemma PendingRowsStep(rows: seq<seq<string>>, fileIdx: nat, dateIdx: nat, i: nat)
    requires i < |rows|
    ensures PendingRows(rows, fileIdx, dateIdx, i) == PendingHead(rows, fileIdx, dateIdx, i) + PendingRows(rows, fileIdx, dateIdx, i + 1)
  {
    if !Unsubmitted(rows[i], fileIdx, dateIdx) {
      assert [] + PendingRows(rows, fileIdx, dateIdx, i + 1) == PendingRows(rows, fileIdx, dateIdx, i + 1);
    }
  }

  /** Removing row `r` from a listing that starts with at most one row. */
  lemma WithoutHead(head: seq<Pending>, rest: seq<Pending>, r: nat)
    requires |head| <= 1
    ensures Without(head + rest, r) == (if head != [] && head[0].rowIndex != r then head else []) + Without(rest, r)
  {
    if head == [] {
      assert head + rest == rest;
      assert [] + Without(rest, r) == Without(rest, r);
    } else {
      assert (head + rest)[1..] == rest;
      if head[0].rowIndex == r {
        assert [] + Without(rest, r) == Without(rest, r);
      }
    }
  }

  /**
   * After stamping data row `r` with a non-blank date, the row is no longer
   * listed and every other row is listed as before, under the same index.
   */
  lemma StampedRowUnlisted(raw: string, r: nat, date: string)
    requires UpdateDraftDate(raw, r, date).Some? && r >= 2
    requires '\n' !in date && '|' !in date && !AllSpace(date)
    ensures ParseUnsubmitted(UpdateDraftDate(raw, r, date).value) == Without(ParseUnsubmitted(raw), r)
  {
    var lines := Split(raw, '\n');
    var tbl := TableLines(lines);
    var d := Column(tbl, DraftDateHeader);
    assert 1 <= d by {
      FilterKeeps(IsTableLine, lines);
      DateColumnPositive(tbl);
    }
    var x := SetCell(tbl[r], d as nat, date);
    StampedLines(raw, r, date);
    assert CellAt(Cells(x), d as nat) != [] by {
      SetCellReads(tbl[r], d as nat, date);
      TrimEmptyIff(date);
    }
    StampedTable(tbl, r, x);
  }

  /** The stamped file's table lines are the old ones with row `r` given the date. */
  lemma StampedLines(raw: string, r: nat, date: string)
    requires UpdateDraftDate(raw, r, date).Some? && '\n' !in date && '|' !in date
    ensures var tbl := TableLines(Split(raw, '\n'));
      r < |tbl| && Column(tbl, DraftDateHeader) >= 0 &&
      TableLines(Split(UpdateDraftDate(raw, r, date).value, '\n')) == tbl[r := SetCell(tbl[r], Column(tbl, DraftDateHeader) as nat, date)]
  {
    var lines := Split(raw, '\n');
    var tbl := TableLines(lines);
    var d := Column(tbl, DraftDateHeader);
    var x := SetCell(tbl[r], d as nat, date);
    UpdateWrites(raw, r, date);
    assert IsTableLine(x) by {
      FilterKeeps(IsTableLine, lines);
      DateColumnPositive(tbl);
      SetCellIsTableLine(tbl[r], d as nat, date);
    }
    FilterOne(IsTableLine, lines, r, x);
  }

  /** The table-level step: a data row given a non-empty date cell drops out of the listing. */
  lemma StampedTable(tbl: seq<string>, r: nat, x: string)
    requires 2 <= r < |tbl| && Column(tbl, DraftDateHeader) >= 0
    requires CellAt(Cells(x), Column(tbl, DraftDateHeader) as nat) != []
    ensures ParseTable(tbl[r := x]) == Without(ParseTable(tbl), r)
  {
    var d := Column(tbl, DraftDateHeader);
    var f := Column(tbl, FileNameHeader);
    SameHeader(tbl, r, x, DraftDateHeader);
    SameHeader(tbl, r, x, FileNameHeader);
    if f == -1 {
      assert ParseTable(tbl[r := x]) == [] && ParseTable(tbl) == [];
      assert Without([], r) == [];
    } else {
      StampedRows(tbl, r, x, f as nat, d as nat);
      ParseTableIs(tbl, f as nat, d as nat);
      ParseTableIs(tbl[r := x], f as nat, d as nat);
    }
  }

  /** With both columns present, the listing is the loop over the data rows. */
  lemma ParseTableIs(tbl: seq<string>, f: nat, d: nat)
    requires |tbl| >= 3 && Column(tbl, FileNameHeader) == f as int && Column(tbl, DraftDateHeader) == d as int
    ensures ParseTable(tbl) == PendingRows(RowCells(tbl), f, d, 2)
  {
  }

  /** Changing a row below the header keeps every column of the header. */
  lemma SameHeader(tbl: seq<string>, r: nat, x: string, name: string)
    requires 0 < r < |tbl|
    ensures Column(tbl[r := x], name) == Column(tbl, name)
  {
    assert tbl[r := x][0] == tbl[0];
  }

  /** Row by row: the stamped row is dropped from the listing, the others stay. */
  lemma StampedRows(tbl: seq<string>, r: nat, x: string, f: nat, d: nat)
    requires 2 <= r < |tbl| && CellAt(Cells(x), d) != []
    ensures PendingRows(RowCells(tbl[r := x]), f, d, 2) == Without(PendingRows(RowCells(tbl), f, d, 2), r)
  {
    MapSeqUpdate(Cells, tbl, r, x);
    PendingRowsOne(RowCells(tbl), f, d, 2, r, Cells(x));
  }

  /** A row survives `Without` exactly when it is listed under another index. */
  lemma {:induction false} WithoutIn(rows: seq<Pending>, r: nat, x: Pending)
    ensures x in Without(rows, r) <==> x in rows && x.rowIndex != r
  {
    if rows != [] {
      WithoutIn(rows[1..], r, x);
      assert rows == [rows[0]] + rows[1..];
    }
  }

  /** The listing with the rows `rs` removed one after the other. */
  function WithoutAll(rows: seq<Pending>, rs: seq<nat>): (w: seq<Pending>)
    ensures |w| <= |rows|
    decreases rs
  {
    if rs == [] then rows else WithoutAll(Without(rows, rs[0]), rs[1..])
  }

  /** A row survives `WithoutAll` exactly when its index is not among `rs`. */
  lemma {:induction false} WithoutAllIn(rows: seq<Pending>, rs: seq<nat>, x: Pending)
    ensures x in WithoutAll(rows, rs) <==> x in rows && x.rowIndex !in rs
    decreases rs
  {
    if rs != [] {
      WithoutAllIn(Without(rows, rs[0]), rs[1..], x);
      WithoutIn(rows, rs[0], x);
      assert rs == [rs[0]] + rs[1..];
    }
  }

  /** A listed row can be stamped: it is a data row of a table with a date column. */
  lemma ListedUpdates(raw: string, x: Pending, date: string)
    requires x in ParseUnsubmitted(raw)
    ensures UpdateDraftDate(raw, x.rowIndex, date).Some? && x.rowIndex >= 2
  {
    var tbl := TableLines(Split(raw, '\n'));
    ParseTableShape(tbl);
    var k :| 0 <= k < |ParseTable(tbl)| && ParseTable(tbl)[k] == x;
    assert 3 <= |tbl| && Column(tbl, DraftDateHeader) != -1;
  }

  // ---------------------------------------------------------------------------
  // getArticleData

  /** `\d{4}-\d{2}-\d{2}-`: a date and a dash. */
  predicate DatePrefix(s: string) {
    |s| == 11 && AllDigits(s[..4]) && s[4] == '-' && AllDigits(s[5..7]) && s[7] == '-' && AllDigits(s[8..10]) && s[10] == '-'
  }

  /** `path.basename(p, '.md')`: the last `/`-separated segment, less a `.md` suffix. */
  function Basename(p: string): (b: string)
  {
    var parts := Split(p, '/');
    var last := parts[|parts| - 1];
    if EndsWith(last, ".md") && last != ".md" then last[..|last| - 3] else last
  }

  /**
   * The title in a file name `<digits>__YYYY-MM-DD-<title>` (`<title>` one
   * non-empty line), else the whole name.
   */
  function NameTitle(name: string): (t: string)
    ensures |t| <= |name| && EndsWith(name, t)
  {
    var k := DigitRun(name);
    if k >= 1 && |name| >= k + 14 && name[k..k + 2] == "__" && DatePrefix(name[k + 2..k + 13])
       && (forall i :: k + 13 <= i < |name| ==> !IsLineTerminator(name[i]))
    then name[k + 13..]
    else name
  }

  /** `getArticleData(articlePath).title`. */
  function ArticleTitle(path: string): string {
    NameTitle(Basename(path))
  }

  /** The title written into a dated file name is read back. */
  lemma NameTitleRoundTrip(id: string, date: string, title: string)
    requires id != [] && AllDigits(id) && DatePrefix(date)
    requires title != [] && forall i :: 0 <= i < |title| ==> !IsLineTerminator(title[i])
    ensures NameTitle(id + "__" + date + title) == title
  {
    var name := id + "__" + date + title;
    var k := |id|;
    assert DigitRun(name) == k by {
      assert name == id + ("__" + date + title);
      DigitRunPrefix(id, "__" + date + title);
    }
    NameParts(id, "__", date, title);
  }

  /** The pieces of a concatenation, read back by position. */
  lemma NameParts(a: string, b: string, c: string, d: string)
    ensures var s := a + b + c + d;
      s[|a|..|a| + |b|] == b && s[|a| + |b|..|a| + |b| + |c|] == c && s[|a| + |b| + |c|..] == d
  {
  }

  /** A name without the `<digits>__` start is its own title. */
  lemma UndatedNameIsTitle(name: string)
    requires DigitRun(name) == 0
    ensures NameTitle(name) == name
  {
  }
}
