/**
 * Post-processing of a generated article: the affiliate block inserted after
 * the first paragraph, before the paragraph at 40 % and after the last one;
 * removal of stray level-1 heading lines; and the fixed footer (magazine
 * promotion, thanks, the Amazon associate disclosure, the tag line).
 */
module Affiliate {
  import opened JsText

  const DiamondLine: string := "💰　💎　💰　💎　💰　💎　💰　💎　💰　💎　💰　💎　💰　💎　💰"
  const AffiliateUrl: string := "https://amzn.to/41MwWSl"
  const AffiliateCaption: string := "👆お金のことを広く学ぶのに最適です！コスパ最高です😊"

  /** The affiliate block: the link framed by two diamond lines, with a newline before and after. */
  const AffiliateLink: string := "\n" + DiamondLine + "\n" + AffiliateUrl + "\n" + AffiliateCaption + "\n" + DiamondLine + "\n"

  const CatLine: string := "🐈　🐾　🐈‍⬛　🐾　🐈　🐾　🐈‍⬛　🐾　🐈　🐾　🐈‍⬛　🐾　🐈　🐾　🐈‍⬛　"

  /** The promotion of the free magazine, framed by two cat lines and ending in a newline. */
  const MagazinePromotion: string :=
    CatLine + "\n\n"
    + "✅「そろそろ資産運用、何か始めたい！」というあなたへ\n\n"
    + "投資に興味はあるけど、「何から始めればいい？」「失敗が怖い…」そんな不安を、無料で解消できるマガジンを用意しました。\n\n"
    + "【早めに不安を払拭する資産運用】\n"
    + "✔ まずは小さく始めたい\n"
    + "✔ 仕組みをシンプルに知りたい\n"
    + "そんな人にピッタリです。\n\n"
    + "安心して一歩踏み出すヒントを、無料でどうぞ。\n\n"
    + "https://note.com/investment_happy/m/m76229c09696b\n\n"
    + CatLine + "\n"

  const InfoText: string := "最後までお読みいただきありがとうございます！💬\n継続して、お得な情報を発信していきますので、フォローお願いします！"

  const AmazonAssociateText: string := "Amazon のアソシエイトとして、「まずは100円から💹投資|運用|資産形成」は適格販売により収入を得ています。"

  /** The tag line used when the tag generator fails. */
  const FallbackTags: string := "#資産運用 #投資 #運用 #株 #投資信託 #FIRE #PR"

  const ParagraphBreak: string := "\n\n"

  // ---------------------------------------------------------------------------
  // Affiliate insertion

  /** `Math.floor(n * 0.4)`, exact for every paragraph count an article can have. */
  function MiddleIndex(n: nat): (m: nat)
    ensures 3 <= n ==> 1 <= m <= n - 2
  {
    (2 * n) / 5
  }

  /** `insertAffiliateLinks(content)`, as the string concatenations of the code. */
  function InsertAffiliateLinks(content: string): (r: string)
    ensures StartsWith(r, SplitOn(content, ParagraphBreak)[0] + ParagraphBreak + AffiliateLink)
    ensures EndsWith(r, ParagraphBreak + AffiliateLink)
  {
    var p := SplitOn(content, ParagraphBreak);
    var n := |p|;
    var head := p[0] + ParagraphBreak + AffiliateLink;
    var tail := ParagraphBreak + AffiliateLink;
    if n < 3 then
      var mid := ParagraphBreak + Join(p[1..], ParagraphBreak);
      Framed(head, mid, tail);
      head + mid + tail
    else
      var m := MiddleIndex(n);
      var firstPart := p[0] + ParagraphBreak + AffiliateLink;
      var middlePart := Join(p[1..m], ParagraphBreak) + ParagraphBreak + AffiliateLink + ParagraphBreak + Join(p[m..n - 1], ParagraphBreak);
      var lastPart := p[n - 1] + ParagraphBreak + AffiliateLink;
      JoinThreeFramed(firstPart, middlePart, lastPart);
      EndsWithPair(p[n - 1], ParagraphBreak, AffiliateLink);
      EndsWithThen(Join([firstPart, middlePart, lastPart], ParagraphBreak), lastPart, tail);
      Join([firstPart, middlePart, lastPart], ParagraphBreak)
  }

  /** Three parts joined by blank lines keep the first part's head and the last part's tail. */
  lemma JoinThreeFramed(head: string, mid: string, last: string)
    ensures var r := Join([head, mid, last], ParagraphBreak);
      StartsWith(r, head) && EndsWith(r, last)
  {
    JoinThree(head, mid, last, ParagraphBreak);
    Framed(head, ParagraphBreak + mid + ParagraphBreak, last);
  }

  lemma EndsWithPair(x: string, a: string, b: string)
    ensures EndsWith(x + a + b, a + b)
  {
    assert (x + a + b)[|x|..] == a + b;
  }

  lemma EndsWithThen(r: string, s: string, t: string)
    requires EndsWith(r, s) && EndsWith(s, t)
    ensures EndsWith(r, t)
  {
    assert r[|r| - |t|..] == s[|s| - |t|..];
  }

  /** A text framed by a head and a tail starts with the one and ends with the other. */
  lemma Framed(head: string, mid: string, tail: string)
    ensures StartsWith(head + mid + tail, head)
    ensures EndsWith(head + mid + tail, tail)
  {
    assert (head + mid + tail)[..|head|] == head;
    assert (head + mid + tail)[|head + mid|..] == tail;
  }

  /** A block of the output: an original paragraph, the affiliate block, or the empty gap an empty join leaves. */
  datatype Block = Para(text: string) | Ad | Gap

  function Render(b: Block): string {
    match b
    case Para(t) => t
    case Ad => AffiliateLink
    case Gap => ""
  }

  function RenderAll(bs: seq<Block>): (r: seq<string>)
    ensures |r| == |bs|
  {
    if bs == [] then [] else [Render(bs[0])] + RenderAll(bs[1..])
  }

  /** Block `i` renders to entry `i`; kept as a lemma so that the function's axiom stays free of quantifiers. */
  lemma {:induction false} RenderAllAt(bs: seq<Block>, i: nat)
    requires i < |bs|
    ensures RenderAll(bs)[i] == Render(bs[i])
  {
    if i > 0 {
      RenderAllAt(bs[1..], i - 1);
    }
  }

  function Paras(ps: seq<string>): (r: seq<Block>)
    ensures |r| == |ps|
    ensures forall i :: 0 <= i < |ps| ==> r[i] == Para(ps[i])
  {
    if ps == [] then [] else [Para(ps[0])] + Paras(ps[1..])
  }

  /**
   * Where the affiliate blocks go, as a list of blocks: after paragraph 0,
   * before paragraph `MiddleIndex(n)` (an empty gap stands for the empty
   * slice when that index is 1), and after the last paragraph; with fewer
   * than three paragraphs, after paragraph 0 and at the end.
   */
  function Layout(ps: seq<string>): (bs: seq<Block>)
    requires |ps| >= 1
  {
    var n := |ps|;
    if n < 3 then
      [Para(ps[0]), Ad] + (if n == 1 then [Gap] else [Para(ps[1])]) + [Ad]
    else
      var m := MiddleIndex(n);
      [Para(ps[0]), Ad] + MiddleBlocks(ps, m) + [Ad] + Paras(ps[m..n - 1]) + [Para(ps[n - 1]), Ad]
  }

  /** The blocks between the first two affiliate blocks: the paragraphs before the middle index, or the empty join's gap. */
  function MiddleBlocks(ps: seq<string>, m: nat): seq<Block>
    requires 1 <= m <= |ps|
  {
    if m == 1 then [Gap] else Paras(ps[1..m])
  }

  /** The paragraphs of a block list, in order. */
  function ParasOf(bs: seq<Block>): (ps: seq<string>)
  {
    if bs == [] then []
    else (if bs[0].Para? then [bs[0].text] else []) + ParasOf(bs[1..])
  }

  function AdCount(bs: seq<Block>): nat {
    if bs == [] then 0 else (if bs[0] == Ad then 1 else 0) + AdCount(bs[1..])
  }

  lemma {:induction false} ParasOfAppend(a: seq<Block>, b: seq<Block>)
    ensures ParasOf(a + b) == ParasOf(a) + ParasOf(b)
    ensures AdCount(a + b) == AdCount(a) + AdCount(b)
  {
    if a != [] {
      assert (a + b)[1..] == a[1..] + b;
      ParasOfAppend(a[1..], b);
    } else {
      assert a + b == b;
    }
  }

  lemma {:induction false} ParasOfParas(ps: seq<string>)
    ensures ParasOf(Paras(ps)) == ps
    ensures AdCount(Paras(ps)) == 0
  {
    if ps != [] {
      assert Paras(ps)[1..] == Paras(ps[1..]);
      ParasOfParas(ps[1..]);
    }
  }

  lemma LayoutShort(ps: seq<string>)
    requires 1 <= |ps| < 3
    ensures ParasOf(Layout(ps)) == ps
    ensures AdCount(Layout(ps)) == 2
  {
    var n := |ps|;
    var mid: seq<Block> := if n == 1 then [Gap] else [Para(ps[1])];
    ParasOfAppend([Para(ps[0]), Ad], mid);
    ParasOfAppend([Para(ps[0]), Ad] + mid, [Ad]);
    assert ParasOf([Ad]) == [] && ParasOf([Gap]) == [];
    assert AdCount([Ad]) == 1 && AdCount([Gap]) == 0;
    assert ParasOf([Para(ps[0]), Ad]) == [ps[0]] + ParasOf([Ad]);
    assert AdCount([Para(ps[0]), Ad]) == AdCount([Ad]);
    if n == 2 {
      assert ParasOf([Para(ps[1])]) == [ps[1]] + ParasOf([]);
      assert AdCount([Para(ps[1])]) == 0;
      assert ps == [ps[0], ps[1]];
    }
  }

  lemma LayoutLongShape(ps: seq<string>)
    requires |ps| >= 3
    ensures var m := MiddleIndex(|ps|);
      Layout(ps) == [Para(ps[0]), Ad] + MiddleBlocks(ps, m) + [Ad] + Paras(ps[m..|ps| - 1]) + [Para(ps[|ps| - 1]), Ad]
  {
  }

  lemma ParasOfMiddle(ps: seq<string>, m: nat)
    requires 1 <= m < |ps|
    ensures ParasOf(MiddleBlocks(ps, m)) == ps[1..m]
    ensures AdCount(MiddleBlocks(ps, m)) == 0
  {
    if m == 1 {
      assert ps[1..m] == [];
    } else {
      ParasOfParas(ps[1..m]);
    }
  }

  lemma ParasOfPair(x: string)
    ensures ParasOf([Para(x), Ad]) == [x] && AdCount([Para(x), Ad]) == 1
  {
    assert [Para(x), Ad][1..] == [Ad];
    assert ParasOf([Ad]) == [] && AdCount([Ad]) == 1;
  }

  lemma ParasOfLongShape(x: string, b: seq<Block>, c: seq<Block>, y: string)
    ensures ParasOf([Para(x), Ad] + b + [Ad] + c + [Para(y), Ad]) == [x] + ParasOf(b) + ParasOf(c) + [y]
    ensures AdCount([Para(x), Ad] + b + [Ad] + c + [Para(y), Ad]) == 3 + AdCount(b) + AdCount(c)
  {
    var a: seq<Block> := [Para(x), Ad];
    var d: seq<Block> := [Para(y), Ad];
    ParasOfPair(x);
    ParasOfPair(y);
    ParasOfAppend(a, b);
    ParasOfAppend(a + b, [Ad]);
    assert ParasOf([Ad]) == [] && AdCount([Ad]) == 1;
    ParasOfAppend(a + b + [Ad], c);
    ParasOfAppend(a + b + [Ad] + c, d);
  }

  lemma LayoutLong(ps: seq<string>)
    requires |ps| >= 3
    ensures ParasOf(Layout(ps)) == ps
    ensures AdCount(Layout(ps)) == 3
  {
    var m := MiddleIndex(|ps|);
    var b: seq<Block> := MiddleBlocks(ps, m);
    var c := Paras(ps[m..|ps| - 1]);
    LayoutLongShape(ps);
    ParasOfLongShape(ps[0], b, c, ps[|ps| - 1]);
    LongPieces(ps, m, b, c);
  }

  /** The paragraphs of the three stretches of the long layout are the paragraphs, in order. */
  lemma LongPieces(ps: seq<string>, m: nat, b: seq<Block>, c: seq<Block>)
    requires 1 <= m <= |ps| - 1
    requires b == MiddleBlocks(ps, m) && c == Paras(ps[m..|ps| - 1])
    ensures [ps[0]] + ParasOf(b) + ParasOf(c) + [ps[|ps| - 1]] == ps
    ensures AdCount(b) == 0 && AdCount(c) == 0
  {
    ParasOfMiddle(ps, m);
    ParasOfParas(ps[m..|ps| - 1]);
    Pieces(ps, m);
  }

  /** The first paragraph, those before the middle one, those from it to the last, and the last. */
  lemma Pieces(ps: seq<string>, m: nat)
    requires 1 <= m <= |ps| - 1
    ensures [ps[0]] + ps[1..m] + ps[m..|ps| - 1] + [ps[|ps| - 1]] == ps
  {
  }

  /**
   * The layout keeps every paragraph, in order, and adds the affiliate
   * block three times (twice for fewer than three paragraphs); it opens with
   * the first paragraph followed by the block and ends with the block.
   */
  lemma LayoutKeepsParagraphs(ps: seq<string>)
    requires |ps| >= 1
    ensures ParasOf(Layout(ps)) == ps
    ensures AdCount(Layout(ps)) == if |ps| < 3 then 2 else 3
    ensures Layout(ps)[..2] == [Para(ps[0]), Ad] && Layout(ps)[|Layout(ps)| - 1] == Ad
  {
    if |ps| < 3 {
      LayoutShort(ps);
    } else {
      LayoutLong(ps);
    }
  }

  lemma {:induction false} RenderAllAppend(a: seq<Block>, b: seq<Block>)
    ensures RenderAll(a + b) == RenderAll(a) + RenderAll(b)
  {
    if a != [] {
      assert (a + b)[1..] == a[1..] + b;
      RenderAllAppend(a[1..], b);
    } else {
      assert a + b == b;
    }
  }

  lemma RenderLongShape(x: string, b: seq<Block>, c: seq<Block>, y: string)
    ensures RenderAll([Para(x), Ad] + b + [Ad] + c + [Para(y), Ad])
      == [x, AffiliateLink] + RenderAll(b) + [AffiliateLink] + RenderAll(c) + [y, AffiliateLink]
  {
    var a: seq<Block> := [Para(x), Ad];
    var d: seq<Block> := [Para(y), Ad];
    RenderAllAppend(a, b);
    RenderAllAppend(a + b, [Ad]);
    RenderAllAppend(a + b + [Ad], c);
    RenderAllAppend(a + b + [Ad] + c, d);
    RenderPair(x);
    RenderPair(y);
    assert RenderAll([Ad]) == [AffiliateLink];
  }

  lemma RenderPair(x: string)
    ensures RenderAll([Para(x), Ad]) == [x, AffiliateLink]
  {
    assert [Para(x), Ad][1..] == [Ad];
  }

  /** Joining the long layout's pieces equals joining the code's three parts. */
  lemma JoinLongShape(x: string, a: string, mid: seq<string>, rest: seq<string>, y: string, sep: string)
    requires mid != [] && rest != []
    ensures Join([x, a] + mid + [a] + rest + [y, a], sep)
      == Join([x + sep + a, Join(mid, sep) + sep + a + sep + Join(rest, sep), y + sep + a], sep)
  {
    var inner := mid + [a] + rest;
    assert Join(inner, sep) == Join(mid, sep) + sep + a + sep + Join(rest, sep) by {
      JoinAppend(mid, [a], sep);
      JoinAppend(mid + [a], rest, sep);
      assert Join([a], sep) == a;
    }
    assert Join([x, a], sep) == x + sep + a by { assert [x, a][1..] == [a]; }
    assert Join([y, a], sep) == y + sep + a by { assert [y, a][1..] == [a]; }
    assert [x, a] + mid + [a] + rest + [y, a] == [x, a] + inner + [y, a];
    JoinAppend([x, a], inner, sep);
    JoinAppend([x, a] + inner, [y, a], sep);
    JoinThree(x + sep + a, Join(mid, sep) + sep + a + sep + Join(rest, sep), y + sep + a, sep);
  }

  /** The code's concatenations produce exactly the rendered layout of the paragraphs. */
  lemma InsertIsLayout(content: string)
    ensures InsertAffiliateLinks(content) == Join(RenderAll(Layout(SplitOn(content, ParagraphBreak))), ParagraphBreak)
  {
    var p := SplitOn(content, ParagraphBreak);
    if |p| < 3 {
      InsertShortIsLayout(p);
    } else {
      InsertLongIsLayout(p);
    }
  }

  lemma InsertShortIsLayout(p: seq<string>)
    requires 1 <= |p| < 3
    ensures p[0] + ParagraphBreak + AffiliateLink + ParagraphBreak + Join(p[1..], ParagraphBreak) + ParagraphBreak + AffiliateLink
      == Join(RenderAll(Layout(p)), ParagraphBreak)
  {
    var n := |p|;
    var sep := ParagraphBreak;
    var mid: seq<string> := if n == 1 then [""] else [p[1]];
    assert Join(p[1..], sep) == mid[0] by {
      if n == 1 { assert p[1..] == []; } else { assert p[1..] == [p[1]]; }
    }
    var blk := if n == 1 then Gap else Para(p[1]);
    assert Layout(p) == [Para(p[0]), Ad, blk, Ad];
    RenderFour(Para(p[0]), Ad, blk, Ad);
    assert RenderAll(Layout(p)) == [p[0], AffiliateLink, mid[0], AffiliateLink];
    JoinFour(p[0], AffiliateLink, mid[0], AffiliateLink, sep);
  }

  lemma RenderFour(a: Block, b: Block, c: Block, d: Block)
    ensures RenderAll([a, b, c, d]) == [Render(a), Render(b), Render(c), Render(d)]
  {
    assert [a, b, c, d][1..] == [b, c, d];
    assert [b, c, d][1..] == [c, d];
    assert [c, d][1..] == [d];
    assert [d][1..] == [];
    assert RenderAll([d]) == [Render(d)];
    assert RenderAll([c, d]) == [Render(c)] + [Render(d)];
    assert RenderAll([b, c, d]) == [Render(b)] + [Render(c), Render(d)];
  }

  lemma InsertLongIsLayout(p: seq<string>)
    requires |p| >= 3
    ensures var n := |p|; var m := MiddleIndex(n);
      Join([p[0] + ParagraphBreak + AffiliateLink,
            Join(p[1..m], ParagraphBreak) + ParagraphBreak + AffiliateLink + ParagraphBreak + Join(p[m..n - 1], ParagraphBreak),
            p[n - 1] + ParagraphBreak + AffiliateLink], ParagraphBreak)
      == Join(RenderAll(Layout(p)), ParagraphBreak)
  {
    var n := |p|;
    var sep := ParagraphBreak;
    var m := MiddleIndex(n);
    var mid := MiddleTexts(p);
    var rest := p[m..n - 1];
    var a := AffiliateLink;
    var first, last := p[0] + sep + a, p[n - 1] + sep + a;
    calc {
      Join(RenderAll(Layout(p)), sep);
    == { RenderLayoutLong(p); }
      Join([p[0], a] + mid + [a] + rest + [p[n - 1], a], sep);
    == { JoinLongShape(p[0], a, mid, rest, p[n - 1], sep); }
      Join([first, Join(mid, sep) + sep + a + sep + Join(rest, sep), last], sep);
    == { MiddleJoin(p); }
      Join([first, Join(p[1..m], sep) + sep + a + sep + Join(rest, sep), last], sep);
    }
  }

  /** The middle texts join to the paragraphs between the first one and the middle block. */
  lemma MiddleJoin(p: seq<string>)
    requires |p| >= 3
    ensures Join(MiddleTexts(p), ParagraphBreak) == Join(p[1..MiddleIndex(|p|)], ParagraphBreak)
  {
    var m := MiddleIndex(|p|);
    if m == 1 {
      assert p[1..m] == [];
    }
  }

  /** The paragraphs between the first one and the middle block, or the one empty text an empty join leaves. */
  function MiddleTexts(p: seq<string>): (mid: seq<string>)
    requires |p| >= 3
    ensures mid != []
  {
    var m := MiddleIndex(|p|);
    if m == 1 then [""] else p[1..m]
  }

  /** The rendered long layout: the first paragraph and the block, the middle texts, the block, the rest, the last paragraph and the block. */
  lemma RenderLayoutLong(p: seq<string>)
    requires |p| >= 3
    ensures RenderAll(Layout(p))
      == [p[0], AffiliateLink] + MiddleTexts(p) + [AffiliateLink] + p[MiddleIndex(|p|)..|p| - 1] + [p[|p| - 1], AffiliateLink]
  {
    var n := |p|;
    var m := MiddleIndex(n);
    var c := Paras(p[m..n - 1]);
    LayoutLongShape(p);
    RenderMiddle(p);
    RenderParas(p[m..n - 1]);
    RenderShapeOf(Layout(p), p[0], MiddleBlocks(p, m), c, p[n - 1], MiddleTexts(p), p[m..n - 1]);
  }

  lemma RenderShapeOf(l: seq<Block>, x: string, b: seq<Block>, c: seq<Block>, y: string, mid: seq<string>, rest: seq<string>)
    requires l == [Para(x), Ad] + b + [Ad] + c + [Para(y), Ad]
    requires RenderAll(b) == mid && RenderAll(c) == rest
    ensures RenderAll(l) == [x, AffiliateLink] + mid + [AffiliateLink] + rest + [y, AffiliateLink]
  {
    RenderShape(x, b, c, y, mid, rest);
  }

  lemma RenderMiddle(p: seq<string>)
    requires |p| >= 3
    ensures var m := MiddleIndex(|p|); RenderAll(MiddleBlocks(p, m)) == MiddleTexts(p)
  {
    var m := MiddleIndex(|p|);
    if m != 1 {
      RenderParas(p[1..m]);
    }
  }

  lemma RenderParas(ps: seq<string>)
    ensures RenderAll(Paras(ps)) == ps
  {
  }

  lemma RenderShape(x: string, b: seq<Block>, c: seq<Block>, y: string, mid: seq<string>, rest: seq<string>)
    requires RenderAll(b) == mid && RenderAll(c) == rest
    ensures RenderAll([Para(x), Ad] + b + [Ad] + c + [Para(y), Ad]) == [x, AffiliateLink] + mid + [AffiliateLink] + rest + [y, AffiliateLink]
  {
    RenderLongShape(x, b, c, y);
  }

  // ---------------------------------------------------------------------------
  // Stray level-1 headings: `articleContent.replace(/\n# .+$/gm, '')`

  /**
   * Length of the match of `\n# .+$` at the start of `s`, 0 when there is
   * none: a line feed, `# `, and the rest of that line, which must not be
   * empty (`.` matches no line terminator, so `$` holds where the run ends).
   */
  function H1MatchLen(s: string): (n: nat)
    ensures n == 0 || (4 <= n <= |s| && (n == |s| || IsLineTerminator(s[n])))
  {
    if |s| >= 4 && s[0] == '\n' && s[1] == '#' && s[2] == ' ' && !IsLineTerminator(s[3]) then 3 + LineRun(s[3..])
    else 0
  }

  /** No `\n# ` line with text after the marker anywhere in `s`. */
  predicate NoH1Line(s: string) {
    forall i :: 0 <= i < |s| ==> H1MatchLen(s[i..]) == 0
  }

  /** The global replacement, scanning left to right and resuming after each removed line. */
  function StripH1Lines(s: string): (r: string)
    ensures |r| <= |s|
    decreases |s|
  {
    if s == [] then []
    else
      var m := H1MatchLen(s);
      if m > 0 then StripH1Lines(s[m..]) else [s[0]] + StripH1Lines(s[1..])
  }

  lemma {:induction false} StripKeepsLineStart(u: string)
    requires u == [] || IsLineTerminator(u[0])
    ensures StripH1Lines(u) == [] || IsLineTerminator(StripH1Lines(u)[0])
    decreases |u|
  {
    if u != [] {
      var m := H1MatchLen(u);
      if m > 0 {
        StripKeepsLineStart(u[m..]);
      }
    }
  }

  /** What the stripped text begins with when `t` does not start with a match. */
  lemma StripHead(t: string)
    requires t != [] && H1MatchLen(t) == 0
    ensures StripH1Lines(t) == [t[0]] + StripH1Lines(t[1..])
  {
  }

  /** The character after a `\n` kept by the scan cannot complete a new match. */
  lemma {:induction false} NoMatchAtJunction(s: string)
    requires s != [] && s[0] == '\n' && H1MatchLen(s) == 0
    ensures H1MatchLen([s[0]] + StripH1Lines(s[1..])) == 0
  {
    var t := s[1..];
    var r := StripH1Lines(t);
    var w := [s[0]] + r;
    if t == [] {
    } else if H1MatchLen(t) > 0 {
      StripKeepsLineStart(t[H1MatchLen(t)..]);
      if r != [] {
        assert w[1] == r[0];
      }
    } else if t[0] != '#' {
      StripHead(t);
      assert w[1] == t[0];
    } else {
      StripHead(t);
      var t2 := t[1..];
      var r2 := StripH1Lines(t2);
      assert r == ['#'] + r2;
      if t2 == [] {
        assert |w| == 2;
      } else if H1MatchLen(t2) > 0 {
        StripKeepsLineStart(t2[H1MatchLen(t2)..]);
        if r2 != [] {
          assert w[2] == r2[0];
        }
      } else if t2[0] != ' ' {
        StripHead(t2);
        assert w[2] == t2[0];
      } else {
        StripHead(t2);
        var t3 := t2[1..];
        assert t3 == s[3..];
        assert t3 == [] || IsLineTerminator(t3[0]);
        StripKeepsLineStart(t3);
        assert r2 == [' '] + StripH1Lines(t3);
        assert |w| == 3 || IsLineTerminator(w[3]);
      }
    }
  }

  /** After the replacement no level-1 heading line with text remains. */
  lemma {:induction false} StripLeavesNoH1(s: string)
    ensures NoH1Line(StripH1Lines(s))
    decreases |s|
  {
    if s != [] {
      var m := H1MatchLen(s);
      if m > 0 {
        StripLeavesNoH1(s[m..]);
      } else {
        StripLeavesNoH1(s[1..]);
        var r := StripH1Lines(s[1..]);
        var w := [s[0]] + r;
        forall i | 0 <= i < |w|
          ensures H1MatchLen(w[i..]) == 0
        {
          if i > 0 {
            assert w[i..] == r[i - 1..];
          } else if s[0] == '\n' {
            NoMatchAtJunction(s);
            assert w[0..] == w;
          } else {
            assert w[0..] == w;
          }
        }
      }
    }
  }

  /** Text without such lines is left untouched, so the replacement is idempotent. */
  lemma {:induction false} StripIdentity(s: string)
    requires NoH1Line(s)
    ensures StripH1Lines(s) == s
    decreases |s|
  {
    if s != [] {
      assert H1MatchLen(s[0..]) == 0;
      assert s[0..] == s;
      assert NoH1Line(s[1..]) by {
        forall i | 0 <= i < |s[1..]|
          ensures H1MatchLen(s[1..][i..]) == 0
        {
          assert s[1..][i..] == s[i + 1..];
        }
      }
      StripIdentity(s[1..]);
      assert [s[0]] + s[1..] == s;
    }
  }

  lemma StripIdempotent(s: string)
    ensures StripH1Lines(StripH1Lines(s)) == StripH1Lines(s)
  {
    StripLeavesNoH1(s);
    StripIdentity(StripH1Lines(s));
  }

  /** A line's text after its `\n` that the removal matches: `# ` and at least one more character. */
  predicate IsH1Text(l: string) {
    |l| >= 3 && l[0] == '#' && l[1] == ' '
  }

  /** A run that starts at a line feed and whose text is a level-1 heading. */
  predicate IsH1Chunk(c: string) {
    |c| >= 1 && c[0] == '\n' && IsH1Text(c[1..])
  }

  /** The length of the line starting `s`: its opening line terminator, if any, and the run up to the next one. */
  function ChunkLen(s: string): (n: nat)
    requires s != []
    ensures 1 <= n <= |s|
    ensures forall i :: 1 <= i < n ==> !IsLineTerminator(s[i])
    ensures n == |s| || IsLineTerminator(s[n])
  {
    if IsLineTerminator(s[0]) then 1 + LineRun(s[1..]) else LineRun(s)
  }

  /**
   * The removal stated line by line: the text is cut before each line
   * terminator, and a piece is dropped whole when it is a line feed followed
   * by `# ` and at least one more character; every other piece, `## ` lines
   * included, is kept as it is.
   */
  function KeepLines(s: string): string
    decreases |s|
  {
    if s == [] then []
    else
      var n := ChunkLen(s);
      (if IsH1Chunk(s[..n]) then [] else s[..n]) + KeepLines(s[n..])
  }

  /** A run of characters ends where the text ends or at a line terminator, whatever follows. */
  lemma {:induction false} LineRunAppend(t: string, y: string)
    requires y == [] || IsLineTerminator(y[0])
    ensures LineRun(t + y) == LineRun(t)
  {
    if t == [] {
      assert t + y == y;
    } else if !IsLineTerminator(t[0]) {
      assert (t + y)[1..] == t[1..] + y;
      LineRunAppend(t[1..], y);
    }
  }

  /** A match at the start of `u` is not changed by text that opens with a line terminator. */
  lemma H1MatchAppend(u: string, y: string)
    requires u != [] && (y == [] || IsLineTerminator(y[0]))
    ensures H1MatchLen(u + y) == H1MatchLen(u)
  {
    var w := u + y;
    if |u| >= 4 {
      assert w[..4] == u[..4];
      if u[0] == '\n' && u[1] == '#' && u[2] == ' ' && !IsLineTerminator(u[3]) {
        assert w[3..] == u[3..] + y;
        LineRunAppend(u[3..], y);
      }
    } else if y != [] {
      assert w[|u|] == y[0];
    }
  }

  /** The removal works line by line: cutting the text before a line terminator cuts its result there too. */
  lemma {:induction false} StripAppend(x: string, y: string)
    requires y == [] || IsLineTerminator(y[0])
    ensures StripH1Lines(x + y) == StripH1Lines(x) + StripH1Lines(y)
    decreases |x|, 1
  {
    if x == [] {
      assert x + y == y;
    } else if H1MatchLen(x) > 0 {
      StripAppendSkip(x, y);
    } else {
      StripAppendKeep(x, y);
    }
  }

  /** `StripAppend` when `x` starts with a match. */
  lemma {:induction false} StripAppendSkip(x: string, y: string)
    requires y == [] || IsLineTerminator(y[0])
    requires x != [] && H1MatchLen(x) > 0
    ensures StripH1Lines(x + y) == StripH1Lines(x) + StripH1Lines(y)
    decreases |x|, 0
  {
    var w := x + y;
    var m := H1MatchLen(x);
    assert H1MatchLen(w) == m by {
      H1MatchAppend(x, y);
    }
    calc {
      StripH1Lines(w);
    == { StripSkip(w, m); }
      StripH1Lines(w[m..]);
    == { assert w[m..] == x[m..] + y; }
      StripH1Lines(x[m..] + y);
    == { StripAppend(x[m..], y); }
      StripH1Lines(x[m..]) + StripH1Lines(y);
    == { StripSkip(x, m); }
      StripH1Lines(x) + StripH1Lines(y);
    }
  }

  /** `StripAppend` when `x` does not start with a match. */
  lemma {:induction false} StripAppendKeep(x: string, y: string)
    requires y == [] || IsLineTerminator(y[0])
    requires x != [] && H1MatchLen(x) == 0
    ensures StripH1Lines(x + y) == StripH1Lines(x) + StripH1Lines(y)
    decreases |x|, 0
  {
    var w := x + y;
    assert H1MatchLen(w) == 0 by {
      H1MatchAppend(x, y);
    }
    calc {
      StripH1Lines(w);
    == { StripKeep(w); }
      [w[0]] + StripH1Lines(w[1..]);
    == { assert w[0] == x[0] && w[1..] == x[1..] + y; }
      [x[0]] + StripH1Lines(x[1..] + y);
    == { StripAppend(x[1..], y); }
      [x[0]] + (StripH1Lines(x[1..]) + StripH1Lines(y));
    == { StripKeep(x); }
      StripH1Lines(x) + StripH1Lines(y);
    }
  }

  /** A match at the start of the text is dropped and the scan resumes after it. */
  lemma StripSkip(s: string, m: nat)
    requires m == H1MatchLen(s) && m > 0
    ensures StripH1Lines(s) == StripH1Lines(s[m..])
  {
  }

  /** Without a match at the start, the first character is kept. */
  lemma StripKeep(s: string)
    requires s != [] && H1MatchLen(s) == 0
    ensures StripH1Lines(s) == [s[0]] + StripH1Lines(s[1..])
  {
  }

  /** Text without a line feed has no match anywhere and is kept. */
  lemma NoLineFeedKept(s: string)
    requires forall i :: 0 <= i < |s| ==> s[i] != '\n'
    ensures StripH1Lines(s) == s
  {
    assert NoH1Line(s) by {
      forall i | 0 <= i < |s|
        ensures H1MatchLen(s[i..]) == 0
      {
        assert s[i..][0] == s[i];
      }
    }
    StripIdentity(s);
  }

  /** One line after a line feed is removed exactly when it reads `# ` and something more, and kept whole otherwise. */
  lemma StripLine(l: string)
    requires forall i :: 0 <= i < |l| ==> !IsLineTerminator(l[i])
    ensures StripH1Lines("\n" + l) == if IsH1Text(l) then [] else "\n" + l
  {
    var s := "\n" + l;
    if IsH1Text(l) {
      assert s[3..] == l[2..];
      LineRunWhole(l[2..]);
      assert H1MatchLen(s) == |s|;
      assert s[|s|..] == [];
    } else {
      assert H1MatchLen(s) == 0;
      assert s[1..] == l;
      NoLineFeedKept(l);
    }
  }

  /** The first piece of the text, as the removal sees it. */
  lemma StripChunk(c: string)
    requires c != [] && ChunkLen(c) == |c|
    ensures StripH1Lines(c) == if IsH1Chunk(c) then [] else c
  {
    if c[0] == '\n' {
      assert c == "\n" + c[1..];
      StripLine(c[1..]);
    } else {
      NoLineFeedKept(c);
    }
  }

  /** The scan of the regular expression and the line-by-line rule agree on every text. */
  lemma {:induction false} StripIsKeepLines(s: string)
    ensures StripH1Lines(s) == KeepLines(s)
    decreases |s|
  {
    if s != [] {
      var n := ChunkLen(s);
      var c := s[..n];
      var rest := s[n..];
      assert s == c + rest;
      assert ChunkLen(c) == |c| by {
        if IsLineTerminator(c[0]) {
          assert c[1..] == s[1..][..n - 1];
          LineRunWhole(c[1..]);
        } else {
          LineRunWhole(c);
        }
      }
      StripAppend(c, rest);
      StripChunk(c);
      StripIsKeepLines(rest);
    }
  }

  /** A level-1 line goes and the `## ` line after it stays. */
  lemma H1GoesSubheadingStays(t: string, h: string)
    requires t != []
    requires forall i :: 0 <= i < |t| ==> !IsLineTerminator(t[i])
    requires forall i :: 0 <= i < |h| ==> !IsLineTerminator(h[i])
    ensures StripH1Lines("\n# " + t + "\n## " + h) == "\n## " + h
  {
    var x := "\n# " + t;
    var l := "# " + t;
    assert x == "\n" + l;
    assert forall i :: 0 <= i < |l| ==> !IsLineTerminator(l[i]) by {
      forall i | 0 <= i < |l|
        ensures !IsLineTerminator(l[i])
      {
        if i >= 2 {
          assert l[i] == t[i - 2];
        }
      }
    }
    assert StripH1Lines(x) == [] by {
      StripLine(l);
    }
    assert StripH1Lines([]) == [];
    SubheadingSurvives(x, h, []);
    assert x + ("\n## " + h) + [] == "\n# " + t + "\n## " + h;
  }

  /** A `## ` line survives the removal with everything around it handled as before. */
  lemma SubheadingSurvives(x: string, h: string, y: string)
    requires forall i :: 0 <= i < |h| ==> !IsLineTerminator(h[i])
    requires y == [] || IsLineTerminator(y[0])
    ensures var line := "\n## " + h; StripH1Lines(x + line + y) == StripH1Lines(x) + line + StripH1Lines(y)
  {
    var line := "\n## " + h;
    assert x + line + y == x + (line + y);
    SubheadingKept(h, line);
    LinesAppend(x, line, y);
  }

  /** Two cuts before line terminators: each part is handled on its own. */
  lemma LinesAppend(x: string, line: string, y: string)
    requires line != [] && IsLineTerminator(line[0])
    requires y == [] || IsLineTerminator(y[0])
    ensures StripH1Lines(x + (line + y)) == StripH1Lines(x) + StripH1Lines(line) + StripH1Lines(y)
  {
    var tail := line + y;
    var a, b, c := StripH1Lines(x), StripH1Lines(line), StripH1Lines(y);
    assert StripH1Lines(tail) == b + c by {
      StripAppend(line, y);
    }
    assert StripH1Lines(x + tail) == a + StripH1Lines(tail) by {
      assert tail[0] == line[0];
      StripAppend(x, tail);
    }
    assert a + (b + c) == a + b + c;
  }

  lemma SubheadingKept(h: string, line: string)
    requires forall i :: 0 <= i < |h| ==> !IsLineTerminator(h[i])
    requires line == "\n## " + h
    ensures StripH1Lines(line) == line
  {
    var l := "## " + h;
    assert line == "\n" + l;
    SubheadingText(h);
    StripLine(l);
  }

  lemma SubheadingText(h: string)
    requires forall i :: 0 <= i < |h| ==> !IsLineTerminator(h[i])
    ensures forall i :: 0 <= i < |"## " + h| ==> !IsLineTerminator(("## " + h)[i])
    ensures !IsH1Text("## " + h)
  {
    var l := "## " + h;
    forall i | 0 <= i < |l|
      ensures !IsLineTerminator(l[i])
    {
      if i >= 3 {
        assert l[i] == h[i - 3];
      }
    }
  }

  /** The first match in an infix is a match in the whole string. */
  lemma {:induction false} H1MatchLenPrefix(u: string, v: string)
    requires H1MatchLen(u) > 0
    ensures H1MatchLen(u + v) > 0
  {
    assert (u + v)[..4] == u[..4];
  }

  /** Any infix of text without such lines has none either (in particular its trim). */
  lemma NoH1LineInfix(s: string, i: nat, j: nat)
    requires NoH1Line(s) && i <= j <= |s|
    ensures NoH1Line(s[i..j])
  {
    var t := s[i..j];
    forall k | 0 <= k < |t|
      ensures H1MatchLen(t[k..]) == 0
    {
      assert s[i + k..] == t[k..] + s[j..];
      if H1MatchLen(t[k..]) > 0 {
        H1MatchLenPrefix(t[k..], s[j..]);
      }
    }
  }

  lemma TrimKeepsNoH1Line(s: string)
    requires NoH1Line(s)
    ensures NoH1Line(Trim(s))
  {
    InfixKeepsNoH1Line(s, Trim(s));
  }

  lemma InfixKeepsNoH1Line(s: string, r: string)
    requires NoH1Line(s) && TrimmedInfix(s, r)
    ensures NoH1Line(r)
  {
    var i := InfixStart(s, r);
    NoH1LineInfix(s, i, i + |r|);
  }

  // ---------------------------------------------------------------------------
  // Footer

  /** Everything between the article and the tag line. */
  const Footer: string := MagazinePromotion + ParagraphBreak + InfoText + ParagraphBreak + AmazonAssociateText

  /** The article, trimmed, then the magazine promotion, the thanks, the disclosure and the tag line, separated by blank lines. */
  function Finish(article: string, tags: string): (r: string)
    ensures StartsWith(r, Trim(article) + ParagraphBreak + Footer)
    ensures EndsWith(r, ParagraphBreak + tags + "\n")
    ensures |r| == |Trim(article) + ParagraphBreak + Footer| + |ParagraphBreak + tags + "\n"|
  {
    var head := Trim(article) + ParagraphBreak + Footer;
    var tail := ParagraphBreak + tags + "\n";
    assert (head + tail)[..|head|] == head;
    assert (head + tail)[|head + tail| - |tail|..] == tail;
    head + tail
  }

  /** The head, the tail and the length pin the text: nothing else lies between them. */
  lemma FinishDetermined(article: string, tags: string, r: string)
    requires StartsWith(r, Trim(article) + ParagraphBreak + Footer)
    requires EndsWith(r, ParagraphBreak + tags + "\n")
    requires |r| == |Trim(article) + ParagraphBreak + Footer| + |ParagraphBreak + tags + "\n"|
    ensures r == Finish(article, tags)
  {
    var head := Trim(article) + ParagraphBreak + Footer;
    var tail := ParagraphBreak + tags + "\n";
    assert r == r[..|head|] + r[|head|..];
  }

  /** The disclosure and the magazine link are always present, whatever the tags. */
  lemma FinishDiscloses(article: string, tags: string)
    ensures Contains(Finish(article, tags), AmazonAssociateText)
    ensures Contains(Finish(article, tags), MagazinePromotion)
  {
    var head := Trim(article) + ParagraphBreak;
    var tail := ParagraphBreak + tags + "\n";
    FooterParts(head, MagazinePromotion, ParagraphBreak, InfoText, ParagraphBreak, AmazonAssociateText, tail);
  }

  /** The first and the last of the middle parts occur in the whole. */
  lemma FooterParts(head: string, a: string, b: string, c: string, d: string, e: string, tail: string)
    ensures Contains(head + (a + b + c + d + e) + tail, a)
    ensures Contains(head + (a + b + c + d + e) + tail, e)
  {
    var s := head + (a + b + c + d + e) + tail;
    assert s == head + a + (b + c + d + e + tail);
    ContainsMiddle(head, a, b + c + d + e + tail);
    assert s == (head + a + b + c + d) + e + tail;
    ContainsMiddle(head + a + b + c + d, e, tail);
  }
}
