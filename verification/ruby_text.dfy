/**
 * The slice of Ruby string semantics the article service relies on:
 * `String#strip` (ASCII whitespace and NUL), `blank?`/`present?` (Unicode
 * white space), and `split("\n")`, which drops trailing empty fields.
 * Ruby's `length` and `slice` count characters, which are sequence
 * positions here.
 */
module RubyText {
  import opened JsText

  /** The characters `String#strip` removes. */
  predicate IsStripSpace(c: char) {
    c == '\0' || c == '\t' || c == '\n' || c == '\U{000B}' || c == '\U{000C}' || c == '\r' || c == ' '
  }

  /** The `\s` class of a Ruby regular expression. */
  predicate IsRegexSpace(c: char) {
    c == '\t' || c == '\n' || c == '\U{000B}' || c == '\U{000C}' || c == '\r' || c == ' '
  }

  /** Unicode White_Space, the class `[[:space:]]` that `blank?` tests. */
  predicate IsUnicodeSpace(c: char) {
    ('\t' <= c <= '\r') || c == ' ' || c == '\U{0085}' || c == '\U{00A0}' || c == '\U{1680}'
    || ('\U{2000}' <= c <= '\U{200A}') || c == '\U{2028}' || c == '\U{2029}' || c == '\U{202F}'
    || c == '\U{205F}' || c == '\U{3000}'
  }

  /** `s.blank?`: only white space. */
  predicate Blank(s: string) {
    s == [] || (IsUnicodeSpace(s[0]) && Blank(s[1..]))
  }

  function StripStart(s: string): (r: string)
    ensures |r| <= |s| && r == s[|s| - |r|..]
    ensures forall i :: 0 <= i < |s| - |r| ==> IsStripSpace(s[i])
    ensures r == [] || !IsStripSpace(r[0])
  {
    if s == [] || !IsStripSpace(s[0]) then s else StripStart(s[1..])
  }

  function StripEnd(s: string): (r: string)
    ensures |r| <= |s| && r == s[..|r|]
    ensures forall i :: |r| <= i < |s| ==> IsStripSpace(s[i])
    ensures r == [] || !IsStripSpace(r[|r| - 1])
  {
    if s == [] || !IsStripSpace(s[|s| - 1]) then s
    else
      var r := StripEnd(s[..|s| - 1]);
      assert forall i :: |r| <= i < |s| - 1 ==> s[..|s| - 1][i] == s[i];
      r
  }

  predicate AllStripSpace(t: string) {
    forall k :: 0 <= k < |t| ==> IsStripSpace(t[k])
  }

  /** `r` is an infix of `s` with no strip space at either end and only strip space around it. */
  predicate StrippedInfix(s: string, r: string) {
    && (r == [] || (!IsStripSpace(r[0]) && !IsStripSpace(r[|r| - 1])))
    && exists i :: 0 <= i <= |s| - |r| && r == s[i..i + |r|] && AllStripSpace(s[..i]) && AllStripSpace(s[i + |r|..])
  }

  /** `s.strip`: the text with the strip space at both ends cut off. */
  function Strip(s: string): (r: string)
    ensures StrippedInfix(s, r)
  {
    StripEnds(s);
    StripEnd(StripStart(s))
  }

  /** Text that neither starts nor ends with strip space is its own strip. */
  lemma StripOfStripped(s: string)
    requires s == [] || (!IsStripSpace(s[0]) && !IsStripSpace(s[|s| - 1]))
    ensures Strip(s) == s
  {
  }

  /** Cutting the leading and then the trailing strip space leaves an infix with strip space around it only. */
  lemma StripEnds(s: string)
    ensures StrippedInfix(s, StripEnd(StripStart(s)))
  {
    var t := StripStart(s);
    var i := |s| - |t|;
    var r := StripEnd(t);
    StripStartSpace(s);
    StripEndSpace(t);
    assert s[i..][..|r|] == s[i..i + |r|];
    assert s[i..][|r|..] == s[i + |r|..];
    if r != [] {
      assert r[0] == t[0];
    }
    StrippedInfixAt(s, r, i);
  }

  lemma StripStartSpace(s: string)
    ensures AllStripSpace(s[..|s| - |StripStart(s)|])
  {
    var p := s[..|s| - |StripStart(s)|];
    forall k | 0 <= k < |p|
      ensures IsStripSpace(p[k])
    {
      assert p[k] == s[k];
    }
  }

  lemma StripEndSpace(t: string)
    ensures AllStripSpace(t[|StripEnd(t)|..])
  {
    var u := t[|StripEnd(t)|..];
    forall k | 0 <= k < |u|
      ensures IsStripSpace(u[k])
    {
      assert u[k] == t[|StripEnd(t)| + k];
    }
  }

  lemma StrippedInfixAt(s: string, r: string, i: nat)
    requires i + |r| <= |s| && r == s[i..i + |r|] && AllStripSpace(s[..i]) && AllStripSpace(s[i + |r|..])
    requires r == [] || (!IsStripSpace(r[0]) && !IsStripSpace(r[|r| - 1]))
    ensures StrippedInfix(s, r)
  {
  }

  /** Strip space is white space, so blank text strips to blank text. */
  lemma StripSpaceIsWhite(c: char)
    ensures IsStripSpace(c) && c != '\0' ==> IsUnicodeSpace(c)
    ensures IsRegexSpace(c) ==> IsStripSpace(c)
  {
  }

  /** The parts of `s.split("\n")`: the JavaScript split without its trailing empty parts. */
  function RubySplit(s: string): (r: seq<string>)
    ensures |r| <= |Split(s, '\n')| && r == Split(s, '\n')[..|r|]
    ensures r == [] || r[|r| - 1] != []
    ensures forall i :: |r| <= i < |Split(s, '\n')| ==> Split(s, '\n')[i] == []
  {
    DropEmptyTail(Split(s, '\n'))
  }

  function DropEmptyTail(parts: seq<string>): (r: seq<string>)
    ensures |r| <= |parts| && r == parts[..|r|]
    ensures r == [] || r[|r| - 1] != []
    ensures forall i :: |r| <= i < |parts| ==> parts[i] == []
  {
    if parts == [] || parts[|parts| - 1] != [] then parts
    else
      var r := DropEmptyTail(parts[..|parts| - 1]);
      assert forall i :: |r| <= i < |parts| - 1 ==> parts[..|parts| - 1][i] == parts[i];
      r
  }

  /** `lines.join("\n")`. */
  function RubyJoin(lines: seq<string>): string {
    Join(lines, "\n")
  }

  /** Splitting text that does not end in a line break and joining again gives it back. */
  lemma RubySplitJoin(s: string)
    requires s == [] || s[|s| - 1] != '\n'
    ensures RubyJoin(RubySplit(s)) == s
  {
    JoinSplit(s, '\n');
    var parts := Split(s, '\n');
    if s != [] {
      SplitLastIsSuffix(s, '\n');
      assert parts[|parts| - 1] != [];
      assert RubySplit(s) == parts;
    } else {
      assert parts == [""];
      assert RubySplit(s) == [];
    }
  }

  /** Joining lines without line breaks and splitting again gives the lines back, up to trailing empty ones. */
  lemma RubySplitJoinPrefix(lines: seq<string>)
    requires forall i :: 0 <= i < |lines| ==> '\n' !in lines[i]
    ensures |RubySplit(RubyJoin(lines))| <= |lines| && RubySplit(RubyJoin(lines)) == lines[..|RubySplit(RubyJoin(lines))|]
  {
    if lines == [] {
      assert Split("", '\n') == [""];
    } else {
      SplitJoin(lines, '\n');
    }
  }

  /** A character absent from the text is absent from its strip. */
  lemma StripKeepsOut(s: string, c: char)
    requires c !in s
    ensures c !in Strip(s)
  {
    var r := Strip(s);
    var i :| 0 <= i <= |s| - |r| && r == s[i..i + |r|] && AllStripSpace(s[..i]) && AllStripSpace(s[i + |r|..]);
    assert forall k :: 0 <= k < |r| ==> r[k] == s[i + k];
  }

  /** Dropping trailing empty parts leaves a non-empty first part in place. */
  lemma {:induction false} DropEmptyTailCons(a: string, parts: seq<string>)
    requires a != []
    ensures DropEmptyTail([a] + parts) == [a] + DropEmptyTail(parts)
    decreases |parts|
  {
    if parts != [] && parts[|parts| - 1] == [] {
      assert ([a] + parts)[..|parts|] == [a] + parts[..|parts| - 1];
      DropEmptyTailCons(a, parts[..|parts| - 1]);
    }
  }

  /** A non-empty first line splits off on its own. */
  lemma RubySplitFirstLine(a: string, b: string)
    requires a != [] && '\n' !in a
    ensures RubySplit(a + "\n" + b) == [a] + RubySplit(b)
  {
    SplitPrefix(a, b, '\n');
    DropEmptyTailCons(a, Split(b, '\n'));
  }

  /** The last part of a split is a suffix of the text after its last separator. */
  lemma {:induction false} SplitLastIsSuffix(s: string, c: char)
    requires s != [] && s[|s| - 1] != c
    ensures var parts := Split(s, c); parts[|parts| - 1] != [] && parts[|parts| - 1][|parts[|parts| - 1]| - 1] == s[|s| - 1]
  {
    var rest := Split(s[1..], c);
    if |s| == 1 {
      assert rest == [""];
    } else {
      SplitLastIsSuffix(s[1..], c);
    }
  }
}
