/**
 * The slice of ECMAScript string semantics the automation scripts rely on:
 * the `\s` / `trim()` character class, `split` with a one-character or a
 * string separator, `join`, `includes`, `startsWith`, `indexOf`, and
 * `.length` / `.slice(0, n)`, which count UTF-16 code units.
 *
 * Strings are sequences of Unicode scalar values; a scalar above U+FFFF is
 * two UTF-16 code units (a surrogate pair).
 */
module JsText {
  import opened Outcomes

  /** ECMAScript WhiteSpace code points (section 12.2 of ECMA-262). */
  predicate IsWhiteSpace(c: char) {
    c == '\t' || c == '\U{000B}' || c == '\U{000C}' || c == ' ' || c == '\U{00A0}' || c == '\U{FEFF}'
    || c == '\U{1680}' || ('\U{2000}' <= c <= '\U{200A}') || c == '\U{202F}' || c == '\U{205F}'
    || c == '\U{3000}'
  }

  /** ECMAScript LineTerminator code points (section 12.3 of ECMA-262). */
  predicate IsLineTerminator(c: char) {
    c == '\n' || c == '\r' || c == '\U{2028}' || c == '\U{2029}'
  }

  /** The class matched by the regular-expression escape `\s` and stripped by `trim()`. */
  predicate IsSpace(c: char) {
    IsWhiteSpace(c) || IsLineTerminator(c)
  }

  predicate AllSpace(s: string) {
    forall i :: 0 <= i < |s| ==> IsSpace(s[i])
  }

  function TrimStart(s: string): (r: string)
    ensures |r| <= |s| && r == s[|s| - |r|..]
    ensures AllSpace(s[..|s| - |r|])
    ensures r == [] || !IsSpace(r[0])
  {
    if s == [] || !IsSpace(s[0]) then s
    else
      var r := TrimStart(s[1..]);
      assert s[..|s| - |r|] == [s[0]] + s[1..][..|s| - 1 - |r|];
      r
  }

  function TrimEnd(s: string): (r: string)
    ensures |r| <= |s| && r == s[..|r|]
    ensures AllSpace(s[|r|..])
    ensures r == [] || !IsSpace(r[|r| - 1])
  {
    if s == [] || !IsSpace(s[|s| - 1]) then s
    else
      var r := TrimEnd(s[..|s| - 1]);
      assert s[|r|..] == s[..|s| - 1][|r|..] + [s[|s| - 1]];
      r
  }

  /** `String.prototype.trim`: the longest infix with no `\s` at either end. */
  function Trim(s: string): (r: string)
    ensures TrimmedInfix(s, r)
  {
    StripInfix(s);
    TrimEnd(TrimStart(s))
  }

  lemma StripInfix(s: string)
    ensures TrimmedInfix(s, TrimEnd(TrimStart(s)))
  {
    TrimFromEnds(s, TrimStart(s), TrimEnd(TrimStart(s)));
  }

  /** `r` is an infix of `s` with no `\s` at either end and only `\s` around it. */
  predicate TrimmedInfix(s: string, r: string) {
    && (r == [] || (!IsSpace(r[0]) && !IsSpace(r[|r| - 1])))
    && exists i :: 0 <= i <= |s| - |r| && r == s[i..i + |r|] && AllSpace(s[..i]) && AllSpace(s[i + |r|..])
  }

  /** Stripping an all-`\s` prefix and then an all-`\s` suffix leaves an infix with `\s` on either side only. */
  lemma TrimFromEnds(s: string, t: string, r: string)
    requires |t| <= |s| && t == s[|s| - |t|..] && AllSpace(s[..|s| - |t|]) && (t == [] || !IsSpace(t[0]))
    requires |r| <= |t| && r == t[..|r|] && AllSpace(t[|r|..]) && (r == [] || !IsSpace(r[|r| - 1]))
    ensures TrimmedInfix(s, r)
  {
    var i := |s| - |t|;
    assert s[i + |r|..] == t[|r|..];
    if r != [] {
      assert r[0] == t[0];
    }
    assert r == s[i..i + |r|] && AllSpace(s[..i]) && AllSpace(s[i + |r|..]);
  }

  lemma TrimDef(s: string)
    ensures Trim(s) == TrimEnd(TrimStart(s))
  {
  }

  lemma TrimOfTrimmed(s: string)
    requires s == [] || (!IsSpace(s[0]) && !IsSpace(s[|s| - 1]))
    ensures Trim(s) == s
  {
    TrimDef(s);
    assert TrimStart(s) == s;
  }

  lemma TrimOfInfix(s: string, r: string)
    requires TrimmedInfix(s, r)
    ensures Trim(r) == r
  {
    TrimOfTrimmed(r);
  }

  lemma TrimIdempotent(s: string)
    ensures Trim(Trim(s)) == Trim(s)
  {
    TrimOfInfix(s, Trim(s));
  }

  /** Every character of a trimmed infix occurs in the text. */
  lemma InfixChars(s: string, r: string)
    requires TrimmedInfix(s, r)
    ensures forall c :: c in r ==> c in s
  {
    var i :| 0 <= i <= |s| - |r| && r == s[i..i + |r|] && AllSpace(s[..i]) && AllSpace(s[i + |r|..]);
    SliceChars(s, i, i + |r|);
  }

  lemma SliceChars(s: string, i: nat, j: nat)
    requires i <= j <= |s|
    ensures forall c :: c in s[i..j] ==> c in s
  {
    forall c | c in s[i..j]
      ensures c in s
    {
      var k :| 0 <= k < j - i && s[i..j][k] == c;
      assert s[i + k] == c;
    }
  }

  /** Trimming text without line terminators leaves none. */
  lemma TrimNoLineTerminator(s: string)
    requires forall i :: 0 <= i < |s| ==> !IsLineTerminator(s[i])
    ensures forall i :: 0 <= i < |Trim(s)| ==> !IsLineTerminator(Trim(s)[i])
  {
    var r := Trim(s);
    InfixChars(s, r);
    forall i | 0 <= i < |r|
      ensures !IsLineTerminator(r[i])
    {
      assert r[i] in s;
    }
  }

  /** A character absent from the text is absent from its trim. */
  lemma TrimKeepsOut(s: string, c: char)
    requires c !in s
    ensures c !in Trim(s)
  {
    InfixChars(s, Trim(s));
  }

  /** `trim()` is empty exactly when every character is `\s`. */
  lemma TrimEmptyIff(s: string)
    ensures Trim(s) == [] <==> AllSpace(s)
  {
    InfixEmpty(s, Trim(s));
  }

  /** The position at which a trimmed infix sits. */
  lemma InfixStart(s: string, r: string) returns (i: nat)
    requires TrimmedInfix(s, r)
    ensures i + |r| <= |s| && r == s[i..i + |r|]
  {
    i :| 0 <= i <= |s| - |r| && r == s[i..i + |r|] && AllSpace(s[..i]) && AllSpace(s[i + |r|..]);
  }

  lemma InfixEmpty(s: string, r: string)
    requires TrimmedInfix(s, r)
    ensures r == [] <==> AllSpace(s)
  {
    var i :| 0 <= i <= |s| - |r| && r == s[i..i + |r|] && AllSpace(s[..i]) && AllSpace(s[i + |r|..]);
    if r == [] {
      assert s == s[..i] + s[i..];
      AllSpaceAppend(s[..i], s[i..]);
    } else {
      assert r[0] == s[i];
    }
  }

  lemma {:induction false} TrimStartPadded(pre: string, y: string)
    requires AllSpace(pre)
    ensures TrimStart(pre + y) == TrimStart(y)
  {
    if pre != [] {
      assert (pre + y)[1..] == pre[1..] + y;
      TrimStartPadded(pre[1..], y);
    } else {
      assert pre + y == y;
    }
  }

  lemma {:induction false} TrimEndPadded(y: string, post: string)
    requires AllSpace(post)
    ensures TrimEnd(y + post) == TrimEnd(y)
  {
    if post != [] {
      var n := |post| - 1;
      assert (y + post)[..|y + post| - 1] == y + post[..n];
      TrimEndPadded(y, post[..n]);
    } else {
      assert y + post == y;
    }
  }

  lemma {:induction false} TrimStartAppend(x: string, post: string)
    requires !AllSpace(x)
    ensures TrimStart(x + post) == TrimStart(x) + post
  {
    if IsSpace(x[0]) {
      assert (x + post)[1..] == x[1..] + post;
      TrimStartAppend(x[1..], post);
    }
  }

  /** Trimming ignores surrounding whitespace. */
  lemma TrimPadded(pre: string, x: string, post: string)
    requires AllSpace(pre) && AllSpace(post)
    ensures Trim(pre + x + post) == Trim(x)
  {
    if AllSpace(x) {
      assert AllSpace(pre + x + post) by {
        AllSpaceAppend(pre, x);
        AllSpaceAppend(pre + x, post);
      }
      TrimEmptyIff(pre + x + post);
      TrimEmptyIff(x);
    } else {
      calc {
        Trim(pre + x + post);
      == { TrimDef(pre + x + post); }
        TrimEnd(TrimStart(pre + x + post));
      == { assert pre + x + post == pre + (x + post); TrimStartPadded(pre, x + post); }
        TrimEnd(TrimStart(x + post));
      == { TrimStartAppend(x, post); }
        TrimEnd(TrimStart(x) + post);
      == { TrimEndPadded(TrimStart(x), post); }
        TrimEnd(TrimStart(x));
      == { TrimDef(x); }
        Trim(x);
      }
    }
  }

  lemma AllSpaceAppend(a: string, b: string)
    requires AllSpace(a) && AllSpace(b)
    ensures AllSpace(a + b)
  {
    forall k | 0 <= k < |a + b|
      ensures IsSpace((a + b)[k])
    {
      if k < |a| {
        assert (a + b)[k] == a[k];
      } else {
        assert (a + b)[k] == b[k - |a|];
      }
    }
  }

  /** `xs.filter(p)`. */
  function Filter<T>(p: T -> bool, xs: seq<T>): (ys: seq<T>)
    ensures |ys| <= |xs|
  {
    if xs == [] then []
    else if p(xs[0]) then [xs[0]] + Filter(p, xs[1..])
    else Filter(p, xs[1..])
  }

  /** Every kept element passes the test and comes from the input. */
  lemma {:induction false} FilterKeeps<T>(p: T -> bool, xs: seq<T>)
    ensures forall i :: 0 <= i < |Filter(p, xs)| ==> p(Filter(p, xs)[i]) && Filter(p, xs)[i] in xs
  {
    if xs != [] {
      FilterKeeps(p, xs[1..]);
      var ys := Filter(p, xs);
      var tail := Filter(p, xs[1..]);
      forall i | 0 <= i < |ys|
        ensures p(ys[i]) && ys[i] in xs
      {
        if p(xs[0]) {
          if i > 0 {
            assert ys[i] == tail[i - 1];
            assert tail[i - 1] in xs[1..];
          }
        } else {
          assert ys[i] == tail[i];
          assert tail[i] in xs[1..];
        }
      }
    }
  }

  /** Every element that passes the test is kept. */
  lemma {:induction false} FilterComplete<T>(p: T -> bool, xs: seq<T>)
    ensures forall i :: 0 <= i < |xs| && p(xs[i]) ==> xs[i] in Filter(p, xs)
  {
    if xs != [] {
      FilterComplete(p, xs[1..]);
      forall i | 1 <= i < |xs| && p(xs[i])
        ensures xs[i] in Filter(p, xs)
      {
        assert xs[i] == xs[1..][i - 1];
      }
    }
  }

  /** When every element passes, nothing is dropped. */
  lemma {:induction false} FilterAll<T>(p: T -> bool, xs: seq<T>)
    requires forall i :: 0 <= i < |xs| ==> p(xs[i])
    ensures Filter(p, xs) == xs
  {
    if xs != [] {
      FilterAll(p, xs[1..]);
      assert [xs[0]] + xs[1..] == xs;
    }
  }

  /** `xs.map(f)` with the undefined results dropped: the defined values, in order. */
  function MapFilter<A, B>(f: A -> Option<B>, xs: seq<A>): (ys: seq<B>)
    ensures |ys| <= |xs|
  {
    if xs == [] then []
    else match f(xs[0])
      case None => MapFilter(f, xs[1..])
      case Some(y) => [y] + MapFilter(f, xs[1..])
  }

  /** A property every defined result has holds of every value kept. */
  lemma {:induction false} MapFilterAll<A, B>(f: A -> Option<B>, xs: seq<A>, p: B -> bool)
    requires forall i :: 0 <= i < |xs| && f(xs[i]).Some? ==> p(f(xs[i]).value)
    ensures forall k :: 0 <= k < |MapFilter(f, xs)| ==> p(MapFilter(f, xs)[k])
  {
    if xs != [] {
      MapFilterAll(f, xs[1..], p);
      var ys := MapFilter(f, xs);
      var tail := MapFilter(f, xs[1..]);
      if f(xs[0]).Some? {
        forall k | 0 <= k < |ys|
          ensures p(ys[k])
        {
          if k > 0 {
            assert ys[k] == tail[k - 1];
          }
        }
      }
    }
  }

  lemma MapFilterCons<A, B>(f: A -> Option<B>, x: A, rest: seq<A>)
    ensures MapFilter(f, [x] + rest) == if f(x).Some? then [f(x).value] + MapFilter(f, rest) else MapFilter(f, rest)
  {
    assert ([x] + rest)[1..] == rest;
  }

  /**
   * The loop that keeps the first element of each key: an element whose key
   * is not in `seen` is kept and its key added.
   */
  function DedupeBy<T, K>(key: T -> K, xs: seq<T>, seen: set<K>): (ys: seq<T>)
    ensures |ys| <= |xs|
  {
    if xs == [] then []
    else if key(xs[0]) in seen then DedupeBy(key, xs[1..], seen)
    else [xs[0]] + DedupeBy(key, xs[1..], seen + {key(xs[0])})
  }

  /** Every kept element comes from the input with a key not seen before, and no two kept elements share a key. */
  lemma {:induction false} DedupeKeeps<T, K>(key: T -> K, xs: seq<T>, seen: set<K>)
    ensures forall i :: 0 <= i < |DedupeBy(key, xs, seen)| ==>
      DedupeBy(key, xs, seen)[i] in xs && key(DedupeBy(key, xs, seen)[i]) !in seen
    ensures forall i, j :: 0 <= i < j < |DedupeBy(key, xs, seen)| ==>
      key(DedupeBy(key, xs, seen)[i]) != key(DedupeBy(key, xs, seen)[j])
  {
    if xs != [] {
      var k := key(xs[0]);
      var ys := DedupeBy(key, xs, seen);
      if k in seen {
        assert ys == DedupeBy(key, xs[1..], seen);
        DedupeKeeps(key, xs[1..], seen);
        forall i | 0 <= i < |ys|
          ensures ys[i] in xs
        {
          assert ys[i] in xs[1..];
        }
      } else {
        var tail := DedupeBy(key, xs[1..], seen + {k});
        DedupeKeeps(key, xs[1..], seen + {k});
        assert ys == [xs[0]] + tail;
        forall i | 0 <= i < |ys|
          ensures ys[i] in xs && key(ys[i]) !in seen
        {
          if i > 0 {
            assert ys[i] == tail[i - 1];
            assert tail[i - 1] in xs[1..];
          }
        }
        forall i, j | 0 <= i < j < |ys|
          ensures key(ys[i]) != key(ys[j])
        {
          assert ys[j] == tail[j - 1];
          if i > 0 {
            assert ys[i] == tail[i - 1];
          }
        }
      }
    }
  }

  /** The element with the key of `xs[i]` that is kept. */
  lemma {:induction false} DedupeKeepsKey<T, K>(key: T -> K, xs: seq<T>, seen: set<K>, i: nat) returns (j: nat)
    requires i < |xs| && key(xs[i]) !in seen
    ensures j < |DedupeBy(key, xs, seen)| && key(DedupeBy(key, xs, seen)[j]) == key(xs[i])
  {
    var k := key(xs[0]);
    assert xs[1..] == xs[1..];
    if k in seen {
      assert DedupeBy(key, xs, seen) == DedupeBy(key, xs[1..], seen);
      assert xs[i] == xs[1..][i - 1];
      j := DedupeKeepsKey(key, xs[1..], seen, i - 1);
    } else if key(xs[i]) == k {
      assert DedupeBy(key, xs, seen)[0] == xs[0];
      j := 0;
    } else {
      var tail := DedupeBy(key, xs[1..], seen + {k});
      assert DedupeBy(key, xs, seen) == [xs[0]] + tail;
      assert xs[i] == xs[1..][i - 1];
      var t := DedupeKeepsKey(key, xs[1..], seen + {k}, i - 1);
      j := t + 1;
    }
  }

  /** Some element of `ys` has the key `v`. */
  ghost predicate HasKey<T, K>(key: T -> K, ys: seq<T>, v: K) {
    exists j :: 0 <= j < |ys| && key(ys[j]) == v
  }

  /** Every key of the input that was not seen before is kept. */
  lemma DedupeComplete<T, K>(key: T -> K, xs: seq<T>, seen: set<K>)
    ensures forall i :: 0 <= i < |xs| && key(xs[i]) !in seen ==> HasKey(key, DedupeBy(key, xs, seen), key(xs[i]))
  {
    forall i | 0 <= i < |xs| && key(xs[i]) !in seen
      ensures HasKey(key, DedupeBy(key, xs, seen), key(xs[i]))
    {
      var j := DedupeKeepsKey(key, xs, seen, i);
    }
  }

  /** Every kept element is the first element of the input with its key. */
  lemma {:induction false} DedupeFirst<T, K>(key: T -> K, xs: seq<T>, seen: set<K>)
    ensures forall j :: 0 <= j < |DedupeBy(key, xs, seen)| ==>
      exists i :: 0 <= i < |xs| && xs[i] == DedupeBy(key, xs, seen)[j]
        && forall q :: 0 <= q < i ==> key(xs[q]) != key(DedupeBy(key, xs, seen)[j])
  {
    if xs != [] {
      var k := key(xs[0]);
      var ys := DedupeBy(key, xs, seen);
      var seen' := if k in seen then seen else seen + {k};
      assert ys == DedupeBy(key, xs, seen);
      var tail := DedupeBy(key, xs[1..], seen');
      assert ys == if k in seen then tail else [xs[0]] + tail;
      DedupeFirst(key, xs[1..], seen');
      DedupeKeeps(key, xs[1..], seen');
      forall j | 0 <= j < |ys|
        ensures exists i :: 0 <= i < |xs| && xs[i] == ys[j] && forall q :: 0 <= q < i ==> key(xs[q]) != key(ys[j])
      {
        if k !in seen && j == 0 {
          assert xs[0] == ys[0];
        } else {
          var t := if k in seen then j else j - 1;
          assert ys[j] == tail[t];
          var i :| 0 <= i < |xs[1..]| && xs[1..][i] == tail[t] && forall q :: 0 <= q < i ==> key(xs[1..][q]) != key(tail[t]);
          assert key(tail[t]) != k;
          forall q | 0 <= q < i + 1
            ensures key(xs[q]) != key(ys[j])
          {
            if q > 0 {
              assert xs[q] == xs[1..][q - 1];
            }
          }
          assert xs[i + 1] == ys[j];
        }
      }
    } else {
      assert DedupeBy(key, xs, seen) == [];
    }
  }

  /** `xs.findIndex(p)` as an option: the first index whose element passes. */
  function FirstWhere<T>(p: T -> bool, xs: seq<T>): (r: Option<nat>)
    ensures r.Some? ==> r.value < |xs| && p(xs[r.value]) && forall j :: 0 <= j < r.value ==> !p(xs[j])
    ensures r.None? ==> forall j :: 0 <= j < |xs| ==> !p(xs[j])
  {
    if xs == [] then None
    else if p(xs[0]) then Some(0)
    else
      match FirstWhere(p, xs[1..])
      case None => None
      case Some(k) => Some(k + 1)
  }

  /** The search over a sequence with one more element in front. */
  lemma FirstWhereCons<T>(p: T -> bool, x: T, xs: seq<T>)
    ensures p(x) ==> FirstWhere(p, [x] + xs) == Some(0)
    ensures !p(x) && FirstWhere(p, xs).None? ==> FirstWhere(p, [x] + xs).None?
    ensures !p(x) && FirstWhere(p, xs).Some? ==> FirstWhere(p, [x] + xs) == Some(FirstWhere(p, xs).value + 1)
  {
    assert ([x] + xs)[1..] == xs;
  }

  /** The greatest position from `j` down to `lo` that passes, as a backtracking search finds it. */
  function LastWhere(p: nat -> bool, lo: nat, j: nat): (r: Option<nat>)
    ensures r.Some? ==> lo <= r.value <= j && p(r.value)
    ensures r.Some? ==> forall k :: r.value < k <= j ==> !p(k)
    ensures r.None? ==> forall k :: lo <= k <= j ==> !p(k)
    decreases j
  {
    if j < lo then None
    else if p(j) then Some(j)
    else if j == lo then None
    else LastWhere(p, lo, j - 1)
  }

  /** The search finds a passing position above which nothing up to the start passes. */
  lemma LastWhereAt(p: nat -> bool, lo: nat, lim: nat, j: nat)
    requires lo <= j <= lim && p(j)
    requires forall k :: j < k <= lim ==> !p(k)
    ensures LastWhere(p, lo, lim) == Some(j)
  {
  }

  /** `xs.map(f)`. */
  function MapSeq<A, B>(f: A -> B, xs: seq<A>): (ys: seq<B>)
    ensures |ys| == |xs|
  {
    if xs == [] then [] else [f(xs[0])] + MapSeq(f, xs[1..])
  }

  lemma {:induction false} MapSeqAt<A, B>(f: A -> B, xs: seq<A>, i: nat)
    requires i < |xs|
    ensures MapSeq(f, xs)[i] == f(xs[i])
  {
    if i > 0 {
      MapSeqAt(f, xs[1..], i - 1);
    }
  }

  /** Mapping commutes with replacing one element. */
  lemma {:induction false} MapSeqUpdate<A, B>(f: A -> B, xs: seq<A>, r: nat, x: A)
    requires r < |xs|
    ensures MapSeq(f, xs[r := x]) == MapSeq(f, xs)[r := f(x)]
  {
    if r > 0 {
      assert xs[r := x][1..] == xs[1..][r - 1 := x];
      MapSeqUpdate(f, xs[1..], r - 1, x);
    } else {
      assert xs[r := x][1..] == xs[1..];
    }
  }

  // ---------------------------------------------------------------------------
  // UTF-16 length

  /** Number of UTF-16 code units of one scalar value. */
  function Units(c: char): (n: nat)
    ensures 1 <= n <= 2
  {
    if c as int > 0xFFFF then 2 else 1
  }

  /** JavaScript `s.length`. */
  function Utf16Length(s: string): (n: nat)
    ensures |s| <= n <= 2 * |s|
    ensures s == [] <==> n == 0
  {
    if s == [] then 0 else Units(s[0]) + Utf16Length(s[1..])
  }

  lemma Utf16LengthAppend(a: string, b: string)
    ensures Utf16Length(a + b) == Utf16Length(a) + Utf16Length(b)
  {
    if a != [] {
      assert (a + b)[1..] == a[1..] + b;
      Utf16LengthAppend(a[1..], b);
    } else {
      assert a + b == b;
    }
  }

  /**
   * `s.slice(0, n)`, taken on whole scalar values: the longest prefix whose
   * UTF-16 length does not exceed `n`.
   */
  function Utf16Prefix(s: string, n: nat): (r: string)
    ensures |r| <= |s| && r == s[..|r|]
    ensures Utf16Length(r) <= n
    ensures Utf16Length(s) <= n ==> r == s
    ensures r != s ==> Utf16Length(r) + Units(s[|r|]) > n
  {
    if s == [] || Units(s[0]) > n then []
    else
      var rest := Utf16Prefix(s[1..], n - Units(s[0]));
      var r := [s[0]] + rest;
      assert r[1..] == rest;
      assert r == s[..|r|];
      r
  }

  // ---------------------------------------------------------------------------
  // Prefixes and infixes

  predicate StartsWith(s: string, p: string) {
    |p| <= |s| && s[..|p|] == p
  }

  predicate EndsWith(s: string, p: string) {
    |p| <= |s| && s[|s| - |p|..] == p
  }

  /** `s.includes(sub)`. */
  predicate Contains(s: string, sub: string)
    decreases |s|
  {
    StartsWith(s, sub) || (s != [] && Contains(s[1..], sub))
  }

  lemma ContainsInfix(s: string, sub: string, i: nat)
    requires i + |sub| <= |s| && s[i..i + |sub|] == sub
    ensures Contains(s, sub)
    decreases i
  {
    if i > 0 {
      assert s[1..][i - 1..i - 1 + |sub|] == sub;
      ContainsInfix(s[1..], sub, i - 1);
    }
  }

  lemma ContainsMiddle(x: string, sub: string, y: string)
    ensures Contains(x + sub + y, sub)
  {
    var s := x + sub + y;
    assert s[|x|..|x| + |sub|] == sub;
    ContainsInfix(s, sub, |x|);
  }

  lemma ContainsAppendRight(a: string, b: string, sub: string)
    requires Contains(b, sub)
    ensures Contains(a + b, sub)
    decreases |a|
  {
    if a != [] {
      assert (a + b)[1..] == a[1..] + b;
      ContainsAppendRight(a[1..], b, sub);
    } else {
      assert a + b == b;
    }
  }

  /** ASCII lower-casing of one character. */
  function AsciiLower(c: char): (r: char)
    ensures ('A' <= c <= 'Z') ==> r as int == c as int + 32
    ensures !('A' <= c <= 'Z') ==> r == c
  {
    if 'A' <= c <= 'Z' then (c as int + 32) as char else c
  }

  function LowerCase(s: string): (r: string)
    ensures |r| == |s|
    ensures forall i :: 0 <= i < |s| ==> r[i] == AsciiLower(s[i])
  {
    if s == [] then [] else [AsciiLower(s[0])] + LowerCase(s[1..])
  }

  // ---------------------------------------------------------------------------
  // split / join

  /** `s.split(c)` for a one-character separator. */
  function Split(s: string, c: char): (r: seq<string>)
    ensures |r| >= 1
    ensures forall i :: 0 <= i < |r| ==> c !in r[i]
  {
    if s == [] then [""]
    else
      var rest := Split(s[1..], c);
      if s[0] == c then [""] + rest
      else [[s[0]] + rest[0]] + rest[1..]
  }

  /** `parts.join(sep)`. */
  function Join(parts: seq<string>, sep: string): (r: string)
  {
    if parts == [] then ""
    else if |parts| == 1 then parts[0]
    else parts[0] + sep + Join(parts[1..], sep)
  }

  /** Splitting and re-joining on the same character is the identity. */
  lemma {:induction false} JoinSplit(s: string, c: char)
    ensures Join(Split(s, c), [c]) == s
  {
    if s != [] {
      JoinSplit(s[1..], c);
      var rest := Split(s[1..], c);
      if s[0] == c {
        assert Split(s, c) == [""] + rest;
        assert ([""] + rest)[1..] == rest;
      } else {
        var r := Split(s, c);
        assert r[0] == [s[0]] + rest[0];
        assert r[1..] == rest[1..];
        if |rest| == 1 {
          assert Join(r, [c]) == [s[0]] + rest[0];
        } else {
          assert Join(r, [c]) == [s[0]] + rest[0] + [c] + Join(rest[1..], [c]);
          assert Join(rest, [c]) == rest[0] + [c] + Join(rest[1..], [c]);
        }
      }
    }
  }

  /** Joining separator-free parts and splitting again gives the parts back. */
  lemma {:induction false} SplitJoin(parts: seq<string>, c: char)
    requires |parts| >= 1
    requires forall i :: 0 <= i < |parts| ==> c !in parts[i]
    ensures Split(Join(parts, [c]), c) == parts
  {
    if |parts| == 1 {
      SplitNoSeparator(parts[0], c);
    } else {
      SplitJoin(parts[1..], c);
      SplitPrefix(parts[0], Join(parts[1..], [c]), c);
      assert [parts[0]] + parts[1..] == parts;
    }
  }

  /** A character absent from the text is absent from every part of its split. */
  lemma {:induction false} SplitKeepsOut(s: string, c: char, d: char)
    requires d !in s
    ensures forall i :: 0 <= i < |Split(s, c)| ==> d !in Split(s, c)[i]
  {
    if s != [] {
      SplitKeepsOut(s[1..], c, d);
      var rest := Split(s[1..], c);
      if s[0] != c {
        assert Split(s, c) == [[s[0]] + rest[0]] + rest[1..];
        assert forall i :: 1 <= i < |Split(s, c)| ==> Split(s, c)[i] == rest[i];
      } else {
        assert Split(s, c) == [""] + rest;
      }
    }
  }

  /** A character absent from the parts and the separator is absent from the join. */
  lemma {:induction false} JoinKeepsOut(parts: seq<string>, sep: string, d: char)
    requires d !in sep && forall i :: 0 <= i < |parts| ==> d !in parts[i]
    ensures d !in Join(parts, sep)
  {
    if |parts| > 1 {
      JoinKeepsOut(parts[1..], sep, d);
    }
  }

  lemma {:induction false} SplitNoSeparator(s: string, c: char)
    requires c !in s
    ensures Split(s, c) == [s]
  {
    if s != [] {
      SplitNoSeparator(s[1..], c);
      assert [s[0]] + s[1..] == s;
    }
  }

  lemma {:induction false} SplitPrefix(a: string, b: string, c: char)
    requires c !in a
    ensures Split(a + [c] + b, c) == [a] + Split(b, c)
  {
    if a == [] {
      assert a + [c] + b == [c] + b;
      assert ([c] + b)[1..] == b;
    } else {
      assert (a + [c] + b)[1..] == a[1..] + [c] + b;
      SplitPrefix(a[1..], b, c);
      assert (a + [c] + b)[0] == a[0];
      assert [a[0]] + a[1..] == a;
    }
  }

  /** A trailing separator adds one empty part. */
  lemma {:induction false} SplitAppendSeparator(s: string, c: char)
    ensures Split(s + [c], c) == Split(s, c) + [""]
  {
    if s == [] {
      assert [c][1..] == [];
    } else {
      assert (s + [c])[1..] == s[1..] + [c];
      SplitAppendSeparator(s[1..], c);
    }
  }

  /** The first part of a split is a prefix of the input. */
  lemma {:induction false} SplitFirstIsPrefix(s: string, c: char)
    ensures StartsWith(s, Split(s, c)[0])
  {
    if s != [] {
      SplitFirstIsPrefix(s[1..], c);
    }
  }

  /** The parts, each followed by `c`: what a loop of `text += part + '\n'` builds. */
  function Terminated(parts: seq<string>, c: char): (r: string)
    ensures |r| >= |parts|
  {
    if parts == [] then "" else parts[0] + [c] + Terminated(parts[1..], c)
  }

  lemma {:induction false} TerminatedAppend(parts: seq<string>, x: string, c: char)
    ensures Terminated(parts + [x], c) == Terminated(parts, c) + x + [c]
  {
    if parts == [] {
      assert [x][1..] == [];
    } else {
      assert (parts + [x])[1..] == parts[1..] + [x];
      TerminatedAppend(parts[1..], x, c);
    }
  }

  /** Splitting separator-free parts, each terminated, gives the parts and one empty tail. */
  lemma {:induction false} SplitTerminated(parts: seq<string>, c: char)
    requires forall i :: 0 <= i < |parts| ==> c !in parts[i]
    ensures Split(Terminated(parts, c), c) == parts + [""]
  {
    if parts != [] {
      SplitTerminated(parts[1..], c);
      SplitPrefix(parts[0], Terminated(parts[1..], c), c);
      assert [parts[0]] + (parts[1..] + [""]) == parts + [""];
    }
  }

  /** `s.split(sep)` for a separator string: non-overlapping, leftmost occurrences. */
  function SplitOn(s: string, sep: string): (r: seq<string>)
    requires sep != []
    ensures |r| >= 1
  {
    if |s| < |sep| then [s]
    else if s[..|sep|] == sep then [""] + SplitOn(s[|sep|..], sep)
    else
      var rest := SplitOn(s[1..], sep);
      [[s[0]] + rest[0]] + rest[1..]
  }

  lemma {:induction false} JoinSplitOn(s: string, sep: string)
    requires sep != []
    ensures Join(SplitOn(s, sep), sep) == s
  {
    if |s| >= |sep| {
      if s[..|sep|] == sep {
        JoinSplitOn(s[|sep|..], sep);
        JoinEmptyHead(SplitOn(s[|sep|..], sep), sep);
        assert s == sep + s[|sep|..];
      } else {
        JoinSplitOn(s[1..], sep);
        JoinConsHead(s[0], SplitOn(s[1..], sep), sep);
        assert s == [s[0]] + s[1..];
      }
    }
  }

  lemma JoinEmptyHead(rest: seq<string>, sep: string)
    requires rest != []
    ensures Join([""] + rest, sep) == sep + Join(rest, sep)
  {
    assert ([""] + rest)[1..] == rest;
  }

  lemma JoinConsHead(x: char, rest: seq<string>, sep: string)
    requires rest != []
    ensures Join([[x] + rest[0]] + rest[1..], sep) == [x] + Join(rest, sep)
  {
    var r := [[x] + rest[0]] + rest[1..];
    assert r[1..] == rest[1..];
    if |rest| > 1 {
      assert Join(rest, sep) == rest[0] + sep + Join(rest[1..], sep);
    }
  }

  lemma JoinThree(a: string, b: string, c: string, sep: string)
    ensures Join([a, b, c], sep) == a + sep + b + sep + c
  {
    assert [a, b, c][1..] == [b, c];
    assert [b, c][1..] == [c];
    assert Join([b, c], sep) == b + sep + c;
    assert Join([a, b, c], sep) == a + sep + (b + sep + c);
  }

  lemma JoinFour(a: string, b: string, c: string, d: string, sep: string)
    ensures Join([a, b, c, d], sep) == a + sep + b + sep + c + sep + d
  {
    assert [a, b, c, d][1..] == [b, c, d];
    JoinThree(b, c, d, sep);
    assert Join([a, b, c, d], sep) == a + sep + (b + sep + c + sep + d);
  }

  lemma JoinAppend(a: seq<string>, b: seq<string>, sep: string)
    requires a != [] && b != []
    ensures Join(a + b, sep) == Join(a, sep) + sep + Join(b, sep)
  {
    if |a| == 1 {
      assert (a + b)[1..] == b;
    } else {
      assert (a + b)[1..] == a[1..] + b;
      JoinAppend(a[1..], b, sep);
    }
  }

  /** Number of characters before the first line terminator. */
  function LineRun(s: string): (n: nat)
    ensures n <= |s|
    ensures forall i :: 0 <= i < n ==> !IsLineTerminator(s[i])
    ensures n < |s| ==> IsLineTerminator(s[n])
  {
    if s == [] || IsLineTerminator(s[0]) then 0 else 1 + LineRun(s[1..])
  }

  /** A text without line terminators is one run. */
  lemma {:induction false} LineRunWhole(t: string)
    requires forall i :: 0 <= i < |t| ==> !IsLineTerminator(t[i])
    ensures LineRun(t) == |t|
  {
    if t != [] {
      LineRunWhole(t[1..]);
    }
  }

  /** Number of leading characters that `\s` matches (line terminators included). */
  function SpaceRun(s: string): (n: nat)
    ensures n <= |s|
    ensures forall i :: 0 <= i < n ==> IsSpace(s[i])
    ensures n < |s| ==> !IsSpace(s[n])
  {
    if s == [] || !IsSpace(s[0]) then 0 else 1 + SpaceRun(s[1..])
  }

  // ---------------------------------------------------------------------------
  // Array search

  /** `xs.indexOf(x)`: the first position of `x`, or -1. */
  function IndexOf<T(==)>(xs: seq<T>, x: T): (r: int)
    ensures -1 <= r < |xs|
    ensures r == -1 <==> x !in xs
    ensures 0 <= r ==> xs[r] == x && x !in xs[..r]
  {
    if xs == [] then -1
    else if xs[0] == x then 0
    else
      var k := IndexOf(xs[1..], x);
      if k == -1 then -1
      else
        assert xs[..k + 1] == [xs[0]] + xs[1..][..k];
        k + 1
  }
}
