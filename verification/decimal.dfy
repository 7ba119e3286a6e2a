/**
 * Decimal integers as the scripts print and read them: template-literal
 * interpolation of a count (`${len}`) and JavaScript's `Number(str)` on the
 * plain decimal spellings.
 */
module Decimal {
  import opened JsText
  import opened Outcomes

  predicate IsDigit(c: char) {
    '0' <= c <= '9'
  }

  predicate AllDigits(s: string) {
    forall i :: 0 <= i < |s| ==> IsDigit(s[i])
  }

  /** Number of leading ASCII digits. */
  function DigitRun(s: string): (n: nat)
    ensures n <= |s|
    ensures forall i :: 0 <= i < n ==> IsDigit(s[i])
    ensures n < |s| ==> !IsDigit(s[n])
  {
    if s == [] || !IsDigit(s[0]) then 0 else 1 + DigitRun(s[1..])
  }

  /** A run of digits followed by anything but a digit is counted whole. */
  lemma {:induction false} DigitRunPrefix(id: string, rest: string)
    requires AllDigits(id) && (rest == [] || !IsDigit(rest[0]))
    ensures DigitRun(id + rest) == |id|
  {
    if id != [] {
      assert (id + rest)[1..] == id[1..] + rest;
      DigitRunPrefix(id[1..], rest);
    } else {
      assert id + rest == rest;
    }
  }

  function DigitChar(d: nat): (c: char)
    requires d < 10
    ensures IsDigit(c) && c as int - '0' as int == d
  {
    ('0' as int + d) as char
  }

  /** `String(n)` for a non-negative integer: its digits, most significant first, no leading zero. */
  function Show(n: nat): (s: string)
    ensures s != [] && AllDigits(s)
    ensures |s| > 1 ==> s[0] != '0'
  {
    if n < 10 then [DigitChar(n)] else Show(n / 10) + [DigitChar(n % 10)]
  }

  /** The value of a string of digits, read most significant first. */
  function Value(s: string): (n: nat)
    requires AllDigits(s)
  {
    if s == [] then 0 else 10 * Value(s[..|s| - 1]) + (s[|s| - 1] as int - '0' as int)
  }

  /** Reading back what `Show` printed gives the number again. */
  lemma {:induction false} ValueShow(n: nat)
    ensures Value(Show(n)) == n
  {
    if n >= 10 {
      ValueShow(n / 10);
      var s := Show(n);
      assert s[..|s| - 1] == Show(n / 10);
    }
  }

  /** Distinct numbers print differently. */
  lemma ShowInjective(m: nat, n: nat)
    requires Show(m) == Show(n)
    ensures m == n
  {
    ValueShow(m);
    ValueShow(n);
  }

  /**
   * `Number(str)` restricted to decimal integers: surrounding white space is
   * ignored, an empty string is 0, an optional sign precedes the digits;
   * anything else is `NaN` (`None`).
   */
  function ToNumber(s: string): (r: Option<int>)
    ensures r.Some? && r.value < 0 ==> '-' in s
  {
    var t := Trim(s);
    if t == [] then Some(0)
    else if AllDigits(t) then Some(Value(t))
    else if |t| >= 2 && t[0] == '+' && AllDigits(t[1..]) then Some(Value(t[1..]))
    else if |t| >= 2 && t[0] == '-' && AllDigits(t[1..]) then Some(-(Value(t[1..]) as int))
    else None
  }

  /** Printed numbers read back through `Number`. */
  lemma ToNumberShow(n: nat)
    ensures ToNumber(Show(n)) == Some(n)
  {
    var s := Show(n);
    assert !IsSpace(s[0]) && !IsSpace(s[|s| - 1]);
    TrimOfTrimmed(s);
    ValueShow(n);
  }
}
