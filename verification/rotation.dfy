/**
 * The search-word rotation shared by the like, follow and comment scripts:
 * a scheduled run every three hours picks word number
 * `(dayOfYear * 8 + floor(hour / 3)) mod n` from a fixed list of `n` words,
 * so consecutive runs within a year walk the list one word at a time. At
 * the turn of the year `dayOfYear` starts again and the walk jumps.
 */
module Rotation {

  /** Scheduled runs per day, one every three hours. */
  const RunsPerDay: nat := 8

  /** Which of the day's runs an hour belongs to. */
  function RunIndex(hour: nat): (r: nat)
    requires hour < 24
    ensures r < RunsPerDay
    ensures 3 * r <= hour < 3 * r + 3
  {
    hour / 3
  }

  /** How many runs have been scheduled before this one, counting from the start of day 0. */
  function RunNumber(dayOfYear: nat, hour: nat): nat
    requires hour < 24
  {
    dayOfYear * RunsPerDay + RunIndex(hour)
  }

  /** The word index of the run at `hour` on day `dayOfYear` of a list of `n` words. */
  function WordIndex(dayOfYear: nat, hour: nat, n: nat): (r: nat)
    requires hour < 24 && n > 0
    ensures r < n
  {
    RunNumber(dayOfYear, hour) % n
  }

  /** The word the run searches for. */
  function Word<T>(words: seq<T>, dayOfYear: nat, hour: nat): (w: T)
    requires hour < 24 && |words| > 0
    ensures w in words
  {
    words[WordIndex(dayOfYear, hour, |words|)]
  }

  /** A multiple of `n` by a positive factor is at least `n`. */
  lemma MultipleAtLeast(d: nat, n: nat)
    requires d >= 1
    ensures d * n >= n
  {
    assert d * n == (d - 1) * n + n;
  }

  /** A remainder is determined by any quotient-remainder split. */
  lemma ModOfSplit(a: nat, n: nat, q: nat, r: nat)
    requires n > 0 && r < n && a == q * n + r
    ensures a % n == r
  {
    var q' := a / n;
    var r' := a % n;
    assert a == q' * n + r';
    if q' < q {
      assert q * n == (q - q') * n + q' * n;
      MultipleAtLeast(q - q', n);
    } else if q' > q {
      assert q' * n == (q' - q) * n + q * n;
      MultipleAtLeast(q' - q, n);
    }
  }

  /** One more run moves the index one step round the list. */
  lemma SuccessorIndex(a: nat, n: nat)
    requires n > 0
    ensures (a + 1) % n == (a % n + 1) % n
  {
    var q := a / n;
    var r := a % n;
    assert a == q * n + r;
    if r + 1 < n {
      ModOfSplit(a + 1, n, q, r + 1);
      ModOfSplit(r + 1, n, 0, r + 1);
    } else {
      assert a + 1 == (q + 1) * n + 0;
      ModOfSplit(a + 1, n, q + 1, 0);
      ModOfSplit(r + 1, n, 1, 0);
    }
  }

  /** The next run on the same day, three hours later, takes the next word, wrapping at the end of the list. */
  lemma NextRunSameDay(dayOfYear: nat, hour: nat, n: nat)
    requires hour + 3 < 24 && n > 0
    ensures WordIndex(dayOfYear, hour + 3, n) == (WordIndex(dayOfYear, hour, n) + 1) % n
  {
    assert RunIndex(hour + 3) == RunIndex(hour) + 1;
    SuccessorIndex(RunNumber(dayOfYear, hour), n);
  }

  /** The first run of a day takes the word after the previous day's last run. */
  lemma NextRunNextDay(dayOfYear: nat, lastHour: nat, firstHour: nat, n: nat)
    requires 21 <= lastHour < 24 && firstHour < 3 && n > 0
    ensures WordIndex(dayOfYear + 1, firstHour, n) == (WordIndex(dayOfYear, lastHour, n) + 1) % n
  {
    assert RunIndex(lastHour) == 7 && RunIndex(firstHour) == 0;
    assert RunNumber(dayOfYear + 1, firstHour) == RunNumber(dayOfYear, lastHour) + 1;
    SuccessorIndex(RunNumber(dayOfYear, lastHour), n);
  }

  /** Hours in the same three-hour slot take the same word. */
  lemma SameSlotSameWord(dayOfYear: nat, h1: nat, h2: nat, n: nat)
    requires h1 < 24 && h2 < 24 && n > 0 && h1 / 3 == h2 / 3
    ensures WordIndex(dayOfYear, h1, n) == WordIndex(dayOfYear, h2, n)
  {
  }

  /** The worked table for a list of eleven words. */
  lemma ElevenWordTable()
    ensures WordIndex(1, 0, 11) == 8
    ensures WordIndex(1, 3, 11) == 9
    ensures WordIndex(1, 9, 11) == 0
    ensures WordIndex(1, 21, 11) == 4
    ensures WordIndex(2, 0, 11) == 5
    ensures WordIndex(2, 18, 11) == 0
    ensures WordIndex(2, 21, 11) == 1
  {
  }

  /** `k` runs later the index has moved `k` steps round the list. */
  lemma {:induction false} LaterRunIndex(a: nat, n: nat, k: nat)
    requires n > 0
    ensures (a + k) % n == (a % n + k) % n
  {
    if k > 0 {
      LaterRunIndex(a, n, k - 1);
      SuccessorIndex(a + k - 1, n);
      SuccessorIndex(a % n + k - 1, n);
    }
  }

  /** Every word of the list is reached within `n` runs of any run. */
  lemma EveryWordReached(a: nat, n: nat, t: nat) returns (k: nat)
    requires t < n
    ensures k < n && (a + k) % n == t
  {
    var r := a % n;
    LaterRunIndex(a, n, if t >= r then t - r else t + n - r);
    if t >= r {
      k := t - r;
      ModOfSplit(r + k, n, 0, t);
    } else {
      k := t + n - r;
      ModOfSplit(r + k, n, 1, t);
    }
  }
}
