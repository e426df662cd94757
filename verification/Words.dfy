/** Periods and maximal suffixes of words: the critical factorization theorem (Crochemore and
    Perrin, "Two-way string-matching"), by comparing suffixes through their first difference. */
module Words {

  type Word = seq<int>

  predicate Lt(a: int, b: int, reversed: bool) { if reversed then b < a else a < b }

  /** The i-th letter of the suffix at s. */
  ghost function At(x: Word, s: nat, i: nat): int { if s + i < |x| then x[s + i] else 0 }

  /** The k letters from s equal the k letters from t. */
  ghost predicate Same(x: Word, s: nat, t: nat, k: nat) {
    s + k <= |x| && t + k <= |x| && forall i: nat :: i < k ==> At(x, s, i) == At(x, t, i)
  }

  /** The suffix at s and the suffix at t first differ after k letters, and s has the smaller. */
  ghost predicate Below(x: Word, s: nat, t: nat, k: nat, reversed: bool) {
    Same(x, s, t, k) && s + k < |x| && t + k < |x| && Lt(At(x, s, k), At(x, t, k), reversed)
  }

  ghost predicate Less(x: Word, s: nat, t: nat, reversed: bool) {
    exists k: nat :: Below(x, s, t, k, reversed)
  }

  lemma {:induction false} LessTransitive(x: Word, s: nat, t: nat, u: nat, reversed: bool)
    requires Less(x, s, t, reversed) && Less(x, t, u, reversed)
    ensures Less(x, s, u, reversed)
  {
    hide At;
    var j: nat :| Below(x, s, t, j, reversed);
    var k: nat :| Below(x, t, u, k, reversed);
    var m := if j < k then j else k;
    assert At(x, s, m) == At(x, t, m) || At(x, t, m) == At(x, u, m) || j == k;
    assert Below(x, s, u, m, reversed);
  }

  /** q is a period of the suffix of x at `from`. */
  ghost predicate Period(x: Word, from: nat, q: nat) {
    forall j :: from + q <= j < |x| ==> x[j] == x[j - q]
  }

  ghost predicate MinPeriod(x: Word, from: nat, p: nat) {
    1 <= p <= |x| - from && Period(x, from, p) && forall q: nat :: 1 <= q < p ==> !Period(x, from, q)
  }

  /** No suffix is greater than the one at c; those that are not decided are its proper prefixes. */
  ghost predicate IsMaxSuffix(x: Word, c: nat, reversed: bool) {
    && c < |x|
    && (forall s: nat :: s < c ==> Less(x, s, c, reversed))
    && (forall s: nat :: c < s < |x| ==> Less(x, s, c, reversed) || Same(x, s, c, |x| - s))
  }

  // ------------------------------------------------------------------ critical factorization

  /** Around the cut at c, letters at distance d agree wherever both exist. */
  ghost predicate LocalRepetition(x: Word, c: nat, d: nat) {
    1 <= d && forall j :: c <= j < c + d && d <= j < |x| ==> x[j] == x[j - d]
  }

  /** A local repetition cannot lie within the left factor. */
  lemma {:induction false} RepetitionCrossesLeft(x: Word, c: nat, d: nat, reversed: bool)
    requires IsMaxSuffix(x, c, reversed) && LocalRepetition(x, c, d)
    ensures d > c
  {
    if d <= c {
      var s := c - d;
      assert Less(x, s, c, reversed);
      var k: nat :| Below(x, s, c, k, reversed);
      if k >= d {
        forall i: nat | i < k - d
          ensures At(x, c, i) == At(x, c + d, i)
        {
          assert At(x, s, d + i) == At(x, c, d + i);
        }
        assert Below(x, c, c + d, k - d, reversed);
        GreaterSuffix(x, c, c + d, k - d, reversed);
      }
    }
  }

  /** A suffix that is greater at its first difference refutes maximality. */
  lemma {:induction false} GreaterSuffix(x: Word, c: nat, s: nat, k: nat, reversed: bool)
    requires Below(x, c, s, k, reversed)
    ensures !Less(x, s, c, reversed) && !Same(x, s, c, |x| - s)
    ensures s != c && !IsMaxSuffix(x, c, reversed)
  {
  }

  /** With the shorter of the two maximal suffixes as right factor, every local repetition is a
      period of the whole word, and longer than the left factor. */
  lemma {:induction false} CriticalFactorization(x: Word, c: nat, c': nat, d: nat, reversed: bool)
    requires IsMaxSuffix(x, c, reversed) && IsMaxSuffix(x, c', !reversed) && c' <= c
    requires LocalRepetition(x, c, d)
    ensures d > c && Period(x, 0, d)
  {
    RepetitionCrossesLeft(x, c, d, reversed);
    if c + d < |x| {
      if Less(x, c + d, c, reversed) {
        var k: nat :| Below(x, c + d, c, k, reversed);
        OtherOrder(x, c, c', d, k, reversed);
      } else {
        RepetitionExtends(x, c, d);
      }
    }
  }

  /** A difference after the repetition would favour, in the other order, a suffix that starts
      within the repetition. */
  lemma {:induction false} OtherOrder(x: Word, c: nat, c': nat, d: nat, k: nat, reversed: bool)
    requires c' <= c < d
    requires LocalRepetition(x, c, d) && Below(x, c + d, c, k, reversed)
    ensures !IsMaxSuffix(x, c', !reversed)
  {
    var m := c - c';
    forall i: nat | i < m + k
      ensures At(x, c', i) == At(x, c' + d, i)
    {
      if i >= m {
        assert At(x, c + d, i - m) == At(x, c, i - m);
      } else {
        assert x[c' + d + i] == x[c' + d + i - d];
      }
    }
    assert At(x, c', m + k) == At(x, c, k) && At(x, c' + d, m + k) == At(x, c + d, k);
    assert Below(x, c', c' + d, m + k, !reversed);
    GreaterSuffix(x, c', c' + d, m + k, !reversed);
  }

  lemma {:induction false} RepetitionExtends(x: Word, c: nat, d: nat)
    requires LocalRepetition(x, c, d) && c < d
    requires c + d < |x| && Same(x, c + d, c, |x| - (c + d))
    ensures Period(x, 0, d)
  {
    forall j | d <= j < |x|
      ensures x[j] == x[j - d]
    {
      if j >= c + d {
        assert At(x, c + d, j - c - d) == At(x, c, j - c - d);
      }
    }
  }

  lemma PeriodOfSuffix(x: Word, q: nat, from: nat)
    requires Period(x, 0, q)
    ensures Period(x, from, q)
  {
  }

  lemma {:induction false} PeriodMultiple(x: Word, from: nat, p: nat, a: nat, j: nat)
    requires Period(x, from, p) && from <= j && j + a * p < |x|
    ensures x[j + a * p] == x[j]
  {
    if a > 0 {
      assert a * p == (a - 1) * p + p;
      PeriodMultiple(x, from, p, a - 1, j);
    }
  }

  /** If a period of the word fits into the right factor then the least period of that factor is a
      period of the whole word. */
  lemma {:induction false} ShortPeriodIsGlobal(x: Word, c: nat, c': nat, p: nat, d: nat, reversed: bool)
    requires IsMaxSuffix(x, c, reversed) && IsMaxSuffix(x, c', !reversed) && c' <= c
    requires MinPeriod(x, c, p)
    requires 1 <= d <= |x| - c && Period(x, 0, d)
    ensures Period(x, 0, p)
  {
    hide IsMaxSuffix;
    var a, e := d / p, d % p;
    assert d == a * p + e;
    if e > 0 {
      forall j | c <= j < c + e && e <= j < |x|
        ensures x[j] == x[j - e]
      {
        PeriodMultiple(x, c, p, a, j);
        assert x[j - e + d] == x[j - e];
      }
      CriticalFactorization(x, c, c', e, reversed);
      PeriodOfSuffix(x, e, c);
    } else {
      assert d == (a - 1) * p + p;
      forall j | c <= j < c + p && p <= j < |x|
        ensures x[j] == x[j - p]
      {
        PeriodMultiple(x, c, p, a - 1, j);
        assert x[j - p + d] == x[j - p];
      }
      CriticalFactorization(x, c, c', p, reversed);
    }
  }

  // ------------------------------------------------------------------ computing a maximal suffix

  /** The p letters from i are greater, within themselves, than each of their proper suffixes. */
  ghost predicate Block(x: Word, i: nat, p: nat, reversed: bool) {
    1 <= p && i + p <= |x| && AllDecided(x, i, i + p, reversed)
  }

  ghost predicate AllDecided(x: Word, i: nat, end: nat, reversed: bool) {
    forall s: nat :: i < s < end ==> DecidedBy(x, s, i, end, reversed)
  }

  /** The suffix at s falls below the one at i at a letter before `end`. */
  ghost predicate DecidedBy(x: Word, s: nat, i: nat, end: nat, reversed: bool) {
    exists t: nat :: Below(x, s, i, t, reversed) && s + t < end
  }

  /** From i up to `end` the word repeats with distance p. */
  ghost predicate Repeats(x: Word, i: nat, p: nat, end: nat) {
    i + p <= end <= |x| && forall j :: i + p <= j < end ==> x[j] == x[j - p]
  }

  /** Within a repetition a later start repeats what the start one block before it does. */
  lemma {:induction false} ShiftByPeriod(x: Word, i: nat, p: nat, end: nat, s: nat, k: nat)
    requires Repeats(x, i, p, end) && i + p <= s && s + k <= end
    requires Same(x, s - p, i, k)
    ensures Same(x, s, i, k)
    ensures s + k < end ==> At(x, s, k) == At(x, s - p, k)
  {
  }

  lemma {:induction false} SamePrefix(x: Word, s: nat, i: nat, k: nat, m: nat)
    requires Same(x, s, i, k) && m <= k
    ensures Same(x, s, i, m)
  {
  }

  /** Every later start is decided, or agrees with i as far as the repetition goes. */
  lemma {:induction false} DecidedOrNot(x: Word, i: nat, p: nat, end: nat, s: nat, reversed: bool)
    requires Block(x, i, p, reversed) && Repeats(x, i, p, end)
    requires i < s <= end
    ensures DecidedBy(x, s, i, end, reversed) || Same(x, s, i, end - s)
    decreases s
  {
    hide At, Same, Repeats;
    if s < i + p {
      assert DecidedBy(x, s, i, i + p, reversed);
      RepeatsBounds(x, i, p, end);
    } else if s == i + p {
      SameRefl(x, i, p, end);
      ShiftByPeriod(x, i, p, end, s, end - s);
    } else {
      DecidedOrNot(x, i, p, end, s - p, reversed);
      if DecidedBy(x, s - p, i, end, reversed) {
        var t: nat :| Below(x, s - p, i, t, reversed) && s - p + t < end;
        if s + t < end {
          ShiftByPeriod(x, i, p, end, s, t);
          assert Below(x, s, i, t, reversed) by { InRange(x, i, p, end); }
        } else {
          SamePrefix(x, s - p, i, t, end - s);
          ShiftByPeriod(x, i, p, end, s, end - s);
        }
      } else {
        SamePrefix(x, s - p, i, end - (s - p), end - s);
        ShiftByPeriod(x, i, p, end, s, end - s);
      }
    }
  }

  lemma RepeatsBounds(x: Word, i: nat, p: nat, end: nat)
    requires Repeats(x, i, p, end)
    ensures i + p <= end
  {
  }

  lemma InRange(x: Word, i: nat, p: nat, end: nat)
    requires Repeats(x, i, p, end)
    ensures end <= |x|
  {
  }

  lemma SameRefl(x: Word, i: nat, p: nat, end: nat)
    requires Repeats(x, i, p, end)
    ensures Same(x, i, i, end - (i + p))
  {
  }

  /** A smaller letter after the repetition makes everything read so far one block. */
  lemma {:induction false} SmallerLetter(x: Word, i: nat, p: nat, end: nat, s: nat, reversed: bool)
    requires Block(x, i, p, reversed) && Repeats(x, i, p, end) && end < |x|
    requires Lt(x[end], x[end - p], reversed)
    requires i < s <= end
    ensures DecidedBy(x, s, i, end + 1, reversed)
    decreases s
  {
    hide Same, Repeats, At;
    RepeatsBounds(x, i, p, end);
    if s < i + p {
      assert DecidedBy(x, s, i, i + p, reversed);
    } else if s == i + p {
      SameRefl(x, i, p, end);
      ShiftByPeriod(x, i, p, end, s, end - s);
      AtEnd(x, i, p, end, s);
      assert Below(x, s, i, end - s, reversed);
    } else {
      SmallerLetter(x, i, p, end, s - p, reversed);
      var t: nat :| Below(x, s - p, i, t, reversed) && s - p + t < end + 1;
      if s + t < end {
        ShiftByPeriod(x, i, p, end, s, t);
        assert Below(x, s, i, t, reversed);
      } else {
        SamePrefix(x, s - p, i, t, end - s);
        ShiftByPeriod(x, i, p, end, s, end - s);
        AtEnd(x, i, p, end, s);
        SameAt(x, s - p, i, t, end - s);
        assert Below(x, s, i, end - s, reversed);
      }
    }
  }

  lemma AtEnd(x: Word, i: nat, p: nat, end: nat, s: nat)
    requires i + p <= s <= end < |x|
    ensures At(x, s, end - s) == x[end] && At(x, s - p, end - s) == x[end - p]
    ensures s == i + p ==> At(x, i, end - s) == x[end - p]
  {
  }

  lemma SameAt(x: Word, s: nat, i: nat, t: nat, k: nat)
    requires Same(x, s, i, t)
    ensures k < t ==> At(x, s, k) == At(x, i, k)
  {
  }

  lemma {:induction false} NewBlock(x: Word, i: nat, p: nat, end: nat, reversed: bool)
    requires Block(x, i, p, reversed) && Repeats(x, i, p, end) && end < |x|
    requires Lt(x[end], x[end - p], reversed)
    ensures Block(x, i, end + 1 - i, reversed)
  {
    hide DecidedBy;
    var last := end + 1;
    forall s: nat | i < s < last
      ensures DecidedBy(x, s, i, last, reversed)
    {
      SmallerLetter(x, i, p, end, s, reversed);
    }
  }

  /** A greater letter makes every start up to the last, incomplete repetition i' fall below i'. */
  lemma {:induction false} GreaterLetter(x: Word, i: nat, p: nat, end: nat, i': nat, s: nat, reversed: bool)
    requires Block(x, i, p, reversed) && Repeats(x, i, p, end) && end < |x|
    requires i < i' <= end && Same(x, i', i, end - i')
    requires Lt(At(x, i, end - i'), x[end], reversed)
    requires forall u: nat :: u < i ==> Less(x, u, i, reversed)
    requires s < i'
    ensures Less(x, s, i', reversed)
  {
    var k := end - i';
    assert Below(x, i, i', k, reversed);
    if s < i {
      LessTransitive(x, s, i, i', reversed);
    } else if s > i {
      DecidedOrNot(x, i, p, end, s, reversed);
      if DecidedBy(x, s, i, end, reversed) {
        LessTransitive(x, s, i, i', reversed);
      } else {
        forall u: nat | u < k
          ensures At(x, s, u) == At(x, i', u)
        {
          assert At(x, s, u) == At(x, i, u);
        }
        assert At(x, s, k) == At(x, i, k);
        assert Below(x, s, i', k, reversed);
      }
    }
  }

  /** Once the whole word is read, the candidate is the maximal suffix and p its least period. */
  lemma {:induction false} Finished(x: Word, i: nat, p: nat, reversed: bool)
    requires Block(x, i, p, reversed) && Repeats(x, i, p, |x|)
    requires forall u: nat :: u < i ==> Less(x, u, i, reversed)
    ensures IsMaxSuffix(x, i, reversed) && MinPeriod(x, i, p)
  {
    forall s: nat | i < s < |x|
      ensures Less(x, s, i, reversed) || Same(x, s, i, |x| - s)
    {
      DecidedOrNot(x, i, p, |x|, s, reversed);
    }
    forall q: nat | 1 <= q < p
      ensures !Period(x, i, q)
    {
      assert DecidedBy(x, i + q, i, i + p, reversed);
      var t: nat :| Below(x, i + q, i, t, reversed) && i + q + t < i + p;
      assert x[i + q + t] != x[i + q + t - q];
    }
  }
}
