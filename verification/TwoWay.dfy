/** twoway_strstr: the Two-Way string matching algorithm.  It returns the first occurrence of the
    needle, or none exactly if there is none. */
module TwoWay {
  import opened Options
  import opened CStrings
  import opened Words

  // ------------------------------------------------------------------ the needle

  /** The state of the scan: the suffix at ip + 1 is the greatest of the letters before jp + k.  It
      begins with a block of p letters that repeats up to there; the last complete repetition ends
      at jp, and k - 1 letters of the next one have been read. */
  ghost predicate Scan(x: Word, ip: int, jp: nat, k: nat, p: nat, reversed: bool) {
    && -1 <= ip < jp && 1 <= k <= p <= jp - ip && jp + k <= |x|
    && Block(x, ip + 1, p, reversed) && Repeats(x, ip + 1, p, jp + k)
    && Same(x, jp + 1 - p, ip + 1, p) && Same(x, jp + 1, ip + 1, k - 1)
    && AllBelow(x, ip + 1, reversed)
  }

  ghost predicate AllBelow(x: Word, i: nat, reversed: bool) {
    forall u: nat :: u < i ==> Less(x, u, i, reversed)
  }

  /** The maximal suffix of the needle n of length l, in one of the two alphabetic orders, begins
      at ip + 1; p is its least period.  (The first index is SIZE_MAX in the program, -1 here.) */
  method MaximalSuffix(n: seq<Char>, l: nat, reversed: bool) returns (ip: int, p: nat)
    requires 1 <= l <= |n|
    ensures -1 <= ip < l - 1
    ensures IsMaxSuffix(n[..l], ip + 1, reversed) && MinPeriod(n[..l], ip + 1, p)
  {
    hide Block, Repeats, Same, AllBelow;
    ghost var x := n[..l];
    ip, p := -1, 1;
    var jp: nat, k: nat := 0, 1;
    NothingBelow(x, reversed);
    ScanStart(x, -1, reversed);
    while jp + k < l
      invariant Scan(x, ip, jp, k, p, reversed)
      decreases l - ip, l - (jp + k)
    {
      if n[ip + k] == n[jp + k] {
        ScanEqual(x, ip, jp, k, p, reversed);
        if k == p {
          jp := jp + p;
          k := 1;
        } else {
          k := k + 1;
        }
      } else if if reversed then n[ip + k] < n[jp + k] else n[ip + k] > n[jp + k] {
        ScanSmaller(x, ip, jp, k, p, reversed);
        jp := jp + k;
        k := 1;
        p := jp - ip;
      } else {
        ScanGreater(x, ip, jp, k, p, reversed);
        ip := jp;
        jp := jp + 1;
        k := 1;
        p := 1;
      }
    }
    ScanEnd(x, ip, jp, k, p, reversed);
  }

  lemma NothingBelow(x: Word, reversed: bool)
    ensures AllBelow(x, 0, reversed)
  {
  }

  lemma ScanStart(x: Word, ip: int, reversed: bool)
    requires -1 <= ip < |x| - 1 && AllBelow(x, ip + 1, reversed)
    ensures Scan(x, ip, ip + 1, 1, 1, reversed)
  {
  }

  /** The letter read is the one a block earlier. */
  lemma ScanLetter(x: Word, ip: int, jp: nat, k: nat, p: nat, reversed: bool)
    requires Scan(x, ip, jp, k, p, reversed) && jp + k < |x|
    ensures x[jp + k - p] == x[ip + k] == At(x, ip + 1, k - 1)
  {
    assert At(x, jp + 1 - p, k - 1) == At(x, ip + 1, k - 1);
  }

  lemma {:induction false} ScanEqual(x: Word, ip: int, jp: nat, k: nat, p: nat, reversed: bool)
    requires Scan(x, ip, jp, k, p, reversed) && jp + k < |x| && x[ip + k] == x[jp + k]
    ensures if k == p then Scan(x, ip, jp + p, 1, p, reversed) else Scan(x, ip, jp, k + 1, p, reversed)
  {
    ScanLetter(x, ip, jp, k, p, reversed);
    RepeatsMore(x, ip + 1, p, jp + k);
    SameMore(x, jp + 1, ip + 1, k - 1);
    hide Block, Repeats, AllBelow;
    assert Same(x, jp + p + 1, ip + 1, 0) || jp + p + 1 > |x|;
  }

  lemma RepeatsMore(x: Word, i: nat, p: nat, end: nat)
    requires Repeats(x, i, p, end) && end < |x| && x[end] == x[end - p]
    ensures Repeats(x, i, p, end + 1)
  {
  }

  lemma SameMore(x: Word, s: nat, t: nat, k: nat)
    requires Same(x, s, t, k) && s + k < |x| && t + k < |x| && x[s + k] == x[t + k]
    ensures Same(x, s, t, k + 1)
  {
  }

  lemma {:induction false} ScanSmaller(x: Word, ip: int, jp: nat, k: nat, p: nat, reversed: bool)
    requires Scan(x, ip, jp, k, p, reversed) && jp + k < |x| && Lt(x[jp + k], x[ip + k], reversed)
    ensures Scan(x, ip, jp + k, 1, jp + k - ip, reversed)
  {
    ScanLetter(x, ip, jp, k, p, reversed);
    NewBlock(x, ip + 1, p, jp + k, reversed);
  }

  lemma {:induction false} ScanGreater(x: Word, ip: int, jp: nat, k: nat, p: nat, reversed: bool)
    requires Scan(x, ip, jp, k, p, reversed) && jp + k < |x| && Lt(x[ip + k], x[jp + k], reversed)
    ensures Scan(x, jp, jp + 1, 1, 1, reversed)
  {
    hide Less, Block, Repeats, Same;
    ScanLetter(x, ip, jp, k, p, reversed);
    var i' := jp + 1;
    forall u: nat | u < i'
      ensures Less(x, u, i', reversed)
    {
      GreaterLetter(x, ip + 1, p, jp + k, i', u, reversed);
    }
    ScanStart(x, jp, reversed);
  }

  lemma ScanEnd(x: Word, ip: int, jp: nat, k: nat, p: nat, reversed: bool)
    requires Scan(x, ip, jp, k, p, reversed) && jp + k == |x|
    ensures IsMaxSuffix(x, ip + 1, reversed) && MinPeriod(x, ip + 1, p)
  {
    Finished(x, ip + 1, p, reversed);
  }

  /** What the search relies on: c is a critical position of x, a mismatch in the left factor
      allows a shift by p, and a non-zero memory is backed by a period. */
  ghost predicate Analysed(x: Word, c: nat, p: nat, mem0: nat) {
    && c < |x| && 1 <= p <= |x|
    && (forall d: nat :: LocalRepetition(x, c, d) ==> d > c && d >= p && Period(x, 0, d))
    && (mem0 > 0 ==> p < |x| && mem0 == |x| - p && c < p && Period(x, 0, p))
  }

  /** Critical position, shift and memory of the needle. */
  method Analyse(n: seq<Char>, l: nat) returns (ms: int, p: nat, mem0: nat)
    requires 1 <= l <= |n|
    ensures -1 <= ms < l - 1 && Analysed(n[..l], ms + 1, p, mem0)
  {
    hide IsMaxSuffix, MinPeriod, Analysed, Period, PrefixRepeated;
    ghost var x := n[..l];
    var ip, p0 := MaximalSuffix(n, l, false);
    ms := ip;
    ip, p := MaximalSuffix(n, l, true);
    ghost var other, reversed := if ip > ms then ms + 1 else ip + 1, ip > ms;
    if ip + 1 > ms + 1 {
      ms := ip;
    } else {
      p := p0;
    }
    ghost var least := p;
    LeastFits(x, ms + 1, p);
    var equal := PrefixRepeats(n, l, ms + 1, p);
    if !equal {
      mem0 := 0;
      p := (if ms > l - ms - 1 then ms else l - ms - 1) + 1;
    } else {
      mem0 := l - p;
    }
    Conclude(x, ms + 1, other, least, p, equal, reversed);
  }

  lemma LeastFits(x: Word, c: nat, p: nat)
    requires MinPeriod(x, c, p)
    ensures 1 <= p && c + p <= |x|
  {
  }

  /** memcmp(n, n + p, c) == 0 */
  method PrefixRepeats(n: seq<Char>, l: nat, c: nat, p: nat) returns (equal: bool)
    requires c + p <= l <= |n|
    ensures equal <==> PrefixRepeated(n[..l], c, p)
  {
    equal := true;
    for i := 0 to c
      invariant equal <==> PrefixRepeated(n[..l], i, p)
    {
      assert n[i] == n[..l][i] && n[p + i] == n[..l][p + i];
      equal := equal && n[i] == n[p + i];
    }
  }

  ghost predicate PrefixRepeated(x: Word, c: nat, p: nat)
    requires c + p <= |x|
  {
    forall j :: 0 <= j < c ==> x[j] == x[p + j]
  }

  /** From the theory of words to what the search relies on. */
  lemma {:induction false} Conclude(x: Word, c: nat, c': nat, least: nat, p: nat, periodic: bool, reversed: bool)
    requires IsMaxSuffix(x, c, reversed) && IsMaxSuffix(x, c', !reversed) && c' <= c
    requires MinPeriod(x, c, least)
    requires c + least <= |x| && (periodic <==> PrefixRepeated(x, c, least))
    requires periodic ==> p == least
    requires !periodic ==> p == (if c - 1 > |x| - c then c - 1 else |x| - c) + 1
    ensures Analysed(x, c, p, if periodic then |x| - p else 0)
  {
    hide IsMaxSuffix;
    assert c < |x| by { SuffixExists(x, c, reversed); }
    PeriodExtends(x, c, least);
    forall d: nat | LocalRepetition(x, c, d)
      ensures d > c && d >= p && Period(x, 0, d)
    {
      CriticalFactorization(x, c, c', d, reversed);
      PeriodOfSuffix(x, d, c);
      if !periodic && d <= |x| - c {
        ShortPeriodIsGlobal(x, c, c', least, d, reversed);
      }
    }
    if periodic {
      assert LocalRepetition(x, c, p);
    }
  }

  lemma SuffixExists(x: Word, c: nat, reversed: bool)
    requires IsMaxSuffix(x, c, reversed)
    ensures c < |x|
  {
  }

  lemma {:induction false} PeriodExtends(x: Word, c: nat, p: nat)
    requires c + p <= |x| && Period(x, c, p)
    ensures Period(x, 0, p) <==> PrefixRepeated(x, c, p)
  {
  }

  // ------------------------------------------------------------------ safe shifts

  /** h agrees with the needle on [from, to) when the needle is laid at pos. */
  ghost predicate Agrees(h: seq<Char>, x: Word, pos: nat, from: nat, to: nat) {
    to <= |x| && pos + to <= |h| && forall j :: from <= j < to ==> h[pos + j] == x[j]
  }

  /** A letter of an occurrence. */
  lemma Letter(h: seq<Char>, hl: nat, n: seq<Char>, l: nat, i: nat, j: nat)
    requires hl <= |h| && j < l <= |n|
    ensures OccursAt(h, hl, n, l, i) ==> i + j < hl && h[i + j] == n[j]
  {
  }

  /** An occurrence at distance d from an alignment whose right factor agrees is a repetition. */
  lemma {:induction false} OccurrenceRepeats(h: seq<Char>, hl: nat, n: seq<Char>, l: nat, pos: nat, c: nat, k: nat,
                                             d: nat)
    requires hl <= |h| && c <= k <= l <= |n|
    requires Agrees(h, n[..l], pos, c, k) && 1 <= d && (k == l || c + d <= k)
    ensures OccursAt(h, hl, n, l, pos + d) ==> LocalRepetition(n[..l], c, d)
  {
  }

  /** A mismatch at k in the right factor: no occurrence up to distance k - c. */
  lemma {:induction false} RightMismatch(h: seq<Char>, hl: nat, n: seq<Char>, l: nat, pos: nat, c: nat, p: nat,
                                         mem0: nat,
                                         k: nat, d: nat)
    requires hl <= |h| && l <= |n| && Analysed(n[..l], c, p, mem0)
    requires c <= k < l && pos + k < |h| && Agrees(h, n[..l], pos, c, k) && h[pos + k] != n[k]
    requires d <= k - c
    ensures !OccursAt(h, hl, n, l, pos + d)
  {
    Letter(h, hl, n, l, pos + d, k - d);
    if d > 0 {
      OccurrenceRepeats(h, hl, n, l, pos, c, k, d);
      PeriodLetter(n[..l], d, k);
    }
  }

  lemma PeriodLetter(x: Word, d: nat, k: nat)
    requires d <= k < |x|
    ensures Period(x, 0, d) ==> x[k] == x[k - d]
  {
  }

  /** A mismatch in the left factor after the right one agreed: no occurrence below distance p. */
  lemma {:induction false} LeftMismatch(h: seq<Char>, hl: nat, n: seq<Char>, l: nat, pos: nat, c: nat, p: nat,
                                        mem0: nat,
                                        k: nat, d: nat)
    requires hl <= |h| && l <= |n| && Analysed(n[..l], c, p, mem0)
    requires Agrees(h, n[..l], pos, c, l)
    requires k < l && pos + k < |h| && h[pos + k] != n[k] && d < p
    ensures !OccursAt(h, hl, n, l, pos + d)
  {
    if d == 0 {
      Letter(h, hl, n, l, pos, k);
    } else {
      OccurrenceRepeats(h, hl, n, l, pos, c, l, d);
    }
  }

  /** After a shift by the period the prefix of length l - p need not be compared again. */
  lemma {:induction false} Remembered(h: seq<Char>, n: seq<Char>, l: nat, pos: nat, c: nat, p: nat, mem0: nat)
    requires l <= |n| && Analysed(n[..l], c, p, mem0)
    requires Agrees(h, n[..l], pos, c, l)
    ensures pos + p + mem0 <= |h| || mem0 == 0
    ensures mem0 > 0 ==> Agrees(h, n[..l], pos + p, 0, mem0)
  {
    var x := n[..l];
    if mem0 > 0 {
      forall j | 0 <= j < mem0
        ensures h[pos + p + j] == x[j]
      {
        assert x[j + p] == x[j + p - p] && h[pos + (p + j)] == x[p + j];
      }
    }
  }

  /** `last[ch]` is the number of needle letters up to and including the last ch, if there is one. */
  ghost predicate LastTable(n: seq<Char>, l: nat, known: seq<bool>, last: seq<nat>) {
    && |known| == |last| == 0x100 && l <= |n|
    && (forall j :: 0 <= j < l ==> known[n[j]] && j < last[n[j]])
    && forall ch: Char :: known[ch] ==> 1 <= last[ch] <= l && n[last[ch] - 1] == ch
  }

  lemma TableStep(n: seq<Char>, l: nat, known: seq<bool>, last: seq<nat>)
    requires LastTable(n, l, known, last) && l < |n|
    ensures LastTable(n, l + 1, known[n[l] := true], last[n[l] := l + 1])
  {
  }

  /** The last letter of the window does not occur in the needle, or last occurs k letters before
      the end: no occurrence below distance k. */
  lemma {:induction false} LastLetter(h: seq<Char>, hl: nat, n: seq<Char>, l: nat, known: seq<bool>, last: seq<nat>,
                                      pos: nat, d: nat)
    requires hl <= |h| && 1 <= l <= |n| && LastTable(n, l, known, last) && pos + l <= hl
    requires d < (if known[h[pos + l - 1]] then l - last[h[pos + l - 1]] else l)
    ensures !OccursAt(h, hl, n, l, pos + d)
  {
    Letter(h, hl, n, l, pos + d, l - 1 - d);
    assert known[n[l - 1 - d]] && l - 1 - d < last[n[l - 1 - d]];
  }

  /** With a remembered prefix and a wrong last letter, no occurrence within the prefix. */
  lemma {:induction false} LastLetterWithMemory(h: seq<Char>, hl: nat, n: seq<Char>, l: nat, pos: nat,
                                                c: nat, p: nat, mem: nat, d: nat)
    requires hl <= |h| && l <= |n| && Analysed(n[..l], c, p, mem)
    requires pos + l <= hl && Agrees(h, n[..l], pos, 0, mem)
    requires h[pos + l - 1] != n[l - 1]
    requires d < mem
    ensures !OccursAt(h, hl, n, l, pos + d)
  {
    var x := n[..l];
    Letter(h, hl, n, l, pos + d, l - 1 - d);
    Letter(h, hl, n, l, pos + d, mem - 1 - d);
    assert h[pos + (mem - 1)] == x[mem - 1];
    PeriodLetter(x, p, l - 1);
    PeriodLetter(x, p, l - 1 - d);
  }

  /** No occurrence begins in [from, to). */
  ghost predicate NoneIn(h: seq<Char>, hl: nat, n: seq<Char>, l: nat, from: nat, to: nat)
    requires hl <= |h| && l <= |n|
  {
    forall i: nat :: from <= i < to ==> !OccursAt(h, hl, n, l, i)
  }

  /** The three shifts of the search, each safe. */
  lemma {:induction false} LastLetterShift(h: seq<Char>, hl: nat, n: seq<Char>, l: nat, known: seq<bool>,
                                           last: seq<nat>,
                                           pos: nat, c: nat, p: nat, mem0: nat, mem: nat, shift: nat)
    requires hl <= |h| && 1 <= l <= |n| && LastTable(n, l, known, last) && pos + l <= hl
    requires Analysed(n[..l], c, p, mem0) && mem in {0, mem0} && Agrees(h, n[..l], pos, 0, mem)
    requires var ch := h[pos + l - 1];
             if known[ch] then 0 < l - last[ch] && shift == (if l - last[ch] < mem then mem else l - last[ch])
             else shift == l
    ensures NoneIn(h, hl, n, l, pos, pos + shift)
  {
    hide OccursAt, Agrees, Analysed;
    var ch := h[pos + l - 1];
    assert known[n[l - 1]];
    forall i: nat | pos <= i < pos + shift
      ensures !OccursAt(h, hl, n, l, i)
    {
      if i - pos < (if known[ch] then l - last[ch] else l) {
        LastLetter(h, hl, n, l, known, last, pos, i - pos);
      } else {
        LastLetterWithMemory(h, hl, n, l, pos, c, p, mem, i - pos);
      }
    }
  }

  lemma {:induction false} RightShift(h: seq<Char>, hl: nat, n: seq<Char>, l: nat, pos: nat, c: nat, p: nat, mem0: nat,
                                      k: nat)
    requires hl <= |h| && l <= |n| && Analysed(n[..l], c, p, mem0)
    requires c <= k < l && pos + k < |h| && Agrees(h, n[..l], pos, c, k) && h[pos + k] != n[k]
    ensures NoneIn(h, hl, n, l, pos, pos + k - c + 1)
  {
    hide OccursAt, Agrees, Analysed;
    forall i: nat | pos <= i < pos + k - c + 1
      ensures !OccursAt(h, hl, n, l, i)
    {
      RightMismatch(h, hl, n, l, pos, c, p, mem0, k, i - pos);
    }
  }

  lemma {:induction false} LeftShift(h: seq<Char>, hl: nat, n: seq<Char>, l: nat, pos: nat, c: nat, p: nat, mem0: nat,
                                     k: nat)
    requires hl <= |h| && l <= |n| && Analysed(n[..l], c, p, mem0)
    requires Agrees(h, n[..l], pos, c, l) && k < l && pos + k < |h| && h[pos + k] != n[k]
    ensures NoneIn(h, hl, n, l, pos, pos + p)
  {
    hide OccursAt, Agrees, Analysed;
    forall i: nat | pos <= i < pos + p
      ensures !OccursAt(h, hl, n, l, i)
    {
      LeftMismatch(h, hl, n, l, pos, c, p, mem0, k, i - pos);
    }
  }

  // ------------------------------------------------------------------ the search

  /** memchr(h + z, 0, count): the first NUL among `count` characters, if there is one. */
  method FindNul(h: seq<Char>, z: nat, count: nat, ghost hl: nat) returns (r: Option<nat>)
    requires IsString(h, hl) && z <= hl
    ensures r == if hl < z + count then Some(hl) else None
  {
    for i := 0 to count
      invariant z + i <= hl
    {
      if h[z + i] == 0 {
        return Some(z + i);
      }
    }
    return None;
  }

  /** l | 63 */
  function WithLowBits(l: nat): (g: nat)
    ensures l <= g
  {
    l / 64 * 64 + 63
  }

  /** The cleared bit set, and a shift table that need not be. */
  method EmptyTable(n: seq<Char>) returns (known: array<bool>, last: array<nat>)
    ensures fresh(known) && fresh(last) && known.Length == last.Length == 0x100
    ensures LastTable(n, 0, known[..], last[..])
  {
    known := new bool[0x100](_ => false);
    last := new nat[0x100];
  }

  /** Enters a letter into the bit set and the shift table. */
  method Enter(known: array<bool>, last: array<nat>, letter: Char, count: nat)
    requires known.Length == last.Length == 0x100
    modifies known, last
    ensures known[..] == old(known[..])[letter := true]
    ensures last[..] == old(last[..])[letter := count]
  {
    known[letter] := true;
    last[letter] := count;
  }

  /** Measures the needle against the haystack and tabulates its letters. */
  method Tabulate(h: seq<Char>, n: seq<Char>, ghost hl: nat, ghost nl: nat)
      returns (l: nat, known: array<bool>, last: array<nat>)
    requires IsString(h, hl) && IsString(n, nl)
    ensures l <= nl && l <= hl && (l == nl || l == hl)
    ensures fresh(known) && fresh(last) && LastTable(n, l, known[..], last[..])
  {
    hide LastTable;
    known, last := EmptyTable(n);
    l := 0;
    while n[l] != 0 && h[l] != 0
      invariant l <= nl && l <= hl && known.Length == last.Length == 0x100
      invariant LastTable(n, l, known[..], last[..])
      decreases nl - l
    {
      TableStep(n, l, known[..], last[..]);
      Enter(known, last, n[l], l + 1);
      l := l + 1;
    }
  }

  /** The right factor, from left to right, starting behind what is remembered. */
  method CompareRight(h: seq<Char>, n: seq<Char>, ghost hl: nat, ghost nl: nat, pos: nat, c: nat, mem: nat)
      returns (k: nat)
    requires IsString(n, nl) && pos + nl <= hl <= |h| && c <= nl && mem <= nl
    requires Agrees(h, n[..nl], pos, 0, mem)
    ensures c <= k <= nl && mem <= k && Agrees(h, n[..nl], pos, c, k)
    ensures if n[k] == 0 then k == nl else k < nl && h[pos + k] != n[k]
  {
    k := if c > mem then c else mem;
    while n[k] != 0 && n[k] == h[pos + k]
      invariant c <= k <= nl && mem <= k && Agrees(h, n[..nl], pos, c, k)
      decreases nl - k
    {
      k := k + 1;
    }
  }

  /** The left factor, from right to left, down to what is remembered. */
  method CompareLeft(h: seq<Char>, n: seq<Char>, l: nat, pos: nat, c: nat, mem: nat) returns (k: nat)
    requires c <= l <= |n| && pos + l <= |h| && mem <= l
    requires Agrees(h, n[..l], pos, 0, mem) && Agrees(h, n[..l], pos, c, l)
    ensures k <= c
    ensures if k <= mem then Agrees(h, n[..l], pos, 0, l) else h[pos + (k - 1)] != n[k - 1]
  {
    k := c;
    while k > mem && n[k - 1] == h[pos + k - 1]
      invariant 0 <= k <= c && Agrees(h, n[..l], pos, k, l)
    {
      k := k - 1;
    }
  }

  lemma TooShort(h: seq<Char>, hl: nat, n: seq<Char>, nl: nat, pos: nat)
    requires hl <= |h| && nl <= |n| && hl < pos + nl && NoneBefore(h, hl, n, nl, pos)
    ensures IsFirst(h, hl, n, nl, None)
  {
  }

  lemma Found(h: seq<Char>, hl: nat, n: seq<Char>, l: nat, pos: nat)
    requires hl <= |h| && l <= |n| && pos + l <= hl
    requires NoneBefore(h, hl, n, l, pos) && Agrees(h, n[..l], pos, 0, l)
    ensures IsFirst(h, hl, n, l, Some(pos))
  {
  }

  lemma Extend(h: seq<Char>, hl: nat, n: seq<Char>, l: nat, pos: nat, to: nat)
    requires hl <= |h| && l <= |n| && NoneBefore(h, hl, n, l, pos) && NoneIn(h, hl, n, l, pos, to)
    ensures NoneBefore(h, hl, n, l, to)
  {
  }

  lemma Bounds(n: seq<Char>, l: nat, c: nat, p: nat, mem0: nat)
    requires l <= |n| && Analysed(n[..l], c, p, mem0)
    ensures c < l && 1 <= p <= l && mem0 < l
  {
  }

  lemma LastBounds(n: seq<Char>, l: nat, known: seq<bool>, last: seq<nat>, ch: Char)
    requires LastTable(n, l, known, last)
    ensures |known| == |last| == 0x100 && (known[ch] ==> 1 <= last[ch] <= l)
  {
  }

  /** The end of the haystack that has been explored, moved on if it is nearer than l. */
  method Window(h: seq<Char>, l: nat, pos: nat, z: nat, ghost hl: nat) returns (end: nat)
    requires IsString(h, hl) && pos <= z <= hl
    ensures z <= end <= hl && (end - pos < l ==> end == hl)
  {
    end := z;
    if z - pos < l {
      var grow := WithLowBits(l);
      var nul := FindNul(h, z, grow, hl);
      end := if nul.Some? then nul.value else z + grow;
    }
  }

  /** The last letter first: 0 when it is the needle's last letter, otherwise a safe shift. */
  method CheckLast(h: seq<Char>, n: seq<Char>, l: nat, known: array<bool>, last: array<nat>, pos: nat, mem: nat,
                   ghost hl: nat, ghost c: nat, ghost p: nat, ghost mem0: nat) returns (k: nat)
    requires hl <= |h| && 1 <= l <= |n| && LastTable(n, l, known[..], last[..]) && pos + l <= hl
    requires Analysed(n[..l], c, p, mem0) && mem in {0, mem0} && mem <= l && Agrees(h, n[..l], pos, 0, mem)
    ensures k <= l && NoneIn(h, hl, n, l, pos, pos + k)
  {
    hide Analysed, LastTable, Agrees, NoneIn, OccursAt;
    var ch := h[pos + l - 1];
    LastBounds(n, l, known[..], last[..], ch);
    assert known[ch] == known[..][ch] && last[ch] == last[..][ch];
    k := if known[ch] then l - last[ch] else l;
    if k != 0 {
      if known[ch] && k < mem {
        k := mem;
      }
      LastLetterShift(h, hl, n, l, known[..], last[..], pos, c, p, mem0, mem, k);
    } else {
      NoneInNothing(h, hl, n, l, pos);
    }
  }

  lemma NoneInNothing(h: seq<Char>, hl: nat, n: seq<Char>, l: nat, pos: nat)
    requires hl <= |h| && l <= |n|
    ensures NoneIn(h, hl, n, l, pos, pos)
  {
  }

  /** twoway_strstr. */
  method Search(h: seq<Char>, n: seq<Char>, ghost hl: nat, ghost nl: nat) returns (r: Option<nat>)
    requires IsString(h, hl) && IsString(n, nl) && 1 <= nl
    ensures IsFirst(h, hl, n, nl, r)
  {
    hide OccursAt, Analysed, LastTable, Agrees, NoneIn, NoneBefore, IsFirst;
    StartOfSearch(h, hl, n, nl);
    var l, known, last := Tabulate(h, n, hl, nl);
    if n[l] != 0 {
      TooShort(h, hl, n, nl, 0);
      return None;
    }
    var ms, p, mem0 := Analyse(n, l);
    ghost var c, tk, tl := ms + 1, known[..], last[..];
    Bounds(n, l, c, p, mem0);
    LastBounds(n, l, tk, tl, 0);
    var pos, mem, z := 0, 0, 0;
    while true
      invariant pos <= z <= hl
      invariant mem in {0, mem0} && Agrees(h, n[..l], pos, 0, mem)
      invariant NoneBefore(h, hl, n, l, pos)
      invariant known[..] == tk && last[..] == tl
      decreases hl - pos
    {
      z := Window(h, l, pos, z, hl);
      if z - pos < l {
        TooShort(h, hl, n, l, pos);
        return None;
      }
      var k := CheckLast(h, n, l, known, last, pos, mem, hl, c, p, mem0);
      if k != 0 {
        Extend(h, hl, n, l, pos, pos + k);
        pos, mem := pos + k, 0;
        NothingRemembered(h, n[..l], pos);
        continue;
      }
      k := CompareRight(h, n, hl, l, pos, ms + 1, mem);
      if n[k] != 0 {
        RightShift(h, hl, n, l, pos, c, p, mem0, k);
        Extend(h, hl, n, l, pos, pos + (k - ms));
        pos, mem := pos + (k - ms), 0;
        NothingRemembered(h, n[..l], pos);
        continue;
      }
      k := CompareLeft(h, n, l, pos, ms + 1, mem);
      if k <= mem {
        Found(h, hl, n, l, pos);
        return Some(pos);
      }
      LeftShift(h, hl, n, l, pos, c, p, mem0, k - 1);
      Remembered(h, n, l, pos, c, p, mem0);
      Extend(h, hl, n, l, pos, pos + p);
      NothingRemembered(h, n[..l], pos + p);
      pos, mem := pos + p, mem0;
    }
  }

  lemma StartOfSearch(h: seq<Char>, hl: nat, n: seq<Char>, nl: nat)
    requires hl <= |h| && nl <= |n|
    ensures NoneBefore(h, hl, n, nl, 0) && Agrees(h, n[..nl], 0, 0, 0)
  {
  }

  lemma NothingRemembered(h: seq<Char>, x: Word, pos: nat)
    requires pos <= |h|
    ensures Agrees(h, x, pos, 0, 0)
  {
  }
}
