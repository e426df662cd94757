/** One's-complement arithmetic behind the Internet checksum (RFC 1071; section 8.1 of RFC 8200). */
module OnesComplement {

  type Byte = b: int | 0 <= b < 0x100

  /** The big-endian 16-bit word of two bytes. */
  function Word(hi: Byte, lo: Byte): (w: nat)
    ensures w <= 0xffff
  {
    hi as int * 0x100 + lo as int
  }

  /** The plain sum of the 16-bit big-endian words of s, an odd last byte padded with zero. */
  ghost function WordSum(s: seq<Byte>): nat {
    if |s| == 0 then 0
    else if |s| == 1 then Word(s[0], 0)
    else WordSum(s[..LastWord(s)]) + if |s| % 2 == 0 then Word(s[|s| - 2], s[|s| - 1]) else Word(s[|s| - 1], 0)
  }

  /** Where the last word of s begins. */
  ghost function LastWord(s: seq<Byte>): nat
    requires |s| > 0
  {
    if |s| % 2 == 0 then |s| - 2 else |s| - 1
  }

  /** s with the word at `at` replaced. */
  ghost function SetWord(s: seq<Byte>, at: nat, hi: Byte, lo: Byte): (t: seq<Byte>)
    requires at + 1 < |s|
    ensures |t| == |s|
  {
    s[..at] + [hi, lo] + s[at + 2..]
  }

  /** Zero stays zero; any other sum is brought into 1..65535, keeping its residue modulo 65535. */
  function Fold(t: nat): (f: nat)
    ensures f <= 0xffff
    ensures f == 0 <==> t == 0
  {
    if t == 0 then 0 else (t - 1) % 0xffff + 1
  }

  /** Folding with an end-around carry at every step is folding once at the end. */
  lemma {:induction false} FoldStep(t: nat, word: nat)
    requires word <= 0xffff
    ensures Fold(t + word) == (if Fold(t) + word >= 0x10000 then Fold(t) + word - 0x10000 + 1 else Fold(t) + word)
  {
  }

  /** Sums of the same non-zero kind fold alike exactly when they agree modulo 65535. */
  lemma {:induction false} FoldCongruent(a: nat, b: nat)
    requires a > 0 && b > 0
    ensures Fold(a) == Fold(b) <==> (a - b) % 0xffff == 0
  {
  }

  lemma {:induction false} WordSumConcat(a: seq<Byte>, b: seq<Byte>)
    requires |a| % 2 == 0
    ensures WordSum(a + b) == WordSum(a) + WordSum(b)
    decreases |b|
  {
    if |b| == 0 {
      assert a + b == a;
    } else if |b| == 1 {
      assert (a + b)[..LastWord(a + b)] == a;
    } else {
      var k := LastWord(b);
      assert LastWord(a + b) == |a| + k;
      assert (a + b)[..|a| + k] == a + b[..k];
      WordSumConcat(a, b[..k]);
    }
  }

  /** Replacing one aligned word changes the sum by the difference of the two words. */
  lemma {:induction false} WordSumReplace(s: seq<Byte>, at: nat, hi: Byte, lo: Byte)
    requires at % 2 == 0 && at + 1 < |s|
    ensures WordSum(SetWord(s, at, hi, lo)) + Word(s[at], s[at + 1]) == WordSum(s) + Word(hi, lo)
  {
    var t := SetWord(s, at, hi, lo);
    assert s == (s[..at] + s[at..at + 2]) + s[at + 2..];
    assert t == (s[..at] + t[at..at + 2]) + s[at + 2..];
    WordSumConcat(s[..at] + s[at..at + 2], s[at + 2..]);
    WordSumConcat(s[..at] + t[at..at + 2], s[at + 2..]);
    WordSumConcat(s[..at], s[at..at + 2]);
    WordSumConcat(s[..at], t[at..at + 2]);
    OneWord(s[at..at + 2]);
    OneWord(t[at..at + 2]);
  }

  lemma OneWord(s: seq<Byte>)
    requires |s| == 2
    ensures WordSum(s) == Word(s[0], s[1])
  {
    assert s[..0] == [];
  }

  /** The checksum of a message whose words add up to t. */
  function Checksum(t: nat): (c: nat)
    ensures c <= 0xffff
  {
    0xffff - Fold(t)
  }

  /** Storing the checksum in a word that was zero makes the message sum to "all ones". */
  lemma {:induction false} ChecksumCancels(t: nat)
    requires t > 0
    ensures Checksum(t + Checksum(t)) == 0
  {
  }
}
