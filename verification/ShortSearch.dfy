/** The rolling-word searches for needles of two, three and four bytes.  Shifts of 16- and 32-bit
    words are written as arithmetic modulo the word size. */
module ShortSearch {
  import opened Options
  import opened CStrings

  const WORD16 := 0x1_0000
  const WORD32 := 0x1_0000_0000

  /** twobyte_strstr.  Its caller has checked that h is not empty. */
  method TwoByte(h: seq<Char>, n: seq<Char>, ghost hl: nat) returns (r: Option<nat>)
    requires IsString(h, hl) && 1 <= hl
    requires IsString(n, 2)
    ensures IsFirst(h, hl, n, 2, r)
  {
    var nw, hw := Word2(n[0], n[1]), Word2(h[0], h[1]);
    var p := 1;
    while h[p] != 0 && hw != nw
      invariant 1 <= p <= hl
      invariant hw == Word2(h[p - 1], h[p])
      invariant NoneBefore(h, hl, n, 2, p - 1)
      decreases hl - p
    {
      NotHere(h, hl, n, 2, p - 1, if h[p - 1] != n[0] then 0 else 1);
      p := p + 1;
      hw := (hw * 0x100 + h[p]) % WORD16;
    }
    if h[p] != 0 {
      assert h[p - 1] == n[0] && h[p] == n[1];
      r := Some(p - 1);
    } else {
      r := None;
    }
  }

  function Word2(a: Char, b: Char): nat {
    a as int * 0x100 + b as int
  }

  lemma NotHere(h: seq<Char>, hl: nat, n: seq<Char>, l: nat, at: nat, j: nat)
    requires hl <= |h| && l <= |n| && NoneBefore(h, hl, n, l, at)
    requires j < l && at + j < |h| && h[at + j] != n[j]
    ensures NoneBefore(h, hl, n, l, at + 1)
  {
  }

  /** threebyte_strstr: the word holds three bytes above a zero byte.  Its caller has checked that
      h has at least two characters. */
  method ThreeByte(h: seq<Char>, n: seq<Char>, ghost hl: nat) returns (r: Option<nat>)
    requires IsString(h, hl) && 2 <= hl
    requires IsString(n, 3)
    ensures IsFirst(h, hl, n, 3, r)
  {
    var nw, hw := Word3(n[0], n[1], n[2]), Word3(h[0], h[1], h[2]);
    var p := 2;
    while h[p] != 0 && hw != nw
      invariant 2 <= p <= hl
      invariant hw == Word3(h[p - 2], h[p - 1], h[p])
      invariant NoneBefore(h, hl, n, 3, p - 2)
      decreases hl - p
    {
      NotHere(h, hl, n, 3, p - 2, if h[p - 2] != n[0] then 0 else if h[p - 1] != n[1] then 1 else 2);
      p := p + 1;
      hw := (hw + h[p]) * 0x100 % WORD32;
    }
    if h[p] != 0 {
      Word3Injective(h[p - 2], h[p - 1], h[p], n[0], n[1], n[2]);
      r := Some(p - 2);
    } else {
      r := None;
    }
  }

  function Word3(a: Char, b: Char, c: Char): nat {
    a as int * 0x100_0000 + b as int * 0x1_0000 + c as int * 0x100
  }

  lemma Word3Injective(a: Char, b: Char, c: Char, x: Char, y: Char, z: Char)
    requires Word3(a, b, c) == Word3(x, y, z)
    ensures a == x && b == y && c == z
  {
  }

  /** fourbyte_strstr.  Its caller has checked that h has at least three characters. */
  method FourByte(h: seq<Char>, n: seq<Char>, ghost hl: nat) returns (r: Option<nat>)
    requires IsString(h, hl) && 3 <= hl
    requires IsString(n, 4)
    ensures IsFirst(h, hl, n, 4, r)
  {
    var nw, hw := Word4(n[0], n[1], n[2], n[3]), Word4(h[0], h[1], h[2], h[3]);
    var p := 3;
    while h[p] != 0 && hw != nw
      invariant 3 <= p <= hl
      invariant hw == Word4(h[p - 3], h[p - 2], h[p - 1], h[p])
      invariant NoneBefore(h, hl, n, 4, p - 3)
      decreases hl - p
    {
      NotHere(h, hl, n, 4, p - 3,
              if h[p - 3] != n[0] then 0 else if h[p - 2] != n[1] then 1 else if h[p - 1] != n[2] then 2 else 3);
      p := p + 1;
      hw := (hw * 0x100 + h[p]) % WORD32;
    }
    if h[p] != 0 {
      Word4Injective(h[p - 3], h[p - 2], h[p - 1], h[p], n[0], n[1], n[2], n[3]);
      r := Some(p - 3);
    } else {
      r := None;
    }
  }

  function Word4(a: Char, b: Char, c: Char, d: Char): nat {
    Word3(a, b, c) + d as int
  }

  lemma Word4Injective(a: Char, b: Char, c: Char, d: Char, x: Char, y: Char, z: Char, w: Char)
    requires Word4(a, b, c, d) == Word4(x, y, z, w)
    ensures a == x && b == y && c == z && d == w
  {
  }
}
