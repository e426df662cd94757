/** The bitwise CRC-32 of section 8 of RFC 1952. */
module Crc32 {

  const POLYNOMIAL: bv32 := 0xEDB88320

  /** One bit of the division. */
  function BitStep(crc: bv32): bv32 {
    if LowBitClear(crc) then Shift(crc) else Xor(Shift(crc), POLYNOMIAL)
  }

  predicate LowBitClear(z: bv32) { z & 1 == 0 }

  function Shift(z: bv32): bv32 { z >> 1 }

  function Xor(a: bv32, b: bv32): bv32 { a ^ b }

  ghost function BitSteps(crc: bv32, n: nat): bv32 {
    if n == 0 then crc else BitStep(BitSteps(crc, n - 1))
  }

  ghost function ByteStep(crc: bv32, b: bv8): bv32 {
    BitSteps(Xor(crc, b as bv32), 8)
  }

  /** The register after the bytes of `data`. */
  ghost function Register(crc: bv32, data: seq<bv8>): bv32 {
    if |data| == 0 then crc else ByteStep(Register(crc, data[..|data| - 1]), data[|data| - 1])
  }

  /** The value reported for a buffer; an empty one has 0. */
  ghost function Crc(data: seq<bv8>): bv32 {
    if |data| == 0 then 0 else Xor(Register(0xFFFF_FFFF, data), 0xFFFF_FFFF)
  }

  /** diag_crc32. */
  method ComputeCrc(data: array<bv8>, len: nat) returns (crc: bv32)
    requires len <= data.Length
    ensures crc == Crc(data[..len])
  {
    hide BitStep, Xor;
    if len == 0 {
      return 0;
    }
    crc := 0xFFFF_FFFF;
    for i := 0 to len
      invariant crc == Register(0xFFFF_FFFF, data[..i])
    {
      assert data[..i + 1][..i] == data[..i];
      crc := AddByte(crc, data[i]);
    }
    crc := Xor(crc, 0xFFFF_FFFF);
  }

  /** The inner loop over the bits of one byte. */
  method AddByte(start: bv32, b: bv8) returns (crc: bv32)
    ensures crc == ByteStep(start, b)
  {
    hide Xor, Shift, LowBitClear;
    crc := Xor(start, b as bv32);
    for j := 0 to 8
      invariant crc == BitSteps(Xor(start, b as bv32), j)
    {
      if !LowBitClear(crc) {
        crc := Xor(Shift(crc), POLYNOMIAL);
      } else {
        crc := Shift(crc);
      }
    }
  }

  // ------------------------------------------------------------------ injectivity

  /** The top bit of the polynomial is set, so a step can be undone. */
  lemma BitStepInjective(a: bv32, b: bv32)
    ensures BitStep(a) == BitStep(b) ==> a == b
  {
  }

  lemma {:induction false} BitStepsInjective(a: bv32, b: bv32, n: nat)
    requires BitSteps(a, n) == BitSteps(b, n)
    ensures a == b
  {
    hide BitStep;
    if n > 0 {
      BitStepInjective(BitSteps(a, n - 1), BitSteps(b, n - 1));
      BitStepsInjective(a, b, n - 1);
    }
  }

  lemma XorInjective(x: bv32, y: bv32, c: bv32)
    ensures Xor(x, c) == Xor(y, c) ==> x == y
    ensures Xor(c, x) == Xor(c, y) ==> x == y
  {
  }

  /** For fixed bytes the final register determines the initial one. */
  lemma {:induction false} RegisterInjective(a: bv32, b: bv32, data: seq<bv8>)
    requires Register(a, data) == Register(b, data)
    ensures a == b
  {
    hide Xor, BitSteps;
    if |data| > 0 {
      var front, c := data[..|data| - 1], data[|data| - 1] as bv32;
      var x, y := Register(a, front), Register(b, front);
      BitStepsInjective(Xor(x, c), Xor(y, c), 8);
      XorInjective(x, y, c);
      RegisterInjective(a, b, front);
    }
  }

  lemma {:induction false} RegisterConcat(crc: bv32, a: seq<bv8>, b: seq<bv8>)
    ensures Register(crc, a + b) == Register(Register(crc, a), b)
  {
    hide ByteStep;
    if |b| == 0 {
      assert a + b == a;
    } else {
      assert (a + b)[..|a + b| - 1] == a + b[..|b| - 1];
      RegisterConcat(crc, a, b[..|b| - 1]);
    }
  }

  // ------------------------------------------------------------------ linearity

  ghost function Shifts(z: bv32, n: nat): bv32 {
    if n == 0 then z else Shift(Shifts(z, n - 1))
  }

  ghost predicate LowBitsClear(z: bv32, n: nat) {
    forall k :: 0 <= k < n ==> LowBitClear(Shifts(z, k))
  }

  /** A bit that has not reached the low end only moves. */
  lemma ShiftStep(x: bv32, z: bv32)
    requires LowBitClear(z)
    ensures BitStep(Xor(x, z)) == Xor(BitStep(x), Shift(z))
  {
    hide Xor, Shift, LowBitClear;
    LowBitOfXor(x, z);
    ShiftOfXor(x, z);
    XorSwap(Shift(x), Shift(z), POLYNOMIAL);
  }

  lemma LowBitOfXor(x: bv32, z: bv32)
    requires LowBitClear(z)
    ensures LowBitClear(Xor(x, z)) == LowBitClear(x)
  {
  }

  lemma ShiftOfXor(x: bv32, z: bv32)
    ensures Shift(Xor(x, z)) == Xor(Shift(x), Shift(z))
  {
  }

  lemma XorSwap(x: bv32, y: bv32, z: bv32)
    ensures Xor(Xor(x, y), z) == Xor(Xor(x, z), y)
  {
    hide Xor;
    XorAssociative(x, y, z);
    XorCommutes(y, z);
    XorAssociative(x, z, y);
  }

  lemma XorAssociative(x: bv32, y: bv32, z: bv32)
    ensures Xor(Xor(x, y), z) == Xor(x, Xor(y, z))
  {
  }

  lemma XorCommutes(x: bv32, y: bv32)
    ensures Xor(x, y) == Xor(y, x)
  {
  }

  lemma {:induction false} ShiftSteps(x: bv32, z: bv32, n: nat)
    requires LowBitsClear(z, n)
    ensures BitSteps(Xor(x, z), n) == Xor(BitSteps(x, n), Shifts(z, n))
  {
    hide BitStep, Xor, Shift, LowBitClear;
    if n > 0 {
      ShiftSteps(x, z, n - 1);
      ShiftStep(BitSteps(x, n - 1), Shifts(z, n - 1));
    }
  }

  /** One byte up. */
  function Up(z: bv32): bv32 { z << 8 }

  lemma EightDown(z: bv32)
    requires z & 0xff00_0000 == 0
    ensures var s1 := Up(z) >> 1; var s2 := s1 >> 1; var s3 := s2 >> 1; var s4 := s3 >> 1;
            var s5 := s4 >> 1; var s6 := s5 >> 1; var s7 := s6 >> 1;
            && Up(z) & 1 == s1 & 1 == s2 & 1 == s3 & 1 == s4 & 1 == s5 & 1 == s6 & 1 == s7 & 1 == 0
            && s7 >> 1 == z
  {
  }

  /** Three bytes moved up by one byte come down again in eight steps. */
  lemma {:induction false} ByteDown(z: bv32)
    requires z & 0xff00_0000 == 0
    ensures LowBitsClear(Up(z), 8) && Shifts(Up(z), 8) == z
  {
    EightDown(z);
    hide Up;
    var w := Up(z);
    assert Shifts(w, 1) == Shift(Shifts(w, 0)) && Shifts(w, 2) == Shift(Shifts(w, 1));
    assert Shifts(w, 3) == Shift(Shifts(w, 2)) && Shifts(w, 4) == Shift(Shifts(w, 3));
    assert Shifts(w, 5) == Shift(Shifts(w, 4)) && Shifts(w, 6) == Shift(Shifts(w, 5));
    assert Shifts(w, 7) == Shift(Shifts(w, 6)) && Shifts(w, 8) == Shift(Shifts(w, 7));
  }

  // ------------------------------------------------------------------ four bytes at once

  /** Up to four bytes as a little-endian word. */
  ghost function Pack(d: seq<bv8>): bv32
    requires |d| <= 4
  {
    if |d| == 0 then 0 else Join(d[0], Pack(d[1..]))
  }

  function Join(b: bv8, above: bv32): bv32 { Xor(b as bv32, Up(above)) }

  ghost predicate Below(z: bv32, bytes: nat) {
    && (bytes == 0 ==> z == 0)
    && (bytes == 1 ==> z & 0xffff_ff00 == 0)
    && (bytes == 2 ==> z & 0xffff_0000 == 0)
    && (bytes == 3 ==> z & 0xff00_0000 == 0)
  }

  lemma JoinBelow(b: bv8, z: bv32, bytes: nat)
    requires bytes <= 3 && Below(z, bytes)
    ensures Below(Join(b, z), bytes + 1)
    ensures z & 0xff00_0000 == 0
  {
    SmallTop(z);
    if bytes == 0 {
      JoinBelow0(b, z);
    } else if bytes == 1 {
      JoinBelow1(b, z);
    } else if bytes == 2 {
      JoinBelow2(b, z);
    }
    hide Join;
  }

  lemma SmallTop(z: bv32)
    ensures z == 0 || z & 0xffff_ff00 == 0 || z & 0xffff_0000 == 0 ==> z & 0xff00_0000 == 0
  {
  }

  lemma JoinBelow0(b: bv8, z: bv32)
    requires z == 0
    ensures Join(b, z) & 0xffff_ff00 == 0
  {
  }

  lemma JoinBelow1(b: bv8, z: bv32)
    requires z & 0xffff_ff00 == 0
    ensures Join(b, z) & 0xffff_0000 == 0
  {
  }

  lemma JoinBelow2(b: bv8, z: bv32)
    requires z & 0xffff_0000 == 0
    ensures Join(b, z) & 0xff00_0000 == 0
  {
  }

  lemma JoinInjective(b: bv8, z: bv32, b': bv8, z': bv32)
    requires z & 0xff00_0000 == 0 && z' & 0xff00_0000 == 0
    requires Join(b, z) == Join(b', z')
    ensures b == b' && z == z'
  {
  }

  lemma {:induction false} PackBelow(d: seq<bv8>)
    requires |d| <= 4
    ensures Below(Pack(d), |d|)
  {
    hide Below, Join;
    if |d| == 0 {
      ZeroBelow();
    } else {
      PackBelow(d[1..]);
      JoinBelow(d[0], Pack(d[1..]), |d| - 1);
    }
  }

  lemma ZeroBelow()
    ensures Below(0, 0)
  {
  }

  lemma {:induction false} PackInjective(a: seq<bv8>, b: seq<bv8>)
    requires |a| == |b| <= 4 && Pack(a) == Pack(b)
    ensures a == b
  {
    hide Below, Join;
    if |a| > 0 {
      PackBelow(a[1..]);
      PackBelow(b[1..]);
      JoinBelow(a[0], Pack(a[1..]), |a| - 1);
      JoinBelow(b[0], Pack(b[1..]), |b| - 1);
      JoinInjective(a[0], Pack(a[1..]), b[0], Pack(b[1..]));
      PackInjective(a[1..], b[1..]);
      assert a == [a[0]] + a[1..] && b == [b[0]] + b[1..];
    }
  }

  lemma {:induction false} RegisterFirst(crc: bv32, d: seq<bv8>)
    requires |d| > 0
    ensures Register(crc, d) == Register(ByteStep(crc, d[0]), d[1..])
  {
    hide ByteStep;
    assert d == [d[0]] + d[1..];
    RegisterConcat(crc, [d[0]], d[1..]);
    assert [d[0]][..0] == [];
    assert Register(crc, [d[0]]) == ByteStep(Register(crc, [d[0]][..0]), d[0]);
  }

  /** Up to four bytes may be added to the register at once, before any step. */
  lemma {:induction false} RegisterOfPack(crc: bv32, d: seq<bv8>)
    requires |d| <= 4
    ensures Register(crc, d) == BitSteps(Xor(crc, Pack(d)), 8 * |d|)
    decreases |d|
  {
    hide Xor, BitStep, Below, Join, LowBitsClear, Shifts, Up;
    if |d| == 0 {
      XorZero(crc);
    } else {
      var b, z := d[0] as bv32, Pack(d[1..]);
      PackBelow(d[1..]);
      JoinBelow(d[0], z, |d| - 1);
      RegisterFirst(crc, d);
      RegisterOfPack(ByteStep(crc, d[0]), d[1..]);
      ByteDown(z);
      ShiftSteps(Xor(crc, b), Up(z), 8);
      XorJoin(crc, d[0], z);
      BitStepsAdd(Xor(crc, Pack(d)), 8, 8 * |d[1..]|);
    }
  }

  lemma XorZero(x: bv32)
    ensures Xor(x, 0) == x
  {
  }

  lemma XorJoin(x: bv32, b: bv8, z: bv32)
    ensures Xor(x, Join(b, z)) == Xor(Xor(x, b as bv32), Up(z))
  {
  }

  lemma {:induction false} BitStepsAdd(x: bv32, m: nat, n: nat)
    ensures BitSteps(BitSteps(x, m), n) == BitSteps(x, m + n)
  {
    hide BitStep;
    if n > 0 {
      BitStepsAdd(x, m, n - 1);
    }
  }

  /** Buffers of equal length that differ, and differ only within four consecutive bytes, never
      have the same CRC. */
  lemma {:induction false} BurstDetected(a: seq<bv8>, b: seq<bv8>, at: nat, width: nat)
    requires |a| == |b| && a != b
    requires width <= 4 && at + width <= |a|
    requires a[..at] == b[..at] && a[at + width..] == b[at + width..]
    ensures Crc(a) != Crc(b)
  {
    hide Xor, Register, BitSteps;
    if Crc(a) == Crc(b) {
      var r, x, y := Register(0xFFFF_FFFF, a[..at]), a[at..at + width], b[at..at + width];
      assert a == a[..at] + x + a[at + width..];
      assert b == a[..at] + y + a[at + width..];
      RegisterConcat(0xFFFF_FFFF, a[..at] + x, a[at + width..]);
      RegisterConcat(0xFFFF_FFFF, a[..at] + y, a[at + width..]);
      RegisterConcat(0xFFFF_FFFF, a[..at], x);
      RegisterConcat(0xFFFF_FFFF, a[..at], y);
      XorInjective(Register(0xFFFF_FFFF, a), Register(0xFFFF_FFFF, b), 0xFFFF_FFFF);
      RegisterInjective(Register(r, x), Register(r, y), a[at + width..]);
      RegisterOfPack(r, x);
      RegisterOfPack(r, y);
      BitStepsInjective(Xor(r, Pack(x)), Xor(r, Pack(y)), 8 * width);
      XorInjective(Pack(x), Pack(y), r);
      PackInjective(x, y);
    }
  }

  // ------------------------------------------------------------------ the polynomial

  /** The polynomial of RFC 1952, from x^0 to x^31, by its exponents. */
  lemma PolynomialExponents(k: bv32)
    requires k < 32
    ensures (POLYNOMIAL >> (31 - k)) & 1 == 1
       <==> k in {0, 1, 2, 4, 5, 7, 8, 10, 11, 12, 16, 22, 23, 26}
  {
  }

  /** Eight steps at once, to compute with. */
  function Eight(z: bv32): bv32 {
    BitStep(BitStep(BitStep(BitStep(BitStep(BitStep(BitStep(BitStep(z))))))))
  }

  lemma {:induction false} EightSteps(crc: bv32, n: nat)
    ensures BitSteps(crc, n + 8) == Eight(BitSteps(crc, n))
  {
    hide BitStep;
    assert BitSteps(crc, n + 2) == BitStep(BitStep(BitSteps(crc, n)));
    assert BitSteps(crc, n + 4) == BitStep(BitStep(BitSteps(crc, n + 2)));
    assert BitSteps(crc, n + 6) == BitStep(BitStep(BitSteps(crc, n + 4)));
    assert BitSteps(crc, n + 8) == BitStep(BitStep(BitSteps(crc, n + 6)));
  }

  /** Data followed by the bytes of its own checksum, the least significant first, always has the
      checksum 0x2144DF1C: the residue of this CRC. */
  lemma {:induction false} Residue(data: seq<bv8>, seal: seq<bv8>)
    requires |data| > 0 && |seal| == 4 && Pack(seal) == Crc(data)
    ensures Crc(data + seal) == 0x2144_DF1C
  {
    var r := Register(0xFFFF_FFFF, data);
    hide Xor, Register, BitSteps, Pack;
    RegisterConcat(0xFFFF_FFFF, data, seal);
    RegisterOfPack(r, seal);
    XorInverts(r);
    StepsOfOnes();
  }

  lemma XorInverts(r: bv32)
    ensures Xor(r, Xor(r, 0xFFFF_FFFF)) == 0xFFFF_FFFF
    ensures Xor(0xDEBB_20E3, 0xFFFF_FFFF) == 0x2144_DF1C
  {
  }

  lemma {:induction false} StepsOfOnes()
    ensures BitSteps(0xFFFF_FFFF, 32) == 0xDEBB_20E3
  {
    EightsOfOnes();
    hide Eight, BitStep;
    EightSteps(0xFFFF_FFFF, 0);
    EightSteps(0xFFFF_FFFF, 8);
    EightSteps(0xFFFF_FFFF, 16);
    EightSteps(0xFFFF_FFFF, 24);
  }

  lemma EightsOfOnes()
    ensures Eight(0xFFFF_FFFF) == 0x2DFD_1072
    ensures Eight(0x2DFD_1072) == 0xBE26_ED00
    ensures Eight(0xBE26_ED00) == 0x00BE_26ED
    ensures Eight(0x00BE_26ED) == 0xDEBB_20E3
  {
  }

  /** The check value that catalogues of CRCs list: the checksum of the characters 1 to 9. */
  lemma {:induction false} CheckValue()
    ensures Crc([0x31, 0x32, 0x33, 0x34, 0x35, 0x36, 0x37, 0x38, 0x39]) == 0xCBF4_3926
  {
    CheckBytes();
    hide ByteStep;
    var d: seq<bv8> := [0x31, 0x32, 0x33, 0x34, 0x35, 0x36, 0x37, 0x38, 0x39];
    assert d[..0] == [];
    assert d[..1][..0] == d[..0] && Register(0xFFFF_FFFF, d[..1]) == 0x7C23_1048;
    assert d[..2][..1] == d[..1] && Register(0xFFFF_FFFF, d[..2]) == 0xB0AC_BB32;
    assert d[..3][..2] == d[..2] && Register(0xFFFF_FFFF, d[..3]) == 0x77B7_9C2D;
    assert d[..4][..3] == d[..3] && Register(0xFFFF_FFFF, d[..4]) == 0x641C_1F5C;
    assert d[..5][..4] == d[..4] && Register(0xFFFF_FFFF, d[..5]) == 0x340A_C5E3;
    assert d[..6][..5] == d[..5] && Register(0xFFFF_FFFF, d[..6]) == 0xF68D_2C9E;
    assert d[..7][..6] == d[..6] && Register(0xFFFF_FFFF, d[..7]) == 0xAFFC_9660;
    assert d[..8][..7] == d[..7] && Register(0xFFFF_FFFF, d[..8]) == 0x651F_2550;
    assert d[..9][..8] == d[..8] && Register(0xFFFF_FFFF, d[..9]) == 0x340B_C6D9;
    assert d[..9] == d;
    assert Xor(0x340B_C6D9, 0xFFFF_FFFF) == 0xCBF4_3926;
  }

  lemma {:induction false} CheckBytes()
    ensures ByteStep(0xFFFF_FFFF, 0x31) == 0x7C23_1048
    ensures ByteStep(0x7C23_1048, 0x32) == 0xB0AC_BB32
    ensures ByteStep(0xB0AC_BB32, 0x33) == 0x77B7_9C2D
    ensures ByteStep(0x77B7_9C2D, 0x34) == 0x641C_1F5C
    ensures ByteStep(0x641C_1F5C, 0x35) == 0x340A_C5E3
    ensures ByteStep(0x340A_C5E3, 0x36) == 0xF68D_2C9E
    ensures ByteStep(0xF68D_2C9E, 0x37) == 0xAFFC_9660
    ensures ByteStep(0xAFFC_9660, 0x38) == 0x651F_2550
    ensures ByteStep(0x651F_2550, 0x39) == 0x340B_C6D9
  {
    CheckByte(0xFFFF_FFFF, 0x31);
    CheckByte(0x7C23_1048, 0x32);
    CheckByte(0xB0AC_BB32, 0x33);
    CheckByte(0x77B7_9C2D, 0x34);
    CheckByte(0x641C_1F5C, 0x35);
    CheckByte(0x340A_C5E3, 0x36);
    CheckByte(0xF68D_2C9E, 0x37);
    CheckByte(0xAFFC_9660, 0x38);
    CheckByte(0x651F_2550, 0x39);
    CheckEights();
    hide BitSteps, Eight;
  }

  lemma {:induction false} CheckByte(crc: bv32, b: bv8)
    ensures ByteStep(crc, b) == Eight(Xor(crc, b as bv32))
  {
    hide Eight, Xor;
    EightSteps(Xor(crc, b as bv32), 0);
  }

  lemma CheckEights()
    ensures Eight(Xor(0xFFFF_FFFF, 0x31 as bv8 as bv32)) == 0x7C23_1048
    ensures Eight(Xor(0x7C23_1048, 0x32 as bv8 as bv32)) == 0xB0AC_BB32
    ensures Eight(Xor(0xB0AC_BB32, 0x33 as bv8 as bv32)) == 0x77B7_9C2D
    ensures Eight(Xor(0x77B7_9C2D, 0x34 as bv8 as bv32)) == 0x641C_1F5C
    ensures Eight(Xor(0x641C_1F5C, 0x35 as bv8 as bv32)) == 0x340A_C5E3
    ensures Eight(Xor(0x340A_C5E3, 0x36 as bv8 as bv32)) == 0xF68D_2C9E
    ensures Eight(Xor(0xF68D_2C9E, 0x37 as bv8 as bv32)) == 0xAFFC_9660
    ensures Eight(Xor(0xAFFC_9660, 0x38 as bv8 as bv32)) == 0x651F_2550
    ensures Eight(Xor(0x651F_2550, 0x39 as bv8 as bv32)) == 0x340B_C6D9
  {
  }
}
