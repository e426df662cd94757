/** The binary format of a diagnostic capture: header, snapshots, CRC, all little-endian. */
module DiagFile {
  import opened Crc32

  type Bytes = seq<bv8>

  /** One captured snapshot; signed fields are kept as their two's-complement bits. */
  datatype Snapshot = Snapshot(
    timestamp: bv32,
    state: bv8, errorFlags: bv8, chargeDelay: bv8, accessStatus: bv8, mode: bv8,
    mainsL1: bv16, mainsL2: bv16, mainsL3: bv16, evL1: bv16, evL2: bv16, evL3: bv16, isum: bv16,
    chargeCurrent: bv16, isetBalanced: bv16, overrideCurrent: bv16,
    stateTimer: bv8, c1Timer: bv8, accessTimer: bv8, noCurrent: bv8,
    nrPhasesCharging: bv8, switchingC2: bv8, enableC2: bv8,
    loadBl: bv8, balancedState0: bv8, balanced0: bv16,
    tempEvse: bv8, rcMon: bv8, pilotReading: bv8,
    mainsMeterTimeout: bv8, evMeterTimeout: bv8, mainsMeterType: bv8, evMeterType: bv8,
    wifiRssi: bv8, mqttConnected: bv8,
    reserved: Reserved)

  type Reserved = b: Bytes | |b| == 9 witness seq(9, _ => 0)

  datatype Header = Header(version: bv8, profile: bv8, snapshotSize: nat, count: nat,
                           firmware: Firmware, serialNr: bv32, startUptime: bv32)

  type Firmware = b: Bytes | |b| == 16 witness seq(16, _ => 0)

  const SNAPSHOT_SIZE := 58     // the comment in the header file says 64; the fields add up to 58
  const HEADER_SIZE := 34
  const CRC_SIZE := 4
  const FILE_VERSION: bv8 := 1

  // ------------------------------------------------------------------ numbers

  function Byte(x: bv32, k: nat): bv8
    requires k < 4
  {
    match k
    case 0 => (x & 0xff) as bv8
    case 1 => ((x >> 8) & 0xff) as bv8
    case 2 => ((x >> 16) & 0xff) as bv8
    case _ => (x >> 24) as bv8
  }

  function Bytes32(x: bv32): (b: Bytes)
    ensures |b| == 4
  {
    [Byte(x, 0), Byte(x, 1), Byte(x, 2), Byte(x, 3)]
  }

  function Word32(b0: bv8, b1: bv8, b2: bv8, b3: bv8): bv32 {
    b0 as bv32 | (b1 as bv32 << 8) | (b2 as bv32 << 16) | (b3 as bv32 << 24)
  }

  lemma Word32OfBytes(x: bv32)
    ensures Word32(Byte(x, 0), Byte(x, 1), Byte(x, 2), Byte(x, 3)) == x
  {
  }

  function Low(x: bv16): bv8 { (x & 0xff) as bv8 }

  function High(x: bv16): bv8 { (x >> 8) as bv8 }

  function Word16(b0: bv8, b1: bv8): bv16 { b0 as bv16 | (b1 as bv16 << 8) }

  lemma Word16OfBytes(x: bv16)
    ensures Word16(Low(x), High(x)) == x
  {
  }

  /** The byte that represents n, and the number that a byte represents. */
  function ByteOf(n: nat): bv8
    requires n < 0x100
  {
    if n == 0 then 0 else ByteOf(n - 1) + 1
  }

  function NatOf(x: bv8): nat {
    (if x & 1 != 0 then 1 else 0) + (if x & 2 != 0 then 2 else 0)
    + (if x & 4 != 0 then 4 else 0) + (if x & 8 != 0 then 8 else 0)
    + (if x & 16 != 0 then 16 else 0) + (if x & 32 != 0 then 32 else 0)
    + (if x & 64 != 0 then 64 else 0) + (if x & 128 != 0 then 128 else 0)
  }

  lemma Successor(x: bv8)
    ensures NatOf(x) < 255 ==> NatOf(x + 1) == NatOf(x) + 1
  {
  }

  lemma NothingIsZero()
    ensures NatOf(0) == 0
  {
  }

  lemma {:induction false} ByteRoundTrip(n: nat)
    requires n < 0x100
    ensures NatOf(ByteOf(n)) == n
  {
    hide NatOf;
    if n == 0 {
      NothingIsZero();
    } else {
      ByteRoundTrip(n - 1);
      Successor(ByteOf(n - 1));
    }
  }

  /** A 16-bit number held as a natural number. */
  function LowByte(n: nat): bv8 { ByteOf(n % 0x100) }

  function HighByte(n: nat): bv8 { ByteOf(n / 0x100 % 0x100) }

  function Number(lo: bv8, hi: bv8): nat { NatOf(lo) + 0x100 * NatOf(hi) }

  lemma NumberOfBytes(n: nat)
    requires n <= 0xffff
    ensures Number(LowByte(n), HighByte(n)) == n
  {
    hide NatOf, ByteOf;
    ByteRoundTrip(n % 0x100);
    ByteRoundTrip(n / 0x100);
  }

  // ------------------------------------------------------------------ snapshots

  /** Bytes 0 to 8. */
  function EncodeState(s: Snapshot): (b: Bytes)
    ensures |b| == 9
  {
    Bytes32(s.timestamp) + [s.state, s.errorFlags, s.chargeDelay, s.accessStatus, s.mode]
  }

  /** Bytes 9 to 28. */
  function EncodeCurrents(s: Snapshot): (b: Bytes)
    ensures |b| == 20
  {
    [Low(s.mainsL1), High(s.mainsL1), Low(s.mainsL2), High(s.mainsL2), Low(s.mainsL3), High(s.mainsL3),
     Low(s.evL1), High(s.evL1), Low(s.evL2), High(s.evL2), Low(s.evL3), High(s.evL3), Low(s.isum), High(s.isum),
     Low(s.chargeCurrent), High(s.chargeCurrent), Low(s.isetBalanced), High(s.isetBalanced),
     Low(s.overrideCurrent), High(s.overrideCurrent)]
  }

  /** Bytes 29 to 48. */
  function EncodeHealth(s: Snapshot): (b: Bytes)
    ensures |b| == 20
  {
    [s.stateTimer, s.c1Timer, s.accessTimer, s.noCurrent,
     s.nrPhasesCharging, s.switchingC2, s.enableC2,
     s.loadBl, s.balancedState0, Low(s.balanced0), High(s.balanced0),
     s.tempEvse, s.rcMon, s.pilotReading,
     s.mainsMeterTimeout, s.evMeterTimeout, s.mainsMeterType, s.evMeterType,
     s.wifiRssi, s.mqttConnected]
  }

  function EncodeSnapshot(s: Snapshot): (b: Bytes)
    ensures |b| == SNAPSHOT_SIZE
  {
    EncodeState(s) + EncodeCurrents(s) + EncodeHealth(s) + s.reserved
  }

  function DecodeSnapshot(b: Bytes): Snapshot
    requires |b| == SNAPSHOT_SIZE
  {
    Decode(b[..9], b[9..29], b[29..49], b[49..])
  }

  function Decode(a: Bytes, c: Bytes, h: Bytes, r: Reserved): Snapshot
    requires |a| == 9 && |c| == 20 && |h| == 20
  {
    Snapshot(
      Word32(a[0], a[1], a[2], a[3]), a[4], a[5], a[6], a[7], a[8],
      Word16(c[0], c[1]), Word16(c[2], c[3]), Word16(c[4], c[5]),
      Word16(c[6], c[7]), Word16(c[8], c[9]), Word16(c[10], c[11]), Word16(c[12], c[13]),
      Word16(c[14], c[15]), Word16(c[16], c[17]), Word16(c[18], c[19]),
      h[0], h[1], h[2], h[3],
      h[4], h[5], h[6],
      h[7], h[8], Word16(h[9], h[10]),
      h[11], h[12], h[13],
      h[14], h[15], h[16], h[17],
      h[18], h[19],
      r)
  }

  lemma FourParts(a: Bytes, c: Bytes, h: Bytes, r: Bytes)
    ensures var b := a + c + h + r;
            && b[..|a|] == a && b[|a|..|a| + |c|] == c
            && b[|a| + |c|..|a| + |c| + |h|] == h && b[|a| + |c| + |h|..] == r
  {
  }

  /** The 58 bytes determine the snapshot. */
  lemma {:induction false} SnapshotRoundTrip(s: Snapshot)
    ensures DecodeSnapshot(EncodeSnapshot(s)) == s
  {
    hide EncodeState, EncodeCurrents, EncodeHealth, Decode;
    FourParts(EncodeState(s), EncodeCurrents(s), EncodeHealth(s), s.reserved);
    PartsRoundTrip(s);
  }

  lemma {:induction false} PartsRoundTrip(s: Snapshot)
    ensures Decode(EncodeState(s), EncodeCurrents(s), EncodeHealth(s), s.reserved) == s
  {
    hide Word32, Word16, Byte, Low, High;
    Word32OfBytes(s.timestamp);
    Word16OfBytes(s.mainsL1);
    Word16OfBytes(s.mainsL2);
    Word16OfBytes(s.mainsL3);
    Word16OfBytes(s.evL1);
    Word16OfBytes(s.evL2);
    Word16OfBytes(s.evL3);
    Word16OfBytes(s.isum);
    Word16OfBytes(s.chargeCurrent);
    Word16OfBytes(s.isetBalanced);
    Word16OfBytes(s.overrideCurrent);
    Word16OfBytes(s.balanced0);
  }

  /** A number stands at `at` with its low byte first. */
  predicate Holds16(b: Bytes, at: nat, x: bv16)
    requires at + 2 <= |b|
  {
    x & 0xff == b[at] as bv16 && x >> 8 == b[at + 1] as bv16
  }

  predicate Holds32(b: Bytes, at: nat, x: bv32)
    requires at + 4 <= |b|
  {
    && x & 0xff == b[at] as bv32 && (x >> 8) & 0xff == b[at + 1] as bv32
    && (x >> 16) & 0xff == b[at + 2] as bv32 && x >> 24 == b[at + 3] as bv32
  }

  lemma WordHolds16(b: Bytes, at: nat)
    requires at + 2 <= |b|
    ensures Holds16(b, at, Word16(b[at], b[at + 1]))
  {
    WordLowFirst16(b[at], b[at + 1]);
  }

  lemma WordLowFirst16(lo: bv8, hi: bv8)
    ensures Word16(lo, hi) & 0xff == lo as bv16 && Word16(lo, hi) >> 8 == hi as bv16
  {
  }

  lemma WordLowFirst32(b0: bv8, b1: bv8, b2: bv8, b3: bv8)
    ensures var x := Word32(b0, b1, b2, b3);
            && x & 0xff == b0 as bv32 && (x >> 8) & 0xff == b1 as bv32
            && (x >> 16) & 0xff == b2 as bv32 && x >> 24 == b3 as bv32
  {
  }

  /** Bytes 0 to 8 of the packed structure. */
  predicate StateLayout(b: Bytes, s: Snapshot)
    requires |b| == SNAPSHOT_SIZE
  {
    && Holds32(b, 0, s.timestamp)
    && b[4] == s.state && b[5] == s.errorFlags && b[6] == s.chargeDelay
    && b[7] == s.accessStatus && b[8] == s.mode
  }

  /** Bytes 9 to 28. */
  predicate CurrentsLayout(b: Bytes, s: Snapshot)
    requires |b| == SNAPSHOT_SIZE
  {
    && Holds16(b, 9, s.mainsL1) && Holds16(b, 11, s.mainsL2) && Holds16(b, 13, s.mainsL3)
    && Holds16(b, 15, s.evL1) && Holds16(b, 17, s.evL2) && Holds16(b, 19, s.evL3)
    && Holds16(b, 21, s.isum) && Holds16(b, 23, s.chargeCurrent) && Holds16(b, 25, s.isetBalanced)
    && Holds16(b, 27, s.overrideCurrent)
  }

  /** Bytes 29 to 57. */
  predicate HealthLayout(b: Bytes, s: Snapshot)
    requires |b| == SNAPSHOT_SIZE
  {
    && b[29] == s.stateTimer && b[30] == s.c1Timer && b[31] == s.accessTimer && b[32] == s.noCurrent
    && b[33] == s.nrPhasesCharging && b[34] == s.switchingC2 && b[35] == s.enableC2
    && b[36] == s.loadBl && b[37] == s.balancedState0 && Holds16(b, 38, s.balanced0)
    && b[40] == s.tempEvse && b[41] == s.rcMon && b[42] == s.pilotReading
    && b[43] == s.mainsMeterTimeout && b[44] == s.evMeterTimeout
    && b[45] == s.mainsMeterType && b[46] == s.evMeterType
    && b[47] == s.wifiRssi && b[48] == s.mqttConnected && b[49..] == s.reserved
  }

  /** The packed structure, field by field: offsets, widths and byte order. */
  lemma {:induction false} SnapshotLayout(s: Snapshot)
    ensures var b := EncodeSnapshot(s); StateLayout(b, s) && CurrentsLayout(b, s) && HealthLayout(b, s)
  {
    hide EncodeSnapshot, StateLayout, CurrentsLayout, HealthLayout;
    var b := EncodeSnapshot(s);
    SnapshotRoundTrip(s);
    hide DecodeSnapshot;
    StateRead(b);
    CurrentsRead(b);
    HealthRead(b);
  }

  lemma {:induction false} StateRead(b: Bytes)
    requires |b| == SNAPSHOT_SIZE
    ensures StateLayout(b, DecodeSnapshot(b))
  {
    hide Word32, Word16;
    WordLowFirst32(b[0], b[1], b[2], b[3]);
  }

  lemma {:induction false} CurrentsRead(b: Bytes)
    requires |b| == SNAPSHOT_SIZE
    ensures CurrentsLayout(b, DecodeSnapshot(b))
  {
    var s := DecodeSnapshot(b);
    assert s.mainsL1 == Word16(b[9], b[10]) && s.mainsL2 == Word16(b[11], b[12]) && s.mainsL3 == Word16(b[13], b[14]);
    assert s.evL1 == Word16(b[15], b[16]) && s.evL2 == Word16(b[17], b[18]) && s.evL3 == Word16(b[19], b[20]);
    assert s.isum == Word16(b[21], b[22]) && s.chargeCurrent == Word16(b[23], b[24]);
    assert s.isetBalanced == Word16(b[25], b[26]) && s.overrideCurrent == Word16(b[27], b[28]);
    hide DecodeSnapshot, Word16, Holds16;
    WordHolds16(b, 9);
    WordHolds16(b, 11);
    WordHolds16(b, 13);
    WordHolds16(b, 15);
    WordHolds16(b, 17);
    WordHolds16(b, 19);
    WordHolds16(b, 21);
    WordHolds16(b, 23);
    WordHolds16(b, 25);
    WordHolds16(b, 27);
  }

  lemma {:induction false} HealthRead(b: Bytes)
    requires |b| == SNAPSHOT_SIZE
    ensures HealthLayout(b, DecodeSnapshot(b))
  {
    hide Word32, Word16, Holds16;
    WordHolds16(b, 38);
  }

  ghost function EncodeAll(s: seq<Snapshot>): (b: Bytes)
    ensures |b| == SNAPSHOT_SIZE * |s|
  {
    if |s| == 0 then [] else EncodeAll(s[..|s| - 1]) + EncodeSnapshot(s[|s| - 1])
  }

  ghost function DecodeAll(b: Bytes, n: nat): seq<Snapshot>
    requires |b| == SNAPSHOT_SIZE * n
  {
    if n == 0 then []
    else DecodeAll(b[..|b| - SNAPSHOT_SIZE], n - 1) + [DecodeSnapshot(b[|b| - SNAPSHOT_SIZE..])]
  }

  lemma {:induction false} SnapshotsRoundTrip(s: seq<Snapshot>)
    ensures DecodeAll(EncodeAll(s), |s|) == s
  {
    hide EncodeSnapshot, DecodeSnapshot;
    if |s| > 0 {
      var b, n := EncodeAll(s), |s| - 1;
      assert b[..|b| - SNAPSHOT_SIZE] == EncodeAll(s[..n]);
      assert b[|b| - SNAPSHOT_SIZE..] == EncodeSnapshot(s[n]);
      SnapshotRoundTrip(s[n]);
      SnapshotsRoundTrip(s[..n]);
      assert s == s[..n] + [s[n]];
    }
  }

  // ------------------------------------------------------------------ header

  /** Bytes 0 to 9: "EVSE", then versions, sizes and counts. */
  function EncodeTop(h: Header): (b: Bytes)
    ensures |b| == 10
  {
    [0x45, 0x56, 0x53, 0x45,
     h.version, h.profile, LowByte(h.snapshotSize), HighByte(h.snapshotSize), LowByte(h.count), HighByte(h.count)]
  }

  function EncodeHeader(h: Header): (b: Bytes)
    ensures |b| == HEADER_SIZE
  {
    EncodeTop(h) + h.firmware + Bytes32(h.serialNr) + Bytes32(h.startUptime)
  }

  function DecodeHeader(b: Bytes): Header
    requires |b| == HEADER_SIZE
  {
    DecodeParts(b[..10], b[10..26], b[26..30], b[30..])
  }

  function DecodeParts(t: Bytes, f: Firmware, n: Bytes, u: Bytes): Header
    requires |t| == 10 && |n| == |u| == 4
  {
    Header(t[4], t[5], Number(t[6], t[7]), Number(t[8], t[9]), f,
           Word32(n[0], n[1], n[2], n[3]), Word32(u[0], u[1], u[2], u[3]))
  }

  lemma {:induction false} HeaderRoundTrip(h: Header)
    requires h.snapshotSize <= 0xffff && h.count <= 0xffff
    ensures DecodeHeader(EncodeHeader(h)) == h
    ensures EncodeHeader(h)[..4] == [0x45, 0x56, 0x53, 0x45]
  {
    hide EncodeTop, DecodeParts, Bytes32;
    FourParts(EncodeTop(h), h.firmware, Bytes32(h.serialNr), Bytes32(h.startUptime));
    HeaderPartsRoundTrip(h);
    assert EncodeHeader(h)[..4] == EncodeHeader(h)[..10][..4];
  }

  lemma {:induction false} HeaderPartsRoundTrip(h: Header)
    requires h.snapshotSize <= 0xffff && h.count <= 0xffff
    ensures DecodeParts(EncodeTop(h), h.firmware, Bytes32(h.serialNr), Bytes32(h.startUptime)) == h
    ensures EncodeTop(h)[..4] == [0x45, 0x56, 0x53, 0x45]
  {
    hide Word32, Byte, LowByte, HighByte, Number;
    NumberOfBytes(h.snapshotSize);
    NumberOfBytes(h.count);
    Word32OfBytes(h.serialNr);
    Word32OfBytes(h.startUptime);
  }

  /** The packed header, field by field. */
  ghost predicate HeaderFields(b: Bytes, h: Header)
    requires |b| == HEADER_SIZE
  {
    && b[..4] == [0x45, 0x56, 0x53, 0x45] && b[4] == h.version && b[5] == h.profile
    && NatOf(b[6]) + 0x100 * NatOf(b[7]) == h.snapshotSize && NatOf(b[8]) + 0x100 * NatOf(b[9]) == h.count
    && b[10..26] == h.firmware && Holds32(b, 26, h.serialNr) && Holds32(b, 30, h.startUptime)
  }

  lemma {:induction false} HeaderLayout(h: Header)
    requires h.snapshotSize <= 0xffff && h.count <= 0xffff
    ensures HeaderFields(EncodeHeader(h), h)
  {
    hide EncodeHeader, HeaderFields;
    var b := EncodeHeader(h);
    HeaderRoundTrip(h);
    HeaderRead(b);
  }

  lemma {:induction false} HeaderRead(b: Bytes)
    requires |b| == HEADER_SIZE && b[..4] == [0x45, 0x56, 0x53, 0x45]
    ensures HeaderFields(b, DecodeHeader(b))
  {
    hide Word32, NatOf;
    WordLowFirst32(b[26], b[27], b[28], b[29]);
    WordLowFirst32(b[30], b[31], b[32], b[33]);
  }

  /** The version string, cut to 15 characters and padded with zeros. */
  function FirmwareField(version: Bytes): (f: Firmware) {
    var n := if |version| > 15 then 15 else |version|;
    version[..n] + seq(16 - n, _ => 0)
  }

  /** The text that a field holds up to its NUL. */
  ghost function Text(f: Bytes): (t: Bytes) {
    if |f| == 0 || f[0] == 0 then [] else [f[0]] + Text(f[1..])
  }

  /** A reader of the field, as a C string, finds the version or its first 15 characters. */
  lemma {:induction false} FirmwareText(version: Bytes)
    requires 0 !in version
    ensures FirmwareField(version)[15] == 0
    ensures Text(FirmwareField(version)) == version[..if |version| > 15 then 15 else |version|]
  {
    var n := if |version| > 15 then 15 else |version|;
    TextOfPadded(version[..n], seq(16 - n, _ => 0));
  }

  lemma {:induction false} TextOfPadded(t: Bytes, zeros: Bytes)
    requires 0 !in t && |zeros| > 0 && zeros[0] == 0
    ensures Text(t + zeros) == t
  {
    if |t| > 0 {
      assert t[0] != 0 && (t + zeros)[1..] == t[1..] + zeros && t == [t[0]] + t[1..];
      TextOfPadded(t[1..], zeros);
    } else {
      assert t + zeros == zeros;
    }
  }

  // ------------------------------------------------------------------ files

  ghost function Payload(h: Header, s: seq<Snapshot>): Bytes {
    EncodeHeader(h) + EncodeAll(s)
  }

  ghost function FileBytes(h: Header, s: seq<Snapshot>): Bytes {
    Payload(h, s) + Bytes32(Crc(Payload(h, s)))
  }

  datatype Parsed = File(header: Header, snapshots: seq<Snapshot>) | Malformed

  /** What a reader of the format does: check the length, magic, version, sizes and CRC. */
  ghost function Parse(b: Bytes): Parsed {
    if |b| < HEADER_SIZE + CRC_SIZE || b[..4] != [0x45, 0x56, 0x53, 0x45] then Malformed
    else
      var payload := b[..|b| - CRC_SIZE];
      var c := b[|b| - CRC_SIZE..];
      var h := DecodeHeader(payload[..HEADER_SIZE]);
      if h.version != FILE_VERSION || h.snapshotSize != SNAPSHOT_SIZE then Malformed
      else if |payload| != HEADER_SIZE + SNAPSHOT_SIZE * h.count then Malformed
      else if Word32(c[0], c[1], c[2], c[3]) != Crc(payload) then Malformed
      else File(h, DecodeAll(payload[HEADER_SIZE..], h.count))
  }

  /** Reading a written file gives back what was written. */
  lemma {:induction false} FileRoundTrip(h: Header, s: seq<Snapshot>)
    requires h.version == FILE_VERSION && h.snapshotSize == SNAPSHOT_SIZE && h.count == |s| <= 0xffff
    ensures Parse(FileBytes(h, s)) == File(h, s)
  {
    hide Word32, Byte, Crc, EncodeHeader, DecodeHeader, EncodeAll, DecodeAll;
    var b, p := FileBytes(h, s), Payload(h, s);
    assert b[..|b| - CRC_SIZE] == p && b[|b| - CRC_SIZE..] == Bytes32(Crc(p));
    assert p[..HEADER_SIZE] == EncodeHeader(h) && p[HEADER_SIZE..] == EncodeAll(s);
    assert b[..4] == EncodeHeader(h)[..4];
    HeaderRoundTrip(h);
    SnapshotsRoundTrip(s);
    Word32OfBytes(Crc(p));
  }

  lemma PackOfBytes32(x: bv32)
    ensures Pack(Bytes32(x)) == x
  {
    var b := Bytes32(x);
    assert b[1..][1..] == b[2..] && b[2..][1..] == b[3..] && b[3..][1..] == [];
    assert Pack(b[3..]) == Join(b[3], Pack(b[3..][1..]));
    assert Pack(b[2..]) == Join(b[2], Pack(b[2..][1..]));
    assert Pack(b[1..]) == Join(b[1], Pack(b[1..][1..]));
    assert Pack(b) == Join(b[0], Pack(b[1..]));
    JoinBytes(x);
    hide Join, Byte;
  }

  lemma JoinBytes(x: bv32)
    ensures Join(Byte(x, 0), Join(Byte(x, 1), Join(Byte(x, 2), Join(Byte(x, 3), 0)))) == x
  {
  }

  /** The checksum over a whole file is the residue of RFC 1952, whatever it holds. */
  lemma {:induction false} FileResidue(h: Header, s: seq<Snapshot>)
    ensures Crc(FileBytes(h, s)) == 0x2144_DF1C
  {
    hide Crc, Pack, Bytes32, EncodeHeader, EncodeAll;
    PackOfBytes32(Crc(Payload(h, s)));
    Residue(Payload(h, s), Bytes32(Crc(Payload(h, s))));
  }

  /** No reader accepts a file whose payload was altered within four consecutive bytes. */
  lemma {:induction false} CorruptionDetected(h: Header, s: seq<Snapshot>, b: Bytes, at: nat, width: nat)
    requires var f := FileBytes(h, s);
             && |b| == |f| && b != f && width <= 4 && at + width <= |f| - CRC_SIZE
             && b[..at] == f[..at] && b[at + width..] == f[at + width..]
    ensures Parse(b).Malformed?
  {
    hide Word32, Byte, Crc, EncodeHeader, DecodeHeader, EncodeAll, DecodeAll;
    var f, p := FileBytes(h, s), Payload(h, s);
    var n := |f| - CRC_SIZE;
    assert f[..n] == p && f[n..] == Bytes32(Crc(p));
    assert b[n..] == b[at + width..][n - at - width..] == f[at + width..][n - at - width..] == f[n..];
    assert b[..n][..at] == b[..at] && p[..at] == f[..at];
    assert b[..n][at + width..] == b[at + width..][..n - at - width];
    assert p[at + width..] == f[at + width..][..n - at - width];
    assert b == b[..n] + b[n..] && f == p + f[n..];
    BurstDetected(b[..n], p, at, width);
    Word32OfBytes(Crc(p));
  }
}
