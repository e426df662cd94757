/** Serialising the ring into a capture file. */
module DiagCapture {
  import opened Options
  import opened Crc32
  import opened DiagFile
  import opened DiagRing

  type Capture = Ring<Snapshot>

  function ProfileByte(p: Profile): bv8 {
    match p
    case Off => 0
    case General => 1
    case Reserved => 2
    case LoadBalancing => 3
    case Modbus => 4
    case Fast => 5
  }

  /** The header of a capture file. */
  function HeaderOf(ring: Capture, version: Option<Bytes>, serialNr: bv32): Header
    reads ring
  {
    Header(FILE_VERSION, ProfileByte(ring.profile), SNAPSHOT_SIZE, ring.count,
           if version.Some? then FirmwareField(version.value) else FirmwareField([]), serialNr, ring.startTime)
  }

  method Copy(dst: array<bv8>, at: nat, src: Bytes)
    requires at + |src| <= dst.Length
    modifies dst
    ensures dst[..at + |src|] == old(dst[..at]) + src
    ensures forall k :: at + |src| <= k < dst.Length ==> dst[k] == old(dst[k])
  {
    for i := 0 to |src|
      invariant dst[..at + i] == old(dst[..at]) + src[..i]
      invariant forall k :: at + i <= k < dst.Length ==> dst[k] == old(dst[k])
    {
      dst[at + i] := src[i];
    }
  }

  /** diag_ring_serialize: the kept snapshots as a file, or nothing when the buffer is too small. */
  method Serialize(ring: Capture, buf: array<bv8>, bufsz: nat, version: Option<Bytes>, serialNr: bv32)
      returns (written: nat)
    requires ring.Valid() && ring.buffer as object != buf && bufsz <= buf.Length
    modifies buf
    ensures ring.Valid()
    ensures var total := HEADER_SIZE + SNAPSHOT_SIZE * ring.count + CRC_SIZE;
            written == if bufsz < total then 0 else total
    ensures written > 0 ==>
              buf[..written] == FileBytes(HeaderOf(ring, version, serialNr), Kept(ring.history, ring.buffer.Length))
    ensures forall k :: written <= k < buf.Length ==> buf[k] == old(buf[k])
  {
    hide EncodeHeader, EncodeSnapshot, EncodeAll, Crc, Kept, Byte;
    var snapSz := ring.count * SNAPSHOT_SIZE;
    var total := HEADER_SIZE + snapSz + CRC_SIZE;
    if bufsz < total {
      return 0;
    }
    var header := HeaderOf(ring, version, serialNr);
    ghost var s := Kept(ring.history, ring.buffer.Length);
    Copy(buf, 0, EncodeHeader(header));
    assert buf[..HEADER_SIZE] == EncodeHeader(header);
    WriteSnapshots(ring, buf);
    assert buf[..HEADER_SIZE + snapSz] == Payload(header, s);
    var crc := ComputeCrc(buf, HEADER_SIZE + snapSz);
    assert crc == Crc(Payload(header, s));
    Copy(buf, HEADER_SIZE + snapSz, Bytes32(crc));
    assert buf[..total] == FileBytes(header, s);
    assert header == HeaderOf(ring, version, serialNr) && s == Kept(ring.history, ring.buffer.Length);
    return total;
  }

  /** The snapshots in chronological order, from behind the header. */
  method WriteSnapshots(ring: Capture, buf: array<bv8>)
    requires ring.Valid() && ring.buffer as object != buf
    requires HEADER_SIZE + SNAPSHOT_SIZE * ring.count <= buf.Length
    modifies buf
    ensures ring.Valid()
    ensures buf[..HEADER_SIZE + SNAPSHOT_SIZE * ring.count]
         == old(buf[..HEADER_SIZE]) + EncodeAll(Kept(ring.history, ring.buffer.Length))
    ensures forall k :: HEADER_SIZE + SNAPSHOT_SIZE * ring.count <= k < buf.Length ==> buf[k] == old(buf[k])
  {
    hide EncodeSnapshot, Kept, Wrap, Ring.Slot;
    ghost var s := Kept(ring.history, ring.buffer.Length);
    for i := 0 to ring.count
      invariant buf[..HEADER_SIZE + SNAPSHOT_SIZE * i] == old(buf[..HEADER_SIZE]) + EncodeAll(s[..i])
      invariant forall k :: HEADER_SIZE + SNAPSHOT_SIZE * i <= k < buf.Length ==> buf[k] == old(buf[k])
    {
      assert s[..i + 1][..i] == s[..i];
      Copy(buf, HEADER_SIZE + SNAPSHOT_SIZE * i, EncodeSnapshot(ring.buffer[ring.Slot(i)]));
    }
    assert s[..ring.count] == s;
  }

  /** The profiles in the order of their numbers in the file. */
  const PROFILES := [Off, General, Reserved, LoadBalancing, Modbus, Fast]

  lemma ProfileNumber(p: Profile)
    ensures NatOf(ProfileByte(p)) < |PROFILES| && PROFILES[NatOf(ProfileByte(p))] == p
  {
  }

  /** Version 1, the ring's profile by its number, 58 bytes a snapshot, serial number and start time, and
      the firmware's name or its first 15 characters. */
  ghost predicate Describes(h: Header, ring: Capture, version: Option<Bytes>, serialNr: bv32)
    reads ring
  {
    && h.version == 1 && h.snapshotSize == 58 && h.count == ring.count
    && NatOf(h.profile) < |PROFILES| && PROFILES[NatOf(h.profile)] == ring.profile
    && h.serialNr == serialNr && h.startUptime == ring.startTime
    && (version.None? ==> Text(h.firmware) == [])
    && (version.Some? && 0 !in version.value ==>
          Text(h.firmware) == version.value[..if |version.value| > 15 then 15 else |version.value|])
  }

  lemma HeaderDescribes(ring: Capture, version: Option<Bytes>, serialNr: bv32)
    ensures Describes(HeaderOf(ring, version, serialNr), ring, version, serialNr)
  {
    ProfileNumber(ring.profile);
    if version.None? || 0 !in version.value {
      FirmwareText(if version.Some? then version.value else []);
    }
    hide NatOf, ProfileByte, FirmwareField, Text;
  }

  /** What a reader finds in the file that Serialize writes: a header that describes the ring, and the last
      pushes, oldest first; the checksum over the whole file is the residue. */
  lemma {:induction false} WrittenFileParses(ring: Capture, version: Option<Bytes>, serialNr: bv32)
    requires ring.Valid()
    ensures var h, s := HeaderOf(ring, version, serialNr), Kept(ring.history, ring.buffer.Length);
            && Parse(FileBytes(h, s)) == File(h, s) && Crc(FileBytes(h, s)) == 0x2144_DF1C
            && Describes(h, ring, version, serialNr)
  {
    var h, s := HeaderOf(ring, version, serialNr), Kept(ring.history, ring.buffer.Length);
    HeaderDescribes(ring, version, serialNr);
    hide FileBytes, Parse, Crc, Describes, FirmwareField;
    FileRoundTrip(h, s);
    FileResidue(h, s);
  }
}
