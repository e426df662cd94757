/** The IPv6 responder: checksum over pseudo header and message, and the two frames built with it.
    The formats are those of RFC 8200 (IPv6), RFC 768 (UDP), RFC 4443 (ICMPv6) and RFC 4861
    (Neighbor Advertisement). */
module Ipv6Frames {
  import opened OnesComplement

  const NEXT_UDP: Byte := 0x11
  const NEXT_ICMPV6: Byte := 0x3a
  const SECC_PORT := 15118

  type Address = s: seq<Byte> | |s| == 16 witness seq(16, _ => 0)
  type Mac = s: seq<Byte> | |s| == 6 witness seq(6, _ => 0)

  function High(x: nat): Byte { x / 0x100 % 0x100 }

  function Low(x: nat): Byte { x % 0x100 }

  lemma WordOfHighLow(x: nat)
    requires x <= 0xffff
    ensures Word(High(x), Low(x)) == x && Word(0, 0) == 0
  {
  }

  // ------------------------------------------------------------------ formats

  /** The pseudo header of section 8.1 of RFC 8200. */
  ghost function PseudoHeader(source: Address, dest: Address, len: nat, next: Byte): (p: seq<Byte>)
    ensures |p| == 40
  {
    source + dest + [0, 0, High(len), Low(len), 0, 0, 0, next]
  }

  /** The upper-layer checksum of a message as RFC 8200 defines it. */
  ghost function UpperChecksum(source: Address, dest: Address, message: seq<Byte>, next: Byte): (c: nat)
    ensures c <= 0xffff
  {
    Checksum(WordSum(PseudoHeader(source, dest, |message|, next)) + WordSum(message))
  }

  ghost function IpPacket(source: Address, dest: Address, next: Byte, hopLimit: Byte, message: seq<Byte>): seq<Byte> {
    [0x60, 0, 0, 0, High(|message|), Low(|message|), next, hopLimit] + source + dest + message
  }

  ghost function EthernetFrame(dest: Mac, source: Mac, packet: seq<Byte>): seq<Byte> {
    dest + source + [0x86, 0xdd] + packet
  }

  ghost function UdpPacket(destPort: nat, payload: seq<Byte>, checksum: nat): (u: seq<Byte>)
    ensures |u| == 8 + |payload|
  {
    [High(SECC_PORT), Low(SECC_PORT), High(destPort), Low(destPort), High(|payload| + 8), Low(|payload| + 8),
     High(checksum), Low(checksum)] + payload
  }

  /** A Neighbor Advertisement, solicited and overriding, with the target link-layer option. */
  ghost function Advertisement(target: Address, mac: Mac, checksum: nat): (m: seq<Byte>)
    ensures |m| == 32
  {
    [0x88, 0, High(checksum), Low(checksum), 0x60, 0, 0, 0] + target + [2, 1] + mac
  }

  /** A receiver's test of a frame: an IPv6 packet of the announced length, whose upper-layer
      checksum, computed from the bytes that arrived, comes out as zero. */
  ghost predicate Accepts(frame: seq<Byte>) {
    && |frame| >= 54
    && Word(frame[12], frame[13]) == 0x86dd
    && frame[14] as int / 0x10 == 6
    && Word(frame[18], frame[19]) == |frame| - 54
    && UpperChecksum(frame[22..38], frame[38..54], frame[54..], frame[20]) == 0
    && (frame[20] == NEXT_UDP ==> |frame| >= 62 && Word(frame[58], frame[59]) == |frame| - 54)
  }

  // ------------------------------------------------------------------ the law

  /** A pseudo header never sums to zero. */
  lemma {:induction false} PseudoHeaderPositive(source: Address, dest: Address, len: nat, next: Byte)
    requires next != 0
    ensures WordSum(PseudoHeader(source, dest, len, next)) > 0
  {
  }

  /** What the pseudo header adds to the sum: the addresses, the length of the message and the next header. */
  lemma {:induction false} PseudoHeaderWords(source: Address, dest: Address, len: nat, next: Byte)
    requires len <= 0xffff
    ensures WordSum(PseudoHeader(source, dest, len, next)) == WordSum(source) + WordSum(dest) + len + next
  {
    var tail := LengthAndNext(len, next);
    PseudoHeaderParts(source, dest, len, next);
    hide PseudoHeader, WordSum, LengthAndNext;
    WordSumConcat(source + dest, tail);
    WordSumConcat(source, dest);
    TailSum(len, next);
  }

  /** The last eight bytes of a pseudo header. */
  ghost function LengthAndNext(len: nat, next: Byte): (t: seq<Byte>)
    ensures |t| == 8
  {
    [0, 0, High(len), Low(len), 0, 0, 0, next]
  }

  lemma PseudoHeaderParts(source: Address, dest: Address, len: nat, next: Byte)
    ensures PseudoHeader(source, dest, len, next) == source + dest + LengthAndNext(len, next)
  {
    hide High, Low;
  }

  lemma TailBytes(len: nat, next: Byte)
    ensures var t := LengthAndNext(len, next);
            && t[0] == t[1] == t[4] == t[5] == t[6] == 0 && t[2] == High(len) && t[3] == Low(len) && t[7] == next
  {
    hide High, Low;
  }

  lemma TailValues(t: seq<Byte>, len: nat, next: Byte)
    requires |t| == 8 && len <= 0xffff
    requires t[0] == t[1] == t[4] == t[5] == t[6] == 0 && t[2] == High(len) && t[3] == Low(len) && t[7] == next
    ensures Word(t[0], t[1]) == Word(t[4], t[5]) == 0 && Word(t[2], t[3]) == len && Word(t[6], t[7]) == next
  {
    WordOfHighLow(len);
    hide High, Low;
  }

  lemma TailSum(len: nat, next: Byte)
    requires len <= 0xffff
    ensures WordSum(LengthAndNext(len, next)) == len + next
  {
    var t := LengthAndNext(len, next);
    TailBytes(len, next);
    hide WordSum, LengthAndNext, Word;
    TailValues(t, len, next);
    TailWords(t);
    hide High, Low;
  }

  lemma {:induction false} TailWords(t: seq<Byte>)
    requires |t| == 8
    ensures WordSum(t) == Word(t[0], t[1]) + Word(t[2], t[3]) + Word(t[4], t[5]) + Word(t[6], t[7])
  {
    hide Word;
    assert t[..6][..4] == t[..4] && t[..4][..2] == t[..2] && t[..2][..0] == [];
    assert WordSum(t[..2]) == Word(t[0], t[1]);
    assert WordSum(t[..4]) == WordSum(t[..2]) + Word(t[2], t[3]);
    assert WordSum(t[..6]) == WordSum(t[..4]) + Word(t[4], t[5]);
  }

  /** Writing the checksum into a message's zero checksum word makes the recomputed checksum zero. */
  lemma {:induction false} ChecksumVerifies(source: Address, dest: Address, message: seq<Byte>, next: Byte, at: nat)
    requires next != 0
    requires at % 2 == 0 && at + 1 < |message| && message[at] == message[at + 1] == 0
    ensures var c := UpperChecksum(source, dest, message, next);
            UpperChecksum(source, dest, SetWord(message, at, High(c), Low(c)), next) == 0
  {
    hide WordSum, SetWord, PseudoHeader, Fold, Word, High, Low, Checksum;
    var c := UpperChecksum(source, dest, message, next);
    PseudoHeaderPositive(source, dest, |message|, next);
    WordSumReplace(message, at, High(c), Low(c));
    WordOfHighLow(c);
    ChecksumCancels(WordSum(PseudoHeader(source, dest, |message|, next)) + WordSum(message));
  }

  /** What the checksum detects: a valid message stays valid after a change of one aligned word
      exactly when the new word equals the old one modulo 65535. */
  lemma {:induction false} OneWordChange(source: Address, dest: Address, message: seq<Byte>, next: Byte,
                                         at: nat, hi: Byte, lo: Byte)
    requires next != 0
    requires at % 2 == 0 && at + 1 < |message|
    requires UpperChecksum(source, dest, message, next) == 0
    ensures UpperChecksum(source, dest, SetWord(message, at, hi, lo), next) == 0
        <==> (Word(hi, lo) - Word(message[at], message[at + 1])) % 0xffff == 0
  {
    var p := WordSum(PseudoHeader(source, dest, |message|, next));
    PseudoHeaderPositive(source, dest, |message|, next);
    WordSumReplace(message, at, hi, lo);
    var a, b := p + WordSum(message), p + WordSum(SetWord(message, at, hi, lo));
    assert Fold(a) == 0xffff;
    FoldCongruent(b, a);
    assert b - a == Word(hi, lo) - Word(message[at], message[at + 1]);
  }

  /** The field that is sent is 0 exactly when the words of the message, the checksum word being
      zero, add up to a multiple of 65535.  Section 8.1 of RFC 8200 wants 0xffff sent in its
      place for UDP; the program sends 0. */
  lemma {:induction false} ZeroFieldSent(source: Address, dest: Address, message: seq<Byte>, next: Byte)
    requires next != 0
    ensures UpperChecksum(source, dest, message, next) == 0
        <==> (WordSum(PseudoHeader(source, dest, |message|, next)) + WordSum(message)) % 0xffff == 0
  {
  }

  /** For all addresses and every payload there is a destination port whose datagram is sent with a
      checksum field of 0. */
  lemma {:induction false} SomePortSendsZero(source: Address, dest: Address, payload: seq<Byte>) returns (port: nat)
    ensures port <= 0xffff && UpperChecksum(source, dest, UdpPacket(port, payload, 0), NEXT_UDP) == 0
  {
    hide WordSum, PseudoHeader, Word, High, Low, UdpPacket, UpperChecksum;
    var message := UdpPacket(0, payload, 0);
    var t := WordSum(PseudoHeader(source, dest, |message|, NEXT_UDP)) + WordSum(message);
    port := Complement(t);
    PortSum(port, payload);
    ZeroFieldSent(source, dest, UdpPacket(port, payload, 0), NEXT_UDP);
  }

  function Complement(t: nat): (c: nat)
    ensures c <= 0xffff && (t + c) % 0xffff == 0
  {
    0xffff - t % 0xffff
  }

  /** The port adds itself to the sum. */
  lemma {:induction false} PortSum(port: nat, payload: seq<Byte>)
    requires port <= 0xffff
    ensures |UdpPacket(port, payload, 0)| == |UdpPacket(0, payload, 0)| == |payload| + 8
    ensures WordSum(UdpPacket(port, payload, 0)) == WordSum(UdpPacket(0, payload, 0)) + port
  {
    hide WordSum, Word, High, Low, UdpPacket, SetWord;
    PortWord(port, payload);
    WordSumReplace(UdpPacket(0, payload, 0), 2, High(port), Low(port));
    WordOfHighLow(port);
  }

  lemma PortWord(port: nat, payload: seq<Byte>)
    requires port <= 0xffff
    ensures UdpPacket(port, payload, 0) == SetWord(UdpPacket(0, payload, 0), 2, High(port), Low(port))
    ensures |UdpPacket(port, payload, 0)| == |UdpPacket(0, payload, 0)| == |payload| + 8
    ensures Word(UdpPacket(0, payload, 0)[2], UdpPacket(0, payload, 0)[3]) == 0
  {
  }

  /** The datagram with its checksum, and the frame that carries it. */
  ghost function UdpFrame(destMac: Mac, sourceMac: Mac, source: Address, dest: Address, destPort: nat,
                          payload: seq<Byte>): seq<Byte>
  {
    var c := UpperChecksum(source, dest, UdpPacket(destPort, payload, 0), NEXT_UDP);
    EthernetFrame(destMac, sourceMac, IpPacket(source, dest, NEXT_UDP, 0x0A, UdpPacket(destPort, payload, c)))
  }

  ghost function AdvertisementFrame(destMac: Mac, sourceMac: Mac, source: Address, dest: Address): seq<Byte> {
    var c := UpperChecksum(source, dest, Advertisement(source, sourceMac, 0), NEXT_ICMPV6);
    EthernetFrame(destMac, sourceMac, IpPacket(source, dest, NEXT_ICMPV6, 0xff, Advertisement(source, sourceMac, c)))
  }

  /** Both frames pass the receiver's test, and a receiver finds the payload behind the headers. */
  lemma {:induction false} UdpFrameAccepted(destMac: Mac, sourceMac: Mac, source: Address, dest: Address,
                                            destPort: nat, payload: seq<Byte>)
    requires |payload| <= 0xfff0
    ensures var f := UdpFrame(destMac, sourceMac, source, dest, destPort, payload);
            Accepts(f) && |f| == 62 + |payload| && f[62..] == payload
  {
    hide UpperChecksum, EthernetFrame, IpPacket, Word, High, Low, UdpPacket, SetWord, Accepts;
    var zeroed := UdpPacket(destPort, payload, 0);
    var c := UpperChecksum(source, dest, zeroed, NEXT_UDP);
    var message := UdpPacket(destPort, payload, c);
    UdpSealed(destPort, payload, c);
    ChecksumVerifies(source, dest, zeroed, NEXT_UDP, 6);
    FrameLayout(destMac, sourceMac, source, dest, NEXT_UDP, 0x0A, message);
    WordOfHighLow(|message|);
    SealedAccepted(destMac, sourceMac, source, dest, NEXT_UDP, 0x0A, message);
    var f := UdpFrame(destMac, sourceMac, source, dest, destPort, payload);
    assert f[62..] == f[54..][8..];
  }

  lemma {:induction false} UdpSealed(destPort: nat, payload: seq<Byte>, c: nat)
    ensures UdpPacket(destPort, payload, 0)[6] == UdpPacket(destPort, payload, 0)[7] == 0
    ensures UdpPacket(destPort, payload, c) == SetWord(UdpPacket(destPort, payload, 0), 6, High(c), Low(c))
    ensures UdpPacket(destPort, payload, c)[4] == High(|payload| + 8)
    ensures UdpPacket(destPort, payload, c)[5] == Low(|payload| + 8)
    ensures UdpPacket(destPort, payload, c)[8..] == payload
  {
  }

  lemma {:induction false} AdvertisementAccepted(destMac: Mac, sourceMac: Mac, source: Address, dest: Address)
    ensures Accepts(AdvertisementFrame(destMac, sourceMac, source, dest))
  {
    var zeroed := Advertisement(source, sourceMac, 0);
    var c := UpperChecksum(source, dest, zeroed, NEXT_ICMPV6);
    var message := Advertisement(source, sourceMac, c);
    hide UpperChecksum, EthernetFrame, IpPacket, Word, High, Low, SetWord, Advertisement, Accepts;
    AdvertisementWord(source, sourceMac, c);
    ChecksumVerifies(source, dest, zeroed, NEXT_ICMPV6, 2);
    SealedAccepted(destMac, sourceMac, source, dest, NEXT_ICMPV6, 0xff, message);
  }

  /** A frame around a message whose checksum verifies is accepted. */
  lemma {:induction false} SealedAccepted(destMac: Mac, sourceMac: Mac, source: Address, dest: Address, next: Byte,
                                          hopLimit: Byte, message: seq<Byte>)
    requires |message| <= 0xffff && UpperChecksum(source, dest, message, next) == 0
    requires next == NEXT_UDP ==> 8 <= |message| == Word(message[4], message[5])
    ensures Accepts(EthernetFrame(destMac, sourceMac, IpPacket(source, dest, next, hopLimit, message)))
  {
    hide UpperChecksum, EthernetFrame, IpPacket, Word;
    FrameLayout(destMac, sourceMac, source, dest, next, hopLimit, message);
    var f := EthernetFrame(destMac, sourceMac, IpPacket(source, dest, next, hopLimit, message));
    if next == NEXT_UDP {
      assert f[54..][4] == f[58] && f[54..][5] == f[59];
    }
  }

  lemma {:induction false} AdvertisementWord(target: Address, mac: Mac, c: nat)
    ensures Advertisement(target, mac, 0)[2] == Advertisement(target, mac, 0)[3] == 0
    ensures Advertisement(target, mac, c) == SetWord(Advertisement(target, mac, 0), 2, High(c), Low(c))
  {
  }

  /** Where a receiver finds the parts of a frame. */
  lemma {:induction false} FrameLayout(destMac: Mac, sourceMac: Mac, source: Address, dest: Address, next: Byte,
                                       hopLimit: Byte, message: seq<Byte>)
    requires |message| <= 0xffff
    ensures var f := EthernetFrame(destMac, sourceMac, IpPacket(source, dest, next, hopLimit, message));
            && |f| == 54 + |message| && Word(f[12], f[13]) == 0x86dd && f[14] == 0x60
            && Word(f[18], f[19]) == |message| && f[20] == next
            && f[22..38] == source && f[38..54] == dest && f[54..] == message
  {
    hide High, Low, FrameHeader, EthernetFrame, IpPacket, Word;
    WordOfHighLow(|message|);
    var h := FrameHeader(destMac, sourceMac, |message|, next, hopLimit);
    LayersFlat(destMac, sourceMac, source, dest, next, hopLimit, message);
    Parts(h, source, dest, message);
    HeaderBytes(destMac, sourceMac, |message|, next, hopLimit);
  }

  lemma {:induction false} HeaderBytes(destMac: Mac, sourceMac: Mac, len: nat, next: Byte, hopLimit: Byte)
    ensures var h := FrameHeader(destMac, sourceMac, len, next, hopLimit);
            && Word(h[12], h[13]) == 0x86dd && h[14] == 0x60
            && h[18] == High(len) && h[19] == Low(len) && h[20] == next
  {
  }

  /** The bytes before the addresses. */
  ghost function FrameHeader(destMac: Mac, sourceMac: Mac, len: nat, next: Byte, hopLimit: Byte): (h: seq<Byte>)
    ensures |h| == 22
  {
    destMac + sourceMac + [0x86, 0xdd, 0x60, 0, 0, 0, High(len), Low(len), next, hopLimit]
  }

  lemma {:induction false} LayersFlat(destMac: Mac, sourceMac: Mac, source: Address, dest: Address, next: Byte,
                                      hopLimit: Byte, message: seq<Byte>)
    ensures EthernetFrame(destMac, sourceMac, IpPacket(source, dest, next, hopLimit, message))
         == FrameHeader(destMac, sourceMac, |message|, next, hopLimit) + source + dest + message
  {
    var ip: seq<Byte> := [0x60, 0, 0, 0, High(|message|), Low(|message|), next, hopLimit];
    var macs := destMac + sourceMac;
    assert FrameHeader(destMac, sourceMac, |message|, next, hopLimit) == macs + [0x86, 0xdd] + ip;
    Associate(macs + [0x86, 0xdd], ip, source, dest, message);
  }

  lemma Associate(a: seq<Byte>, b: seq<Byte>, c: seq<Byte>, d: seq<Byte>, e: seq<Byte>)
    ensures a + (b + c + d + e) == a + b + c + d + e
  {
  }

  lemma Parts(h: seq<Byte>, a: seq<Byte>, b: seq<Byte>, m: seq<Byte>)
    ensures var f := h + a + b + m;
            && f[|h|..|h| + |a|] == a && f[|h| + |a|..|h| + |a| + |b|] == b && f[|h| + |a| + |b|..] == m
            && forall i :: 0 <= i < |h| ==> f[i] == h[i]
  {
  }

  lemma {:induction false} WordSumStep(s: seq<Byte>, i: nat)
    requires 2 * i + 2 <= |s|
    ensures WordSum(s[..2 * i + 2]) == WordSum(s[..2 * i]) + Word(s[2 * i], s[2 * i + 1])
  {
    assert s[..2 * i + 2][..2 * i] == s[..2 * i];
  }

  lemma FoldOfNothing()
    ensures Fold(0) == 0
  {
  }

  /** The padding byte is what the definition of the word sum supplies anyway. */
  lemma {:induction false} PaddedSum(s: seq<Byte>)
    requires |s| % 2 == 1
    ensures WordSum(s + [0]) == WordSum(s)
  {
    var k := |s| - 1;
    assert (s + [0])[..k] == s[..k];
    if k == 0 {
      assert s[..k] == [];
    }
  }

  // ------------------------------------------------------------------ the program

  class Responder {
    const pseudoHeader: array<Byte>
    const v2gFrame: array<Byte>
    const udpResponse: array<Byte>
    const ipResponse: array<Byte>
    const txBuffer: array<Byte>
    const rxBuffer: array<Byte>
    const myMac: Mac
    var seccIp: Address
    var evccIp: Address
    var evccPort: nat
    var v2gFrameLen: nat
    var udpResponseLen: nat
    var ipResponseLen: nat
    var sent: seq<seq<Byte>>     // the frames handed to the modem

    ghost predicate Valid()
      reads this
    {
      && pseudoHeader.Length == 40
      && v2gFrame.Length == udpResponse.Length == ipResponse.Length == 100
      && txBuffer.Length == rxBuffer.Length == 3164
      && pseudoHeader != v2gFrame && pseudoHeader != udpResponse && pseudoHeader != txBuffer && pseudoHeader != rxBuffer
      && udpResponse != v2gFrame && udpResponse != rxBuffer
      && ipResponse != udpResponse && ipResponse != v2gFrame && ipResponse != rxBuffer
      && txBuffer != ipResponse && txBuffer != rxBuffer
      && evccPort <= 0xffff
    }

    constructor (mac: Mac)
      ensures Valid() && myMac == mac && sent == []
    {
      myMac := mac;
      pseudoHeader := new Byte[40];
      v2gFrame := new Byte[100];
      udpResponse := new Byte[100];
      ipResponse := new Byte[100];
      txBuffer := new Byte[3164];
      rxBuffer := new Byte[3164];
      seccIp := LinkLocal(mac);
      evccIp := seq(16, _ => 0);
      evccPort, v2gFrameLen, udpResponseLen, ipResponseLen := 0, 0, 0, 0;
      sent := [];
    }

    /** memcpy from a value. */
    static method Copy(dst: array<Byte>, at: nat, src: seq<Byte>)
      requires at + |src| <= dst.Length
      modifies dst
      ensures dst[..at + |src|] == old(dst[..at]) + src
      ensures dst[at + |src|..] == old(dst[at + |src|..])
    {
      for i := 0 to |src|
        invariant dst[..at + i] == old(dst[..at]) + src[..i]
        invariant dst[at + i..] == old(dst[at + i..])
      {
        dst[at + i] := src[i];
      }
    }

    /** Stores the checksum in its field; nothing else changes. */
    static method StoreChecksum(dst: array<Byte>, at: nat, checksum: nat)
      requires at + 1 < dst.Length && checksum <= 0xffff
      modifies dst
      ensures forall n :: at + 2 <= n <= dst.Length
                ==> dst[..n] == SetWord(old(dst[..])[..n], at, High(checksum), Low(checksum))
    {
      dst[at] := High(checksum);
      dst[at + 1] := Low(checksum);
    }

    /** calculateUdpAndTcpChecksumForIPv6.  A frame of 65535 bytes would wrap the 16-bit even
        length, so it is not a frame this function can be given. */
    method CalculateChecksum(frame: array<Byte>, off: nat, len: nat, source: Address, dest: Address, next: Byte)
        returns (checksum: nat)
      requires Valid() && frame != pseudoHeader
      requires len <= 0xfffe && off + len + len % 2 <= frame.Length
      modifies frame, pseudoHeader
      ensures checksum == UpperChecksum(source, dest, frame[off..off + len], next)
      ensures frame[..] == if len % 2 == 0 then old(frame[..]) else old(frame[..])[off + len := 0]
    {
      hide WordSum, Fold, Word, PseudoHeader;
      var even := len;
      if even % 2 != 0 {
        even := even + 1;
        frame[off + even - 1] := 0;
      }
      FillPseudoHeader(source, dest, len, next);
      FoldOfNothing();
      var total := SumWords(pseudoHeader, 0, 20, 0, 0);
      assert pseudoHeader[0..40] == pseudoHeader[..];
      total := SumWords(frame, off, even / 2, total, WordSum(pseudoHeader[..]));
      if len % 2 != 0 {
        assert frame[off..off + even] == frame[off..off + len] + [0];
        PaddedSum(frame[off..off + len]);
      }
      checksum := 0xffff - total;      // totalSum ^ 0xffff
    }

    method FillPseudoHeader(source: Address, dest: Address, len: nat, next: Byte)
      requires Valid()
      modifies pseudoHeader
      ensures pseudoHeader[..] == PseudoHeader(source, dest, len, next)
    {
      Copy(pseudoHeader, 0, source);
      Copy(pseudoHeader, 16, dest);
      Copy(pseudoHeader, 32, [0, 0, High(len), Low(len), 0, 0, 0, next]);
      assert pseudoHeader[..] == pseudoHeader[..40];
    }

    /** The summing loop: each addition folds its carry back, so the running total stays within
        16 bits and is the fold of the plain sum. */
    static method SumWords(buffer: array<Byte>, off: nat, words: nat, start: nat, ghost sum: nat) returns (total: nat)
      requires off + 2 * words <= buffer.Length
      requires start == Fold(sum)
      ensures total == Fold(sum + WordSum(buffer[off..off + 2 * words])) <= 0xffff
    {
      hide Fold, Word;
      ghost var body := buffer[off..off + 2 * words];
      total := start;
      assert body[..0] == [];
      for i := 0 to words
        invariant total == Fold(sum + WordSum(body[..2 * i]))
      {
        FoldStep(sum + WordSum(body[..2 * i]), Word(body[2 * i], body[2 * i + 1]));
        WordSumStep(body, i);
        total := total + Word(buffer[off + 2 * i], buffer[off + 2 * i + 1]);
        if total >= 65536 {
          total := total - 65536;
          total := total + 1;
        }
      }
      assert body[..2 * words] == body;
    }

    /** packResponseIntoUdp, packResponseIntoIp and packResponseIntoEthernet: one frame is sent,
        and it is one that a receiver accepts. */
    method PackResponseIntoUdp()
      requires Valid() && v2gFrameLen <= 52      // three buffers of 100 bytes
      modifies this`udpResponseLen, this`ipResponseLen, this`sent, pseudoHeader, udpResponse, ipResponse, txBuffer
      ensures Valid()
      ensures sent == old(sent) + [UdpFrame(rxBuffer[6..12], myMac, seccIp, evccIp, evccPort, v2gFrame[..v2gFrameLen])]
    {
      hide UpperChecksum, EthernetFrame, IpPacket, UdpPacket, High, Low, SetWord;
      ghost var payload := v2gFrame[..v2gFrameLen];
      FillUdpResponse();
      assert udpResponse[0..udpResponseLen] == udpResponse[..udpResponseLen];
      var checksum := CalculateChecksum(udpResponse, 0, udpResponseLen, seccIp, evccIp, NEXT_UDP);
      assert udpResponse[0..udpResponseLen] == UdpPacket(evccPort, payload, 0);
      ghost var before := udpResponse[..];
      assert before[..udpResponseLen] == udpResponse[0..udpResponseLen];
      StoreChecksum(udpResponse, 6, checksum);
      UdpSealed(evccPort, payload, checksum);
      assert udpResponse[..udpResponseLen] == UdpPacket(evccPort, payload, checksum);
      PackResponseIntoIp();
      assert udpResponse[..udpResponseLen] == UdpPacket(evccPort, payload, checksum)
             && v2gFrame[..v2gFrameLen] == payload;
    }

    /** The datagram before its checksum is known. */
    method FillUdpResponse()
      requires Valid() && v2gFrameLen <= 52
      modifies this`udpResponseLen, udpResponse
      ensures Valid() && udpResponseLen == v2gFrameLen + 8
      ensures udpResponse[..udpResponseLen] == UdpPacket(evccPort, v2gFrame[..v2gFrameLen], 0)
    {
      udpResponseLen := v2gFrameLen + 8;
      Copy(udpResponse, 0, [High(SECC_PORT), Low(SECC_PORT), High(evccPort), Low(evccPort),
                            High(udpResponseLen), Low(udpResponseLen), 0, 0]);
      Copy(udpResponse, 8, v2gFrame[..v2gFrameLen]);
      assert udpResponse[..udpResponseLen] == UdpPacket(evccPort, v2gFrame[..v2gFrameLen], 0);
    }

    method PackResponseIntoIp()
      requires Valid() && udpResponseLen <= 60
      modifies this`ipResponseLen, this`sent, ipResponse, txBuffer
      ensures Valid()
      ensures sent == old(sent) + [EthernetFrame(rxBuffer[6..12], myMac,
                                                 IpPacket(seccIp, evccIp, NEXT_UDP, 0x0A,
                                                          udpResponse[..udpResponseLen]))]
    {
      ipResponseLen := udpResponseLen + 8 + 16 + 16;
      Copy(ipResponse, 0, [0x60, 0, 0, 0, High(udpResponseLen), Low(udpResponseLen), 0x11, 0x0A]);
      Copy(ipResponse, 8, seccIp);
      Copy(ipResponse, 24, evccIp);
      Copy(ipResponse, 40, udpResponse[..udpResponseLen]);
      assert ipResponse[..ipResponseLen] == IpPacket(seccIp, evccIp, NEXT_UDP, 0x0A, udpResponse[..udpResponseLen]);
      PackResponseIntoEthernet();
    }

    method PackResponseIntoEthernet()
      requires Valid() && ipResponseLen <= 100
      modifies this`sent, txBuffer
      ensures Valid()
      ensures sent == old(sent) + [EthernetFrame(rxBuffer[6..12], myMac, ipResponse[..ipResponseLen])]
    {
      Copy(txBuffer, 0, rxBuffer[6..12]);
      Copy(txBuffer, 6, myMac);
      Copy(txBuffer, 12, [0x86, 0xdd]);
      Copy(txBuffer, 14, ipResponse[..ipResponseLen]);
      assert txBuffer[..ipResponseLen + 14] == EthernetFrame(rxBuffer[6..12], myMac, ipResponse[..ipResponseLen]);
      sent := sent + [txBuffer[..ipResponseLen + 14]];
    }

    /** sendSdpResponse: the answer to a discovery request carries our address and port. */
    method SendSdpResponse()
      requires Valid()
      modifies this`v2gFrameLen, this`udpResponseLen, this`ipResponseLen, this`sent
      modifies pseudoHeader, v2gFrame, udpResponse, ipResponse, txBuffer
      ensures Valid()
      ensures sent == old(sent) + [UdpFrame(rxBuffer[6..12], myMac, seccIp, evccIp, evccPort, SdpResponse(seccIp))]
    {
      hide UdpFrame;
      Copy(v2gFrame, 0, [0x01, 0xfe, 0x90, 0x01, 0, 0, 0, 20]);
      Copy(v2gFrame, 8, seccIp + [High(SECC_PORT), Low(SECC_PORT), 0x10, 0x00]);
      v2gFrameLen := 28;
      assert v2gFrame[..v2gFrameLen] == SdpResponse(seccIp);
      PackResponseIntoUdp();
    }

    /** evaluateNeighborSolicitation: answers with a Neighbor Advertisement. */
    method EvaluateNeighborSolicitation()
      requires Valid()
      modifies this`sent, pseudoHeader, txBuffer
      ensures Valid()
      ensures sent == old(sent) + [AdvertisementFrame(rxBuffer[6..12], myMac, seccIp, rxBuffer[22..38])]
    {
      hide UpperChecksum, UnsealedAdvertisement, SetWord, High, Low, EthernetFrame, IpPacket, Advertisement;
      var neighborsIp: Address := rxBuffer[22..38];
      var neighborsMac: Mac := rxBuffer[6..12];
      FillAdvertisement(neighborsMac, neighborsIp);
      ghost var unsealed := txBuffer[..86];
      var checksum := CalculateChecksum(txBuffer, 54, 32, seccIp, neighborsIp, NEXT_ICMPV6);
      ghost var before := txBuffer[..];
      assert before[..86] == unsealed && before[54..86] == txBuffer[54..86] == Advertisement(seccIp, myMac, 0);
      StoreChecksum(txBuffer, 56, checksum);
      SealedAdvertisement(neighborsMac, myMac, seccIp, neighborsIp, checksum);
      sent := sent + [txBuffer[..86]];
      assert rxBuffer[6..12] == neighborsMac && rxBuffer[22..38] == neighborsIp;
    }

    /** Bytes 0 to 53 of the advertisement frame. */
    method FillAdvertisementHeaders(neighborsMac: Mac, neighborsIp: Address)
      requires Valid()
      modifies txBuffer
      ensures txBuffer[..54]
           == neighborsMac + myMac + [0x86, 0xdd, 0x60, 0, 0, 0, 0, 32, 0x3a, 0xff] + seccIp + neighborsIp
    {
      Copy(txBuffer, 0, neighborsMac);
      Copy(txBuffer, 6, myMac);
      Copy(txBuffer, 12, [0x86, 0xdd, 0x60, 0, 0, 0, 0, 32, 0x3a, 0xff]);
      Copy(txBuffer, 22, seccIp);
      Copy(txBuffer, 38, neighborsIp);
    }

    /** The frame before its checksum is known. */
    method FillAdvertisement(neighborsMac: Mac, neighborsIp: Address)
      requires Valid()
      modifies txBuffer
      ensures txBuffer[..86] == UnsealedAdvertisement(neighborsMac, myMac, seccIp, neighborsIp, 0)
      ensures txBuffer[54..86] == Advertisement(seccIp, myMac, 0)
    {
      FillAdvertisementHeaders(neighborsMac, neighborsIp);
      Copy(txBuffer, 54, [0x88, 0, 0, 0, 0x60, 0, 0, 0]);
      Copy(txBuffer, 62, seccIp);
      Copy(txBuffer, 78, [2, 1]);
      Copy(txBuffer, 80, myMac);
      assert txBuffer[54..86] == txBuffer[..86][54..];
    }
  }

  /** The 86 bytes of the advertisement frame, written out in order. */
  ghost function UnsealedAdvertisement(destMac: Mac, sourceMac: Mac, source: Address, dest: Address,
                                       checksum: nat): (f: seq<Byte>)
    ensures |f| == 86
  {
    destMac + sourceMac + [0x86, 0xdd, 0x60, 0, 0, 0, 0, 32, 0x3a, 0xff] + source + dest
    + [0x88, 0, High(checksum), Low(checksum), 0x60, 0, 0, 0] + source + [2, 1] + sourceMac
  }

  lemma {:induction false} SealedAdvertisement(destMac: Mac, sourceMac: Mac, source: Address, dest: Address,
                                               checksum: nat)
    ensures UnsealedAdvertisement(destMac, sourceMac, source, dest, checksum)
         == EthernetFrame(destMac, sourceMac,
                          IpPacket(source, dest, NEXT_ICMPV6, 0xff, Advertisement(source, sourceMac, checksum)))
    ensures SetWord(UnsealedAdvertisement(destMac, sourceMac, source, dest, 0), 56, High(checksum), Low(checksum))
         == UnsealedAdvertisement(destMac, sourceMac, source, dest, checksum)
  {
  }

  /** setSeccIp: the link-local address made of the MAC with 0xfffe in the middle and bit 1 of
      the first byte inverted. */
  function LinkLocal(mac: Mac): Address {
    [0xfe, 0x80, 0, 0, 0, 0, 0, 0,
     if mac[0] as int / 2 % 2 == 0 then mac[0] as int + 2 else mac[0] as int - 2,
     mac[1], mac[2], 0xff, 0xfe, mac[3], mac[4], mac[5]]
  }

  /** The SDP response: V2GTP header and 20 bytes of address, port, security and transport. */
  ghost function SdpResponse(secc: Address): seq<Byte> {
    [0x01, 0xfe, 0x90, 0x01, 0, 0, 0, 20] + secc + [High(SECC_PORT), Low(SECC_PORT), 0x10, 0x00]
  }

  // ------------------------------------------------------------------ what the receivers look for

  /** A car's test of a discovery response: protocol version 1 and its inverse, payload type 0x9001, a
      payload of 20 bytes, with the charger's address, its port, no transport security, TCP. */
  ghost predicate IsDiscoveryResponse(p: seq<Byte>, secc: Address, port: nat) {
    && |p| == 28 && p[0] == 1 && p[1] == 0xff - p[0]
    && Word(p[2], p[3]) == 0x9001 && p[4] == p[5] == 0 && Word(p[6], p[7]) == |p| - 8
    && p[8..24] == secc && Word(p[24], p[25]) == port && p[26] == 0x10 && p[27] == 0
  }

  lemma DiscoveryResponse(secc: Address)
    ensures IsDiscoveryResponse(SdpResponse(secc), secc, 15118)
  {
  }

  /** The frame that answers a discovery request reaches the car that asked, from our port, and carries
      the response. */
  lemma {:induction false} DiscoveryAnswered(destMac: Mac, sourceMac: Mac, source: Address, dest: Address, port: nat)
    requires port <= 0xffff
    ensures var f := UdpFrame(destMac, sourceMac, source, dest, port, SdpResponse(source));
            && Accepts(f) && |f| == 90 && f[..6] == destMac && f[6..12] == sourceMac
            && f[20] == 17 && f[22..38] == source && f[38..54] == dest
            && Word(f[54], f[55]) == 15118 && Word(f[56], f[57]) == port
            && IsDiscoveryResponse(f[62..], source, 15118)
  {
    var payload := SdpResponse(source);
    DiscoveryResponse(source);
    hide SdpResponse, IsDiscoveryResponse, Accepts, UpperChecksum;
    UdpFrameAccepted(destMac, sourceMac, source, dest, port, payload);
    var c := UpperChecksum(source, dest, UdpPacket(port, payload, 0), NEXT_UDP);
    var message := UdpPacket(port, payload, c);
    FrameLayout(destMac, sourceMac, source, dest, NEXT_UDP, 0x0A, message);
    MacsFirst(destMac, sourceMac, IpPacket(source, dest, NEXT_UDP, 0x0A, message));
    PortsFirst(port, payload, c);
    hide EthernetFrame, IpPacket, UdpPacket, Word;
    var f := UdpFrame(destMac, sourceMac, source, dest, port, payload);
    assert f[54..][0] == f[54] && f[54..][1] == f[55] && f[54..][2] == f[56] && f[54..][3] == f[57];
  }

  lemma MacsFirst(dest: Mac, source: Mac, packet: seq<Byte>)
    ensures EthernetFrame(dest, source, packet)[..6] == dest && EthernetFrame(dest, source, packet)[6..12] == source
  {
  }

  lemma PortsFirst(port: nat, payload: seq<Byte>, checksum: nat)
    requires port <= 0xffff
    ensures var u := UdpPacket(port, payload, checksum); Word(u[0], u[1]) == 15118 && Word(u[2], u[3]) == port
  {
    hide Word, High, Low;
    WordOfHighLow(SECC_PORT);
    WordOfHighLow(port);
  }

  /** A neighbour's test of an advertisement: ICMPv6 with hop limit 255, type 136, code 0, solicited and
      overriding but from no router, the target's address, and one option of 8 bytes with its MAC. */
  ghost predicate IsAdvertisement(f: seq<Byte>, target: Address, mac: Mac) {
    && |f| == 86 && f[20] == 58 && f[21] == 255
    && f[54] == 136 && f[55] == 0 && f[58] == 0x40 + 0x20 && f[59] == f[60] == f[61] == 0
    && f[62..78] == target && f[78] == 2 && f[79] as int * 8 == 86 - 78 && f[80..] == mac
  }

  lemma {:induction false} SolicitationAnswered(destMac: Mac, sourceMac: Mac, source: Address, dest: Address)
    ensures var f := AdvertisementFrame(destMac, sourceMac, source, dest);
            && Accepts(f) && f[..6] == destMac && f[6..12] == sourceMac && f[22..38] == source && f[38..54] == dest
            && IsAdvertisement(f, source, sourceMac)
  {
    var c := UpperChecksum(source, dest, Advertisement(source, sourceMac, 0), NEXT_ICMPV6);
    var m := Advertisement(source, sourceMac, c);
    AdvertisementAccepted(destMac, sourceMac, source, dest);
    hide Accepts, UpperChecksum;
    FrameLayout(destMac, sourceMac, source, dest, NEXT_ICMPV6, 0xff, m);
    MacsFirst(destMac, sourceMac, IpPacket(source, dest, NEXT_ICMPV6, 0xff, m));
    HopLimitAt(destMac, sourceMac, source, dest, NEXT_ICMPV6, 0xff, m);
    AdvertisementParts(source, sourceMac, c);
    hide EthernetFrame, IpPacket, Advertisement, Word;
    var f := AdvertisementFrame(destMac, sourceMac, source, dest);
    assert f[54..] == m;
    Behind(f, m);
  }

  lemma HopLimitAt(destMac: Mac, sourceMac: Mac, source: Address, dest: Address, next: Byte, hopLimit: Byte,
                   message: seq<Byte>)
    ensures EthernetFrame(destMac, sourceMac, IpPacket(source, dest, next, hopLimit, message))[21] == hopLimit
  {
  }

  lemma AdvertisementParts(target: Address, mac: Mac, c: nat)
    ensures var m := Advertisement(target, mac, c);
            && m[0] == 136 && m[1] == 0 && m[4] == 0x60 && m[5] == m[6] == m[7] == 0
            && m[8..24] == target && m[24] == 2 && m[25] == 1 && m[26..] == mac
  {
  }

  lemma Behind(f: seq<Byte>, m: seq<Byte>)
    requires |f| == 86 && f[54..] == m
    ensures forall k :: 54 <= k < 86 ==> f[k] == m[k - 54]
    ensures f[62..78] == m[8..24] && f[80..] == m[26..]
  {
  }
}
