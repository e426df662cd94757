/** The 1-Wire ROM search: a walk over the binary trie of the addresses on the bus that
    remembers, between passes, nothing but the previous address and one bit position. */
module RomSearch {
  import opened CArithmetic

  const ROM_BITS := 64

  /** A 64-bit device address as its bits, least significant bit first: the order in which
      the bus transmits them.  `addr |= 1 << i` is `addr[i := true]`. */
  type Rom = bits: seq<bool> | |bits| == ROM_BITS witness seq(ROM_BITS, _ => false)

  function Zero(): (z: Rom)
    ensures forall k :: 0 <= k < ROM_BITS ==> !z[k]
  {
    seq(ROM_BITS, _ => false)
  }

  /** Lexicographic order on the transmitted bits. */
  ghost predicate Less(a: Rom, b: Rom) {
    exists k :: DiffersAt(a, b, k)
  }

  ghost predicate DiffersAt(a: Rom, b: Rom, k: int) {
    0 <= k < ROM_BITS && a[..k] == b[..k] && !a[k] && b[k]
  }

  lemma {:induction false} FirstDifference(a: Rom, b: Rom, n: nat) returns (k: nat)
    requires n <= ROM_BITS && a[..n] == b[..n] && a != b
    ensures n <= k < ROM_BITS && a[..k] == b[..k] && a[k] != b[k]
    decreases ROM_BITS - n
  {
    if n == ROM_BITS {
      assert false;
    } else if a[n] != b[n] {
      k := n;
    } else {
      assert a[..n + 1] == a[..n] + [a[n]];
      assert b[..n + 1] == b[..n] + [b[n]];
      k := FirstDifference(a, b, n + 1);
    }
  }

  lemma {:induction false} LessTotal(a: Rom, b: Rom)
    ensures a == b || Less(a, b) || Less(b, a)
  {
    if a != b {
      var k := FirstDifference(a, b, 0);
      assert DiffersAt(a, b, k) || DiffersAt(b, a, k);
    }
  }

  lemma PrefixOfPrefix(a: Rom, b: Rom, j: nat, k: nat)
    requires j <= k <= ROM_BITS && a[..k] == b[..k]
    ensures a[..j] == b[..j] && (j < k ==> a[j] == b[j])
  {
  }

  lemma {:induction false} LessTransitive(a: Rom, b: Rom, c: Rom)
    requires Less(a, b) && Less(b, c)
    ensures Less(a, c)
  {
    var j :| DiffersAt(a, b, j);
    var k :| DiffersAt(b, c, k);
    var m := if j < k then j else k;
    PrefixOfPrefix(a, b, m, j);
    PrefixOfPrefix(b, c, m, k);
    assert DiffersAt(a, c, m);
  }

  lemma {:induction false} LessAsymmetric(a: Rom, b: Rom)
    requires Less(a, b)
    ensures a != b && !Less(b, a)
  {
    if Less(b, a) {
      LessTransitive(a, b, a);
    }
  }

  // ------------------------------------------------------------------ the bus

  /** The devices whose first k bits are those of a. */
  ghost function Matching(devices: set<Rom>, a: Rom, k: nat): set<Rom>
    requires k <= ROM_BITS
  {
    set d | d in devices && d[..k] == a[..k]
  }

  /** A wired-AND bus.  During a search each listening device sends its current bit, then the
      complement, and drops out when the master's answer is not its own bit. */
  class Bus {
    const devices: set<Rom>
    var listening: set<Rom>
    var position: nat
    var complement: bool
    ghost var faulted: bool      // some reset or read has failed

    constructor (devices: set<Rom>)
      ensures this.devices == devices && !faulted
    {
      this.devices := devices;
      listening := {};
      position := 0;
      complement := false;
      faulted := false;
    }

    /** Presence detection; the transceiver may fail. */
    method Reset() returns (ok: bool)
      modifies this
      ensures ok ==> devices != {}
      ensures !ok && devices != {} ==> faulted
      ensures old(faulted) ==> faulted
      ensures ok ==> faulted == old(faulted)
    {
      ok := devices != {};
      if * {
        ok := false;
        faulted := true;
      }
    }

    /** The SEARCH ROM command (0xF0) addresses every device. */
    method StartSearch()
      modifies this
      ensures listening == devices && position == 0 && !complement && faulted == old(faulted)
    {
      listening, position, complement := devices, 0, false;
    }

    /** Reads one bit: low if any listening device pulls the line low, high if none does. */
    method ReadBit() returns (ok: bool, bit: bool)
      requires position < ROM_BITS
      modifies this
      ensures listening == old(listening) && position == old(position)
      ensures complement == !old(complement)
      ensures ok ==> faulted == old(faulted)
      ensures !ok ==> faulted
      ensures ok ==> bit == forall d :: d in listening ==> d[position] != old(complement)
    {
      ok := true;
      bit := forall d :: d in listening ==> d[position] != complement;
      complement := !complement;
      if * {
        ok := false;
        faulted := true;
      }
    }

    /** The master's choice: devices with the other bit stop listening. */
    method WriteBit(bit: bool)
      requires position < ROM_BITS
      modifies this
      ensures listening == set d | d in old(listening) && d[old(position)] == bit
      ensures position == old(position) + 1 && complement == old(complement) && faulted == old(faulted)
    {
      listening := set d | d in listening && d[position] == bit;
      position := position + 1;
    }
  }

  // ------------------------------------------------------------------ branch points

  /** At k the address a took 0 although some device sharing the path so far has a 1. */
  ghost predicate Branch(devices: set<Rom>, a: Rom, k: nat) {
    k < ROM_BITS && !a[k] && exists d :: d in devices && d[..k] == a[..k] && d[k]
  }

  /** At k the address a has a 1 only if no device sharing the path so far has a 0. */
  ghost predicate Forced(devices: set<Rom>, a: Rom, k: nat) {
    k < ROM_BITS && (a[k] ==> forall d :: d in devices && d[..k] == a[..k] ==> d[k])
  }

  /** No branch point of a lies in [from, to). */
  ghost predicate NoBranch(devices: set<Rom>, a: Rom, from: nat, to: nat) {
    forall k: nat :: from <= k < to ==> !Branch(devices, a, k)
  }

  /** `last` is the deepest branch point of a below `to`. */
  ghost predicate Deepest(devices: set<Rom>, a: Rom, last: int, to: nat) {
    0 <= last < to && Branch(devices, a, last) && NoBranch(devices, a, last + 1, to)
  }

  /** The bit choice of one pass follows the previous address up to its deepest branch point,
      turns there, and afterwards prefers 0. */
  ghost predicate Follows(devices: set<Rom>, prev: Rom, lastSrc: nat, a: Rom, to: nat)
    requires to <= ROM_BITS
  {
    && (forall k: nat :: k < to && k < lastSrc < ROM_BITS ==> a[k] == prev[k])
    && (lastSrc < to ==> a[lastSrc])
    && (forall k: nat :: k < to && (lastSrc < k || ROM_BITS <= lastSrc) ==> Forced(devices, a, k))
  }

  /** After the last branch point is spent the address is the greatest on the bus. */
  lemma {:induction false} NoBranchIsGreatest(devices: set<Rom>, a: Rom, d: Rom)
    requires d in devices && NoBranch(devices, a, 0, ROM_BITS)
    ensures !Less(a, d)
  {
    if Less(a, d) {
      var k :| DiffersAt(a, d, k);
      assert Branch(devices, a, k);
      assert false;
    }
  }

  /** The first pass finds the least address. */
  lemma {:induction false} FirstIsLeast(devices: set<Rom>, prev: Rom, a: Rom, d: Rom)
    requires d in devices && Follows(devices, prev, 255, a, ROM_BITS)
    ensures d == a || Less(a, d)
  {
    if d != a {
      var k := FirstDifference(a, d, 0);
      assert Forced(devices, a, k);
      assert DiffersAt(a, d, k);
    }
  }

  /** A later pass finds the successor: above the previous address, with nothing between. */
  lemma {:induction false} NextIsSuccessor(devices: set<Rom>, prev: Rom, last: nat, a: Rom, d: Rom)
    requires Deepest(devices, prev, last, ROM_BITS)
    requires Follows(devices, prev, last, a, ROM_BITS)
    requires d in devices
    ensures Less(prev, a)
    ensures Less(prev, d) ==> d == a || Less(a, d)
  {
    assert a[..last] == prev[..last];
    assert DiffersAt(prev, a, last);
    if Less(prev, d) && d != a {
      var j :| DiffersAt(prev, d, j);
      assert Branch(devices, prev, j);
      assert j <= last;
      if j < last {
        PrefixOfPrefix(a, prev, j, last);
        assert DiffersAt(a, d, j);
      } else {
        assert a[..last + 1] == prev[..last] + [true] == d[..last + 1];
        var k := FirstDifference(a, d, last + 1);
        assert Forced(devices, a, k);
        assert DiffersAt(a, d, k);
      }
    }
  }

  /** Extending the path by one bit: facts about earlier positions do not change. */
  lemma {:induction false} PathExtends(devices: set<Rom>, a: Rom, b: Rom, i: nat)
    requires i < ROM_BITS && a[..i] == b[..i]
    ensures forall k: nat :: k < i ==> Branch(devices, a, k) == Branch(devices, b, k)
    ensures forall k: nat :: k < i ==> Forced(devices, a, k) == Forced(devices, b, k)
    ensures Matching(devices, a, i) == Matching(devices, b, i)
  {
  }

  lemma {:induction false} MatchingStep(devices: set<Rom>, a: Rom, i: nat)
    requires i < ROM_BITS
    ensures Matching(devices, a, i + 1) == set d | d in Matching(devices, a, i) && d[i] == a[i]
  {
  }

  /** The specification of one pass over the 64 bits. */
  ghost predicate PassFound(devices: set<Rom>, prev: Rom, lastSrc: nat, a: Rom, more: bool, last: int) {
    && a in devices
    && Follows(devices, prev, lastSrc, a, ROM_BITS)
    && (more ==> Deepest(devices, a, last, ROM_BITS))
    && (!more ==> NoBranch(devices, a, 0, ROM_BITS))
  }

  /** One position of a pass: two reads and the answering write.  `branch` tells that devices
      disagreed and 0 was chosen. */
  method Triplet(bus: Bus, addrBit: bool, i: nat, lastSrc: nat) returns (ok: bool, bit: bool, branch: bool)
    requires bus.position == i < ROM_BITS && !bus.complement
    requires bus.listening != {}
    modifies bus
    ensures !ok ==> bus.faulted
    ensures ok ==> bus.faulted == old(bus.faulted)
    ensures ok ==> bus.position == i + 1 && !bus.complement
    ensures ok ==> bus.listening == set d | d in old(bus.listening) && d[i] == bit
    ensures ok ==> Chosen(old(bus.listening), addrBit, i, lastSrc, bit, branch)
  {
    bit, branch := addrBit, false;
    var okA, bitA := bus.ReadBit();
    if !okA {
      return false, bit, branch;
    }
    var okB, bitB := bus.ReadBit();
    if !okB || (bitA && bitB) {
      ghost var d :| d in bus.listening;
      return false, bit, branch;
    }
    ok := true;
    if !bitA && !bitB {
      if i == lastSrc {
        bit := true;
      } else if !addrBit || i > lastSrc {
        bit, branch := false, true;
      }
    } else {
      bit := bitA;
    }
    bus.WriteBit(bit);
  }

  /** The choice at position i: the only bit on the bus, or at a disagreement the previous bit
      before lastSrc, 1 at lastSrc, 0 beyond it. */
  ghost predicate Chosen(listening: set<Rom>, addrBit: bool, i: nat, lastSrc: nat, bit: bool, branch: bool)
    requires i < ROM_BITS
  {
    var zero, one := exists d :: d in listening && !d[i], exists d :: d in listening && d[i];
    && (zero || one)
    && (zero && one ==> bit == (i == lastSrc || (addrBit && i <= lastSrc)))
    && (!zero || !one ==> bit == one)
    && (branch <==> zero && one && !bit)
  }

  /** One pass: walks the 64 bit positions from the previous address. */
  method Pass(bus: Bus, prev: Rom, lastDev: int) returns (ok: bool, addr: Rom, more: bool, last: int)
    requires bus.devices != {}
    requires -1 <= lastDev < ROM_BITS
    requires lastDev < 0 ==> prev == Zero()
    requires 0 <= lastDev ==> prev in bus.devices && Deepest(bus.devices, prev, lastDev, ROM_BITS)
    modifies bus
    ensures -1 <= last < ROM_BITS
    ensures ok ==> PassFound(bus.devices, prev, if lastDev < 0 then 255 else lastDev, addr, more, last)
    ensures ok ==> bus.faulted == old(bus.faulted)
    ensures !ok ==> bus.faulted
  {
    var lastSrc := if lastDev < 0 then 255 else lastDev;   // int8_t to uint8_t
    ghost var devices := bus.devices;
    addr, more, last, ok := prev, false, lastDev, true;
    bus.StartSearch();
    assert Matching(devices, addr, 0) == devices;
    var i := 0;
    while i < ROM_BITS
      invariant 0 <= i <= ROM_BITS
      invariant -1 <= last < ROM_BITS
      invariant bus.position == i && !bus.complement && bus.faulted == old(bus.faulted)
      invariant bus.listening == Matching(devices, addr, i) && bus.listening != {}
      invariant forall k: nat :: i <= k < ROM_BITS ==> addr[k] == prev[k]
      invariant Follows(devices, prev, lastSrc, addr, i)
      invariant if more then Deepest(devices, addr, last, i) else NoBranch(devices, addr, 0, i)
    {
      var bit, branch;
      ok, bit, branch := Triplet(bus, addr[i], i, lastSrc);
      if !ok {
        return;
      }
      BitChosen(devices, prev, lastSrc, addr, i, bit, branch, more, last);
      addr := addr[i := bit];
      if branch {
        more, last := true, i;
      }
      i := i + 1;
    }
    ghost var d :| d in Matching(devices, addr, ROM_BITS);
    assert d[..ROM_BITS] == d && addr[..ROM_BITS] == addr;
  }

  /** What the chosen bit does to the path invariants of `Pass`. */
  lemma {:induction false} BitChosen(devices: set<Rom>, prev: Rom, lastSrc: nat, before: Rom, i: nat,
                                     bit: bool, branch: bool, more: bool, last: int)
    requires i < ROM_BITS
    requires (lastSrc == 255 && prev == Zero())
          || (lastSrc < ROM_BITS && prev in devices && Deepest(devices, prev, lastSrc, ROM_BITS))
    requires Follows(devices, prev, lastSrc, before, i) && before[i] == prev[i]
    requires Chosen(Matching(devices, before, i), before[i], i, lastSrc, bit, branch)
    requires if more then Deepest(devices, before, last, i) else NoBranch(devices, before, 0, i)
    ensures Matching(devices, before[i := bit], i + 1) == set d | d in Matching(devices, before, i) && d[i] == bit
    ensures Matching(devices, before[i := bit], i + 1) != {}
    ensures Follows(devices, prev, lastSrc, before[i := bit], i + 1)
    ensures if branch then Deepest(devices, before[i := bit], i, i + 1)
            else if more then Deepest(devices, before[i := bit], last, i + 1)
            else NoBranch(devices, before[i := bit], 0, i + 1)
  {
    var addr := before[i := bit];
    assert addr[..i] == before[..i];
    PathExtends(devices, before, addr, i);
    MatchingStep(devices, addr, i);
    var rest := Matching(devices, before, i);
    var d :| d in rest && d[i] == bit;
    assert d in Matching(devices, addr, i + 1);
    if lastSrc < ROM_BITS && i <= lastSrc {
      assert addr[..i] == prev[..i];
      assert prev in rest;
      var turn :| turn in devices && turn[..lastSrc] == prev[..lastSrc] && turn[lastSrc];
      PrefixOfPrefix(turn, prev, i, lastSrc);
      assert turn in rest;
    }
    assert Branch(devices, addr, i) <==> branch;
  }

  // ------------------------------------------------------------------ the search

  /** `out` lists, in increasing order, the least min(total, n) of the n non-zero addresses. */
  ghost predicate Enumerates(devices: set<Rom>, out: seq<Rom>, total: nat) {
    && Increasing(out)
    && (forall i :: 0 <= i < |out| ==> out[i] in devices && out[i] != Zero())
    && (forall d, i :: d in devices && d != Zero() && d !in out && 0 <= i < |out| ==> Less(out[i], d))
    && |out| == Min(total, |devices - {Zero()}|)
  }

  ghost predicate Increasing(out: seq<Rom>) {
    forall i, j :: 0 <= i < j < |out| ==> Less(out[i], out[j])
  }

  /** With room for all of them, exactly the non-zero addresses are listed. */
  lemma {:induction false} EnumeratesAll(devices: set<Rom>, out: seq<Rom>, total: nat)
    requires Enumerates(devices, out, total) && |devices - {Zero()}| <= total
    ensures (set i | 0 <= i < |out| :: out[i]) == devices - {Zero()}
  {
    IncreasingIsDistinct(out);
    var listed := set i | 0 <= i < |out| :: out[i];
    DistinctSize(out);
    assert listed <= devices - {Zero()};
    var missing := (devices - {Zero()}) - listed;
    assert devices - {Zero()} == listed + missing;
    assert missing == {};
  }

  lemma {:induction false} IncreasingIsDistinct(out: seq<Rom>)
    requires Increasing(out)
    ensures forall i, j :: 0 <= i < j < |out| ==> out[i] != out[j]
  {
  }

  lemma {:induction false} DistinctSize(out: seq<Rom>)
    requires forall i, j :: 0 <= i < j < |out| ==> out[i] != out[j]
    ensures |set i | 0 <= i < |out| :: out[i]| == |out|
  {
    var all := set i | 0 <= i < |out| :: out[i];
    if |out| == 0 {
      assert all == {};
    } else {
      var n := |out| - 1;
      var front := set i | 0 <= i < n :: out[i];
      assert front == set i | 0 <= i < |out[..n]| :: out[..n][i];
      DistinctSize(out[..n]);
      assert all == front + {out[n]};
    }
  }

  /** The listing is determined by the devices: it cannot depend on the course of the search. */
  lemma {:induction false} EnumerationUnique(devices: set<Rom>, a: seq<Rom>, b: seq<Rom>, total: nat)
    requires Enumerates(devices, a, total) && Enumerates(devices, b, total)
    ensures a == b
  {
    forall i | 0 <= i < |a|
      ensures a[i] == b[i]
    {
      SameAt(devices, a, b, total, i);
    }
  }

  lemma {:induction false} SameAt(devices: set<Rom>, a: seq<Rom>, b: seq<Rom>, total: nat, i: nat)
    requires Enumerates(devices, a, total) && Enumerates(devices, b, total) && i < |a|
    ensures a[i] == b[i]
    decreases i
  {
    forall j | 0 <= j < i
      ensures a[j] == b[j]
    {
      SameAt(devices, a, b, total, j);
    }
    NotBefore(devices, a, b, total, i);
    NotBefore(devices, b, a, total, i);
    LessTotal(a[i], b[i]);
  }

  lemma {:induction false} NotBefore(devices: set<Rom>, a: seq<Rom>, b: seq<Rom>, total: nat, i: nat)
    requires Enumerates(devices, a, total) && Enumerates(devices, b, total) && i < |a|
    requires forall j :: 0 <= j < i ==> a[j] == b[j]
    ensures !Less(a[i], b[i])
  {
    hide Less, Zero;
    if a[i] in b {
      var j :| 0 <= j < |b| && b[j] == a[i];
      if j < i {
        LessAsymmetric(a[j], a[i]);
      }
    }
    if Less(a[i], b[i]) {
      LessAsymmetric(a[i], b[i]);
    }
  }

  /** Progress of the search: everything up to `addr` has been listed. */
  ghost predicate Listed(devices: set<Rom>, out: seq<Rom>, seen: set<Rom>) {
    && seen <= devices
    && (forall a, b :: a in seen && b in devices && b !in seen ==> Less(a, b))
    && Increasing(out)
    && (forall i :: 0 <= i < |out| ==> out[i] in seen && out[i] != Zero())
    && (forall d :: d in seen && d != Zero() ==> d in out)
    && |out| == |seen - {Zero()}|
  }

  lemma {:induction false} ListedStep(devices: set<Rom>, out: seq<Rom>, seen: set<Rom>, a: Rom)
    requires Listed(devices, out, seen)
    requires a in devices && a !in seen
    requires forall d :: d in devices && d !in seen ==> d == a || Less(a, d)
    ensures Listed(devices, if a == Zero() then out else out + [a], seen + {a})
  {
    hide Less, Zero, Increasing;
    ListedCount(out, seen, a);
    ListedOrder(devices, seen, a);
    if a != Zero() {
      IncreasingAppend(out, a);
      ListedMembers(out, seen, a);
    }
  }

  lemma ListedOrder(devices: set<Rom>, seen: set<Rom>, a: Rom)
    requires forall c, d :: c in seen && d in devices && d !in seen ==> Less(c, d)
    requires forall d :: d in devices && d !in seen ==> d == a || Less(a, d)
    ensures forall c, d :: c in seen + {a} && d in devices && d !in seen + {a} ==> Less(c, d)
  {
    hide Less;
  }

  lemma IncreasingAppend(out: seq<Rom>, a: Rom)
    requires Increasing(out) && forall i :: 0 <= i < |out| ==> Less(out[i], a)
    ensures Increasing(out + [a])
  {
    hide Less;
  }

  lemma ListedMembers(out: seq<Rom>, seen: set<Rom>, a: Rom)
    requires a != Zero()
    requires forall i :: 0 <= i < |out| ==> out[i] in seen && out[i] != Zero()
    requires forall d :: d in seen && d != Zero() ==> d in out
    ensures forall i :: 0 <= i < |out + [a]| ==> (out + [a])[i] in seen + {a} && (out + [a])[i] != Zero()
    ensures forall d :: d in seen + {a} && d != Zero() ==> d in out + [a]
  {
    hide Zero;
  }

  lemma ListedCount(out: seq<Rom>, seen: set<Rom>, a: Rom)
    requires a !in seen && |out| == |seen - {Zero()}|
    ensures |if a == Zero() then out else out + [a]| == |(seen + {a}) - {Zero()}|
  {
  }

  /** The state of the search between two passes. */
  ghost predicate Progress(devices: set<Rom>, out: seq<Rom>, seen: set<Rom>, addr: Rom, lastDev: int, more: bool) {
    && -1 <= lastDev < ROM_BITS
    && Listed(devices, out, seen)
    && (seen == {} ==> lastDev == -1 && addr == Zero() && more)
    && (seen != {} ==> addr in seen && forall d :: d in devices ==> (d in seen <==> !Less(addr, d)))
    && (seen != {} && more ==> 0 <= lastDev && Deepest(devices, addr, lastDev, ROM_BITS))
    && (!more ==> seen == devices)
  }

  lemma ProgressStart(devices: set<Rom>)
    ensures Progress(devices, [], {}, Zero(), -1, true)
  {
    assert {} - {Zero()} == {};
  }

  /** When nothing is left, or no room, what has been listed is the answer. */
  lemma {:induction false} ProgressEnd(devices: set<Rom>, out: seq<Rom>, seen: set<Rom>, addr: Rom, lastDev: int,
                                       more: bool, total: nat)
    requires Progress(devices, out, seen, addr, lastDev, more) && |out| <= total
    requires !more || |out| == total
    ensures Enumerates(devices, out, total)
  {
    assert seen - {Zero()} <= devices - {Zero()};
    SubsetSize(seen - {Zero()}, devices - {Zero()});
    forall d, i | d in devices && d != Zero() && d !in out && 0 <= i < |out|
      ensures Less(out[i], d)
    {
      assert d !in seen;
    }
  }

  lemma {:induction false} SubsetSize<T>(a: set<T>, b: set<T>)
    requires a <= b
    ensures |a| <= |b|
  {
    assert b == a + (b - a);
  }

  /** A pass finds the least of the addresses not yet seen. */
  lemma {:induction false} PassFindsLeast(devices: set<Rom>, out: seq<Rom>, seen: set<Rom>, prev: Rom, lastDev: int,
                                          addr: Rom, more: bool, last: int, d: Rom)
    requires Progress(devices, out, seen, prev, lastDev, true)
    requires PassFound(devices, prev, if lastDev < 0 then 255 else lastDev, addr, more, last)
    requires d in devices
    ensures addr !in seen
    ensures d !in seen ==> d == addr || Less(addr, d)
  {
    if seen == {} {
      FirstIsLeast(devices, prev, addr, d);
    } else {
      NextIsSuccessor(devices, prev, lastDev, addr, addr);
      NextIsSuccessor(devices, prev, lastDev, addr, d);
    }
  }

  /** Splitting a set at its next element in the order. */
  lemma {:induction false} SplitAt(devices: set<Rom>, seen: set<Rom>, addr: Rom, d: Rom)
    requires seen <= devices && addr in devices && addr !in seen && d in devices
    requires d !in seen ==> d == addr || Less(addr, d)
    requires d in seen ==> Less(d, addr)
    ensures d in seen + {addr} <==> !Less(addr, d)
  {
  }

  /** A pass lists one more address, the next one in the order. */
  lemma {:induction false} PassProgress(devices: set<Rom>, out: seq<Rom>, seen: set<Rom>, prev: Rom, lastDev: int,
                                        addr: Rom, more: bool, last: int)
    requires Progress(devices, out, seen, prev, lastDev, true)
    requires PassFound(devices, prev, if lastDev < 0 then 255 else lastDev, addr, more, last)
    requires -1 <= last < ROM_BITS
    ensures addr !in seen
    ensures Progress(devices, if addr == Zero() then out else out + [addr], seen + {addr}, addr, last, more)
  {
    forall d | d in devices
      ensures addr !in seen && (d !in seen ==> d == addr || Less(addr, d))
    {
      PassFindsLeast(devices, out, seen, prev, lastDev, addr, more, last, d);
    }
    ListedStep(devices, out, seen, addr);
    forall d | d in devices
      ensures d in seen + {addr} <==> !Less(addr, d)
      ensures !more ==> d in seen + {addr}
    {
      SplitAt(devices, seen, addr, d);
      if !more {
        NoBranchIsGreatest(devices, addr, d);
      }
    }
  }

  /** Reset and walk to the next address, which joins those already seen. */
  method Next(bus: Bus, prev: Rom, lastDev: int, ghost out: seq<Rom>, ghost seen: set<Rom>)
      returns (ok: bool, addr: Rom, more: bool, last: int)
    requires Progress(bus.devices, out, seen, prev, lastDev, true)
    modifies bus
    ensures !ok && bus.devices != {} ==> bus.faulted
    ensures ok ==> bus.faulted == old(bus.faulted)
    ensures ok ==> addr in bus.devices && addr !in seen
    ensures ok ==> Progress(bus.devices, if addr == Zero() then out else out + [addr], seen + {addr}, addr, last, more)
  {
    addr, more, last := prev, false, lastDev;
    ok := bus.Reset();
    if !ok {
      return;
    }
    ok, addr, more, last := Pass(bus, prev, lastDev);
    if ok {
      PassProgress(bus.devices, out, seen, prev, lastDev, addr, more, last);
    }
  }

  /** OneWire32::search.  Whatever the set of devices, a search without a transmission fault
      lists the non-zero addresses in order; with a fault it lists them or reports none. */
  method Search(bus: Bus, driver: bool, addresses: array<Rom>, total: nat) returns (found: nat)
    requires total <= 255 && total <= addresses.Length
    modifies bus, addresses
    ensures found <= total
    ensures driver && !bus.faulted ==> Enumerates(bus.devices, addresses[..found], total)
    ensures found != 0 ==> Enumerates(bus.devices, addresses[..found], total)
    ensures forall i :: total <= i < addresses.Length ==> addresses[i] == old(addresses[i])
  {
    hide Progress, Enumerates;
    var lastDev, more := -1, true;
    found := 0;
    if !driver {
      return;
    }
    var present := bus.Reset();      // the answer is not used
    var addr: Rom := Zero();
    ghost var seen: set<Rom>, out: seq<Rom> := {}, [];
    ProgressStart(bus.devices);
    while more && found < total
      invariant found <= total
      invariant addresses[..found] == out
      invariant Progress(bus.devices, out, seen, addr, lastDev, more)
      invariant forall i :: total <= i < addresses.Length ==> addresses[i] == old(addresses[i])
      decreases bus.devices - seen
    {
      var ok;
      ok, addr, more, lastDev := Next(bus, addr, lastDev, out, seen);
      if !ok {
        NothingFound(bus.devices, total);
        return 0;
      }
      seen := seen + {addr};
      if addr != Zero() {
        addresses[found] := addr;
        found := found + 1;
        out := out + [addr];
      }
    }
    ProgressEnd(bus.devices, out, seen, addr, lastDev, more, total);
  }

  lemma NothingFound(devices: set<Rom>, total: nat)
    ensures devices == {} ==> Enumerates(devices, [], total)
  {
  }
}
