/** The diagnostic ring buffer: a wrap-around index that keeps exactly the last pushes. */
module DiagRing {
  import opened CArithmetic

  datatype Profile = Off | General | Reserved | LoadBalancing | Modbus | Fast

  /** The last min(|h|, capacity) elements of h, oldest first. */
  function Kept<T>(h: seq<T>, capacity: nat): (k: seq<T>)
    ensures |k| == if |h| < capacity then |h| else capacity
  {
    if |h| <= capacity then h else h[|h| - capacity..]
  }

  /** The slot of the j-th push. */
  function Wrap(j: nat, n: nat): (w: nat)
    requires n > 0
    ensures w < n
  {
    j % n
  }

  /** Fewer than n pushes apart, two pushes have different slots. */
  lemma {:induction false} WrapDistinct(i: nat, j: nat, n: nat)
    requires i < j < i + n
    ensures Wrap(i, n) != Wrap(j, n)
  {
    var d := j / n - i / n;
    if i % n == j % n {
      assert i == i / n * n + i % n && j == j / n * n + j % n;
      assert j - i == d * n;
      MultiplyOrder(d, 0, n);
      MultiplyOrder(1, d, n);
    }
  }

  /** Slots can be advanced one after the other, and are reused after n pushes. */
  lemma {:induction false} WrapShift(i: nat, k: nat, n: nat)
    requires n > 0
    ensures Wrap(Wrap(i, n) + k, n) == Wrap(i + k, n)
    ensures Wrap(i + n, n) == Wrap(i, n)
    ensures i < n ==> Wrap(i, n) == i
  {
    var x := i % n + k;
    assert i == i / n * n + i % n && x == x / n * n + x % n;
    assert i + k == (x / n + i / n) * n + x % n;
    ModUnique(i + k, x / n + i / n, x % n, n);
    assert i + n == (i / n + 1) * n + i % n;
    ModUnique(i + n, i / n + 1, i % n, n);
    if i < n {
      ModUnique(i, 0, i, n);
    }
  }

  lemma {:induction false} SlotOfKept(pushes: nat, count: nat, n: nat, i: nat)
    requires n > 0 && count == (if pushes < n then pushes else n) && i < count
    ensures Wrap((if count < n then 0 else Wrap(pushes, n)) + i, n) == Wrap(pushes - count + i, n)
  {
    hide Wrap;
    if pushes >= n {
      WrapShift(pushes, i, n);
      WrapShift(pushes - n + i, 0, n);
    }
  }

  lemma {:induction false} ModUnique(x: nat, q: int, r: nat, n: nat)
    requires n > 0 && x == q * n + r && r < n
    ensures x % n == r
  {
    assert x == x / n * n + x % n;
    MultiplyOrder(x / n + 1, q, n);
    MultiplyOrder(q + 1, x / n, n);
  }

  class Ring<T> {
    const buffer: array<T>
    var head: nat
    var count: nat
    var profile: Profile
    var startTime: bv32
    var frozen: bool
    var sampleDivider: nat
    var tickCounter: nat
    ghost var history: seq<T>     // the accepted pushes since the last reset

    ghost predicate Valid()
      reads this, buffer
    {
      && 0 < buffer.Length <= 0xffff && sampleDivider == 1 && tickCounter == 0
      && head == Wrap(|history|, buffer.Length)
      && count == (if |history| < buffer.Length then |history| else buffer.Length)
      && forall j :: |history| - count <= j < |history| ==> buffer[Wrap(j, buffer.Length)] == history[j]
    }

    constructor (storage: array<T>)
      requires 0 < storage.Length <= 0xffff
      ensures Valid() && buffer == storage && history == [] && profile == Off && !frozen
    {
      buffer := storage;
      head, count, profile, startTime, frozen := 0, 0, Off, 0, false;
      sampleDivider, tickCounter := 1, 0;
      history := [];
    }

    method Reset()
      requires Valid()
      modifies this
      ensures Valid() && history == [] && profile == Off && !frozen
    {
      head, count, profile, startTime, frozen := 0, 0, Off, 0, false;
      sampleDivider, tickCounter := 1, 0;
      history := [];
    }

    /** diag_set_profile: every profile samples at every tick. */
    method SetProfile(p: Profile)
      requires Valid()
      modifies this`profile, this`sampleDivider, this`tickCounter
      ensures Valid() && profile == p
    {
      profile := p;
      tickCounter := 0;
      sampleDivider := 1;
    }

    /** diag_ring_freeze. */
    method Freeze(freeze: bool)
      requires Valid()
      modifies this`frozen
      ensures Valid() && frozen == freeze
    {
      frozen := freeze;
    }

    /** diag_ring_tick: a sample is due at every tick unless capture is off. */
    method Tick() returns (due: bool)
      requires Valid()
      modifies this`tickCounter
      ensures Valid() && due == (profile != Off)
    {
      if profile == Off {
        return false;
      }
      tickCounter := tickCounter + 1;
      if tickCounter >= sampleDivider {
        tickCounter := 0;
        return true;
      }
      return false;
    }

    /** diag_ring_push: a snapshot is accepted unless the ring is frozen or capture is off. */
    method Push(s: T)
      requires Valid()
      modifies this`head, this`count, this`history, buffer
      ensures Valid()
      ensures history == if old(frozen) || old(profile) == Off then old(history) else old(history) + [s]
    {
      if frozen || profile == Off {
        return;
      }
      hide Wrap, Kept;
      ghost var h, n := history, buffer.Length;
      buffer[head] := s;
      head := Wrap(head + 1, buffer.Length);
      WrapShift(|h|, 1, n);
      if count < buffer.Length {
        count := count + 1;
      }
      history := history + [s];
      forall j | |history| - count <= j < |history|
        ensures buffer[Wrap(j, n)] == history[j]
      {
        if j < |h| {
          WrapDistinct(j, |h|, n);
        }
      }
    }

    /** The slot of the i-th oldest entry: before the first wrap they start at 0, afterwards at
        the next write position. */
    function Slot(i: nat): (idx: nat)
      requires Valid() && i < count
      reads this, buffer
      ensures idx < buffer.Length && buffer[idx] == Kept(history, buffer.Length)[i]
    {
      hide Wrap;
      var start := if count < buffer.Length then 0 else head;
      SlotOfKept(|history|, count, buffer.Length, i);
      Wrap(start + i, buffer.Length)
    }

    /** diag_ring_read: the oldest-first prefix of the kept pushes. */
    method Read(out: array<T>, maxCount: nat) returns (n: nat)
      requires Valid() && out != buffer && maxCount <= out.Length
      modifies out
      ensures n == if count <= maxCount then count else maxCount
      ensures out[..n] == Kept(history, buffer.Length)[..n]
      ensures out[n..] == old(out[n..])
    {
      hide Wrap, Kept, Slot;
      n := if count <= maxCount then count else maxCount;
      for i := 0 to n
        invariant out[..i] == Kept(history, buffer.Length)[..i]
        invariant forall k :: i <= k < out.Length ==> out[k] == old(out[k])
      {
        out[i] := buffer[Slot(i)];
      }
    }
  }
}
