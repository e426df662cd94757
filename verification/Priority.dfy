/** The priority order of the nodes: charging nodes first, then the configured strategy, then the
    node number. */
module Priority {
  import opened EvseTypes

  /** What decides the order of nodes. */
  datatype Criteria = Criteria(states: seq<State>, connected: seq<nat>, strategy: Strategy)

  predicate Fits(c: Criteria, n: nat) { |c.states| == n && |c.connected| == n }

  /** The test that moves `key` before `other` in evse_sort_priority. */
  predicate GoesFirst(c: Criteria, key: nat, other: nat)
    requires Fits(c, |c.states|) && key < |c.states| && other < |c.states|
  {
    var keyActive, otherActive := c.states[key] == C, c.states[other] == C;
    if keyActive && !otherActive then true
    else if keyActive == otherActive then
      match c.strategy
      case FirstConnected =>
        if c.connected[key] != 0 && c.connected[other] == 0 then true
        else c.connected[key] != 0 && c.connected[other] != 0 && c.connected[key] < c.connected[other]
      case LastConnected => c.connected[key] > c.connected[other]
      case ModbusAddress => key < other
    else false
  }

  /** The documented order: by activity, then by the strategy's key (a node that never connected
      comes last for first-connected), then by number. */
  ghost predicate Precedes(c: Criteria, a: nat, b: nat)
    requires Fits(c, |c.states|) && a < |c.states| && b < |c.states|
  {
    var (ga, ka), (gb, kb) := Key(c, a), Key(c, b);
    ga < gb || (ga == gb && (ka < kb || (ka == kb && a < b)))
  }

  /** The group of a node (0 when charging) and its key within the group. */
  ghost function Key(c: Criteria, a: nat): (int, int)
    requires Fits(c, |c.states|) && a < |c.states|
  {
    var group := if c.states[a] == C then 0 else 1;
    match c.strategy
    case FirstConnected => (if c.connected[a] == 0 then 2 * group + 1 else 2 * group, c.connected[a])
    case LastConnected => (group, -(c.connected[a] as int))
    case ModbusAddress => (group, a)
  }

  /** A linear order. */
  lemma PrecedesLinear(c: Criteria, x: nat, y: nat, z: nat)
    requires Fits(c, |c.states|) && x < |c.states| && y < |c.states| && z < |c.states|
    ensures !Precedes(c, x, x)
    ensures Precedes(c, x, y) && Precedes(c, y, z) ==> Precedes(c, x, z)
    ensures x == y || Precedes(c, x, y) || Precedes(c, y, x)
  {
  }

  /** Moving only past nodes for which the test holds is moving by the order, for a later node. */
  lemma TestIsOrder(c: Criteria, key: nat, other: nat)
    requires Fits(c, |c.states|) && other < key < |c.states|
    ensures GoesFirst(c, key, other) <==> Precedes(c, key, other)
  {
  }

  /** order is a permutation of the first n nodes. */
  ghost predicate Permutation(order: seq<nat>, n: nat) {
    && |order| == n
    && (forall i :: 0 <= i < n ==> order[i] < n)
    && (forall i, j :: 0 <= i < j < n ==> order[i] != order[j])
  }

  ghost predicate Ordered(c: Criteria, order: seq<nat>)
    requires Fits(c, |c.states|) && forall i :: 0 <= i < |order| ==> order[i] < |c.states|
  {
    forall i, j :: 0 <= i < j < |order| ==> Precedes(c, order[i], order[j])
  }

  /** order lists the first n nodes by priority. */
  ghost predicate PriorityOrder(c: Criteria, order: seq<nat>, n: nat) {
    Fits(c, |c.states|) && n <= |c.states| && Permutation(order, n) && Ordered(c, order)
  }

  /** The nodes from the i-th on are still in their own places. */
  ghost predicate Unsorted(a: seq<nat>, i: nat) {
    i <= |a| && forall k :: i <= k < |a| ==> a[k] == k
  }

  /** evse_sort_priority: insertion sort of the identity. */
  method SortPriority(priority: array<nat>, c: Criteria)
    requires Fits(c, priority.Length)
    modifies priority
    ensures PriorityOrder(c, priority[..], priority.Length)
  {
    hide GoesFirst, PriorityOrder;
    for i := 0 to priority.Length
      invariant forall k :: 0 <= k < i ==> priority[k] == k
    {
      priority[i] := i;
    }
    OrderOfNone(c);
    assert Unsorted(priority[..], 0);
    for i := 0 to priority.Length
      invariant PriorityOrder(c, priority[..i], i)
      invariant Unsorted(priority[..], i)
    {
      InsertNode(priority, i, c);
    }
    assert priority[..priority.Length] == priority[..];
  }

  /** One pass of the outer loop; for the first node, which the program's loop skips, it changes
      nothing. */
  method InsertNode(priority: array<nat>, i: nat, c: Criteria)
    requires Fits(c, priority.Length) && i < priority.Length && Unsorted(priority[..], i)
    requires PriorityOrder(c, priority[..i], i)
    modifies priority
    ensures PriorityOrder(c, priority[..i + 1], i + 1) && Unsorted(priority[..], i + 1)
  {
    hide GoesFirst, PriorityOrder, Unsorted, StopsAt;
    ghost var sorted, before := priority[..i], priority[..];
    OrderBelow(c, sorted, i);
    InPlace(before, i);
    assert priority[i] == before[i];
    var j := Shift(priority, i, c, sorted);
    Place(priority, i, j, sorted);
    Inserted(c, sorted, i, j);
    assert priority[..][i + 1..] == before[i + 1..];
    StillUnsorted(before, priority[..], i);
  }

  lemma InPlace(a: seq<nat>, i: nat)
    requires i < |a| && Unsorted(a, i)
    ensures a[i] == i
  {
  }

  lemma StillUnsorted(a: seq<nat>, b: seq<nat>, i: nat)
    requires i < |a| == |b| && Unsorted(a, i) && b[i + 1..] == a[i + 1..]
    ensures Unsorted(b, i + 1)
  {
    forall k | i + 1 <= k < |b|
      ensures b[k] == k
    {
      assert b[k] == b[i + 1..][k - i - 1] == a[i + 1..][k - i - 1] == a[k];
    }
  }

  /** The first i nodes are those of `sorted`, with a gap behind place j. */
  ghost predicate Opened(a: seq<nat>, i: nat, j: int, sorted: seq<nat>) {
    && |sorted| == i < |a| && -1 <= j < i
    && a[..j + 1] == sorted[..j + 1] && a[j + 2..i + 1] == sorted[j + 1..]
  }

  /** Puts the node where it belongs. */
  method Place(priority: array<nat>, i: nat, j: int, ghost sorted: seq<nat>)
    requires Opened(priority[..], i, j, sorted)
    modifies priority
    ensures priority[..i + 1] == sorted[..j + 1] + [i] + sorted[j + 1..]
    ensures priority[i + 1..] == old(priority[i + 1..])
  {
    ghost var a := priority[..];
    priority[j + 1] := i;
    assert priority[..i + 1] == a[..j + 1] + [i] + a[j + 2..i + 1];
  }

  /** Node i goes before those behind place j, and not before the one there. */
  ghost predicate StopsAt(c: Criteria, sorted: seq<nat>, i: nat, j: int) {
    && Fits(c, |c.states|) && i < |c.states| && |sorted| == i && (forall m :: 0 <= m < i ==> sorted[m] < i)
    && -1 <= j < i && (forall m :: j < m < i ==> GoesFirst(c, i, sorted[m]))
    && (j >= 0 ==> !GoesFirst(c, i, sorted[j]))
  }

  /** The inner loop: moves the nodes that come after node i one place up; they begin behind j. */
  method Shift(priority: array<nat>, i: nat, c: Criteria, ghost sorted: seq<nat>) returns (j: int)
    requires Fits(c, priority.Length) && i < priority.Length && priority[i] == i
    requires priority[..i] == sorted && forall m :: 0 <= m < i ==> sorted[m] < i
    modifies priority
    ensures -1 <= j < i
    ensures Opened(priority[..], i, j, sorted) && StopsAt(c, sorted, i, j)
    ensures priority[i + 1..] == old(priority[i + 1..])
  {
    hide GoesFirst;
    var key := priority[i];
    j := i - 1;
    assert Opened(priority[..], i, j, sorted);
    hide Opened;
    while j >= 0
      invariant -1 <= j < i && Opened(priority[..], i, j, sorted)
      invariant forall m :: j < m < i ==> GoesFirst(c, i, sorted[m])
      invariant priority[i + 1..] == old(priority[i + 1..])
    {
      AtEnd(priority[..], i, j, sorted);
      if GoesFirst(c, key, priority[j]) {
        MoveUp(priority, i, j, sorted);
        j := j - 1;
      } else {
        break;
      }
    }
  }

  lemma AtEnd(a: seq<nat>, i: nat, j: nat, sorted: seq<nat>)
    requires Opened(a, i, j, sorted)
    ensures a[j] == sorted[j]
  {
    assert a[j] == a[..j + 1][j];
  }

  method MoveUp(priority: array<nat>, i: nat, j: nat, ghost sorted: seq<nat>)
    requires Opened(priority[..], i, j, sorted)
    modifies priority
    ensures Opened(priority[..], i, j - 1, sorted)
    ensures priority[i + 1..] == old(priority[i + 1..])
  {
    ghost var a := priority[..];
    AtEnd(a, i, j, sorted);
    priority[j + 1] := priority[j];
    assert priority[..][j + 1..i + 1] == [a[j]] + a[j + 2..i + 1] == sorted[j..];
    assert priority[..][..j] == a[..j + 1][..j] == sorted[..j];
  }

  lemma OrderBelow(c: Criteria, order: seq<nat>, n: nat)
    requires PriorityOrder(c, order, n)
    ensures |order| == n && forall m :: 0 <= m < n ==> order[m] < n
  {
  }

  lemma OrderOfNone(c: Criteria)
    ensures Fits(c, |c.states|) ==> PriorityOrder(c, [], 0)
  {
  }

  lemma {:induction false} Inserted(c: Criteria, sorted: seq<nat>, i: nat, j: int)
    requires PriorityOrder(c, sorted, i) && i < |c.states| && StopsAt(c, sorted, i, j)
    ensures PriorityOrder(c, sorted[..j + 1] + [i] + sorted[j + 1..], i + 1)
  {
    hide GoesFirst, Precedes;
    forall m | 0 <= m < i
      ensures if m <= j then Precedes(c, sorted[m], i) else Precedes(c, i, sorted[m])
    {
      TestIsOrder(c, i, sorted[m]);
      if m <= j {
        TestIsOrder(c, i, sorted[j]);
        PrecedesLinear(c, i, sorted[j], i);
        PrecedesLinear(c, sorted[m], sorted[j], i);
      }
    }
  }

  // ------------------------------------------------------------------ uniqueness

  /** There is only one such order: the result does not depend on the sorting algorithm. */
  lemma {:induction false} OrderUnique(c: Criteria, p: seq<nat>, q: seq<nat>, n: nat)
    requires PriorityOrder(c, p, n) && PriorityOrder(c, q, n)
    ensures p == q
  {
    forall i | 0 <= i < n
      ensures p[i] == q[i]
    {
      SameRank(c, p, q, n, i);
    }
  }

  lemma {:induction false} SameRank(c: Criteria, p: seq<nat>, q: seq<nat>, n: nat, i: nat)
    requires PriorityOrder(c, p, n) && PriorityOrder(c, q, n) && i < n
    ensures p[i] == q[i]
    decreases i
  {
    hide Precedes;
    forall k | 0 <= k < i
      ensures p[k] == q[k]
    {
      SameRank(c, p, q, n, k);
    }
    var j := Find(q, n, p[i]);
    var m := Find(p, n, q[i]);
    PrecedesLinear(c, p[i], q[i], p[i]);
    assert j >= i && m >= i;
  }

  /** Every node occurs in a permutation. */
  lemma {:induction false} Find(order: seq<nat>, n: nat, v: nat) returns (i: nat)
    requires Permutation(order, n) && v < n
    ensures i < n && order[i] == v
  {
    ValuesSize(order, n);
    SameSize(Values(order, n), Below(n));
    assert v in Values(order, n);
    i :| i < n && order[i] == v;
  }

  lemma SameSize(a: set<nat>, b: set<nat>)
    requires a <= b && |a| == |b|
    ensures a == b
  {
    assert b == a + (b - a);
  }

  ghost function Below(n: nat): (s: set<nat>)
    ensures |s| == n && forall x: nat :: x in s <==> x < n
  {
    if n == 0 then {} else Below(n - 1) + {n - 1}
  }

  ghost function Values(order: seq<nat>, n: nat): (s: set<nat>)
    requires n <= |order|
    ensures forall x: nat :: x in s <==> exists k :: 0 <= k < n && order[k] == x
  {
    if n == 0 then {} else Values(order, n - 1) + {order[n - 1]}
  }

  lemma {:induction false} ValuesSize(order: seq<nat>, n: nat)
    requires n <= |order| && forall i, j :: 0 <= i < j < n ==> order[i] != order[j]
    ensures |Values(order, n)| == n
  {
    if n > 0 {
      ValuesSize(order, n - 1);
    }
  }
}
