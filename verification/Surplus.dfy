/** Handing out what is left above the minimum currents: equal shares to the active nodes, each
    up to its maximum. */
module Surplus {
  import opened CArithmetic
  import opened EvseTypes
  import opened Shortage

  /** Active nodes from place i on that are not marked as capped. */
  ghost function Open(schedule: seq<Schedule>, capped: seq<bool>, i: nat): nat
    requires i <= |schedule| == |capped|
    decreases |schedule| - i
  {
    if i == |schedule| then 0
    else Open(schedule, capped, i + 1) + if schedule[i] == Active && !capped[i] then 1 else 0
  }

  /** The nodes as the hand-out sees them. */
  datatype Nodes = Nodes(schedule: seq<Schedule>, max: seq<nat>)

  ghost predicate Sized(nodes: Nodes, b: seq<nat>, capped: seq<bool>) {
    |nodes.schedule| == |nodes.max| == |b| == |capped|
  }

  ghost predicate IsActive(nodes: Nodes, i: int) {
    0 <= i < |nodes.schedule| && nodes.schedule[i] == Active
  }

  /** Only active nodes gain, none beyond its maximum, and together they gain `given`. */
  ghost predicate Gained(nodes: Nodes, before: seq<nat>, after: seq<nat>, given: int) {
    && |nodes.schedule| == |nodes.max| == |before| == |after|
    && (forall i :: 0 <= i < |after| ==>
          if nodes.schedule[i] == Active then before[i] <= after[i] <= Max(before[i], nodes.max[i])
          else after[i] == before[i])
    && Sum(after) == Sum(before) + given
  }

  /** The slot holders among the charging nodes; another node may still hold a slot. */
  ghost predicate Takes(nodes: Nodes, states: seq<State>, i: int) {
    IsActive(nodes, i) && Charging(states, i)
  }

  /** Whoever has at least two units less than another of them is at its maximum. */
  ghost predicate Fair(nodes: Nodes, states: seq<State>, b: seq<nat>) {
    |nodes.schedule| == |nodes.max| == |b|
    && forall i, j :: Takes(nodes, states, i) && Takes(nodes, states, j) && b[j] > b[i] + 1 ==> b[i] >= nodes.max[i]
  }

  ghost predicate Saturated(nodes: Nodes, b: seq<nat>) {
    |nodes.schedule| == |nodes.max| == |b| && forall i :: IsActive(nodes, i) ==> b[i] >= nodes.max[i]
  }

  ghost predicate Uniform(nodes: Nodes, states: seq<State>, b: seq<nat>) {
    |nodes.schedule| == |b| && forall i, j :: Takes(nodes, states, i) && Takes(nodes, states, j) ==> b[i] == b[j]
  }

  /** A node marked as capped is at its maximum. */
  ghost predicate CapsTrue(nodes: Nodes, b: seq<nat>, capped: seq<bool>) {
    Sized(nodes, b, capped) && forall i :: IsActive(nodes, i) && capped[i] ==> b[i] >= nodes.max[i]
  }

  /** What a slot holder can still take. */
  ghost function Room(nodes: Nodes, b: seq<nat>, i: nat): nat
    requires i < |nodes.schedule| == |nodes.max| == |b|
  {
    if nodes.schedule[i] == Active then Max(0, nodes.max[i] as int - b[i] as int) else 0
  }

  /** Every slot holder has gained `level`, and those before place m one more, as far as it had room. */
  ghost predicate Dealt(nodes: Nodes, before: seq<nat>, after: seq<nat>, level: nat, m: nat) {
    && |nodes.schedule| == |nodes.max| == |before| == |after|
    && forall i :: 0 <= i < |after| ==>
         after[i] == before[i] + Min(Room(nodes, before, i), level + if i < m then 1 else 0)
  }

  /** The whole effect of a hand-out; `left` is what could not be given to anyone. */
  ghost predicate HandedOut(nodes: Nodes, before: seq<nat>, after: seq<nat>, surplus: int, left: int) {
    if surplus <= 0 then after == before && left == surplus
    else
      && 0 <= left && Gained(nodes, before, after, surplus - left)
      && (left > 0 ==> Saturated(nodes, after))
      && exists level: nat, m: nat :: Dealt(nodes, before, after, level, m)
  }

  /** What one round does to node i: before place `cut` it takes its share up to the maximum, from
      there on it finds nothing left. */
  ghost predicate Turn(nodes: Nodes, b0: seq<nat>, c0: seq<bool>, b: seq<nat>, c: seq<bool>, i: nat, share: nat,
                       cut: nat)
    requires Sized(nodes, b0, c0) && Sized(nodes, b, c) && i < |b|
  {
    if nodes.schedule[i] != Active || c0[i] then b[i] == b0[i] && c[i] == c0[i]
    else if b0[i] >= nodes.max[i] then b[i] == b0[i] && c[i]
    else if i < cut then b[i] == Min(b0[i] + share, nodes.max[i]) && c[i] == (b[i] >= nodes.max[i])
    else b[i] == b0[i] && !c[i]
  }

  ghost predicate TurnsTaken(nodes: Nodes, b0: seq<nat>, c0: seq<bool>, b: seq<nat>, c: seq<bool>, i: nat,
                             share: nat, cut: nat)
    requires Sized(nodes, b0, c0) && Sized(nodes, b, c) && i <= |b|
  {
    forall k: nat :: k < i ==> Turn(nodes, b0, c0, b, c, k, share, cut)
  }

  /** After the nodes before i had their turn; the surplus runs out only while single units are dealt. */
  ghost predicate Round(nodes: Nodes, b0: seq<nat>, c0: seq<bool>, b: seq<nat>, c: seq<bool>, i: nat,
                        share: nat, surplus: nat, distributed: nat, cut: nat)
  {
    && Sized(nodes, b0, c0) && Sized(nodes, b, c) && cut <= i <= |b|
    && TurnsTaken(nodes, b0, c0, b, c, i, share, cut) && (cut < i ==> share == 1 && distributed == surplus)
    && b[i..] == b0[i..] && c[i..] == c0[i..]
    && Sum(b) == Sum(b0) + distributed
    && Budget(nodes, c0, i, share, surplus, distributed)
    && (distributed == 0 ==> FlaggedBefore(nodes, c, i))
  }

  /** What has been given and full shares for all that still wait do not exceed the surplus, or
      the single units that are dealt out. */
  ghost predicate Budget(nodes: Nodes, c0: seq<bool>, i: nat, share: nat, surplus: nat, distributed: nat)
    requires i <= |nodes.schedule| == |c0|
  {
    distributed <= surplus
    && distributed + share * Open(nodes.schedule, c0, i) <= Max(surplus, share * Open(nodes.schedule, c0, 0))
  }

  ghost predicate FlaggedBefore(nodes: Nodes, c: seq<bool>, i: nat)
    requires i <= |nodes.schedule| == |c|
  {
    forall k :: 0 <= k < i && nodes.schedule[k] == Active ==> c[k]
  }

  /** Before the first turn. */
  lemma RoundStart(nodes: Nodes, b0: seq<nat>, c0: seq<bool>, share: nat, surplus: nat)
    requires Sized(nodes, b0, c0)
    ensures Round(nodes, b0, c0, b0, c0, 0, share, surplus, 0, 0)
  {
  }

  /** How much node i receives in its turn; -1 when it is not taking part. */
  function Addition(nodes: Nodes, b: seq<nat>, c: seq<bool>, i: nat, share: nat, left: nat): int
    requires i < |nodes.schedule| == |nodes.max| == |b| == |c|
  {
    if nodes.schedule[i] != Active || c[i] then -1
    else Min(Min(share, nodes.max[i] as int - b[i] as int), left)
  }

  ghost predicate FullShares(nodes: Nodes, c0: seq<bool>, share: nat, surplus: nat)
    requires |nodes.schedule| == |c0|
  {
    share >= 1 && surplus > 0 && (share * Open(nodes.schedule, c0, 0) <= surplus || share == 1)
  }

  lemma {:induction false} BudgetStep(nodes: Nodes, c0: seq<bool>, i: nat, share: nat, surplus: nat, distributed: nat,
                                      canAdd: int, add: nat)
    requires i < |nodes.schedule| == |c0| && Budget(nodes, c0, i, share, surplus, distributed)
    requires FullShares(nodes, c0, share, surplus)
    requires add == if nodes.schedule[i] == Active && !c0[i]
               then Max(0, Min(Min(share, canAdd), surplus - distributed)) else 0
    ensures Budget(nodes, c0, i + 1, share, surplus, distributed + add)
    ensures surplus > 0 && share >= 1 && distributed + add <= surplus
    ensures nodes.schedule[i] == Active && !c0[i] ==>
              if distributed < surplus then add == Max(0, Min(share, canAdd)) else add == 0 && share == 1
  {
    var open, rest := nodes.schedule[i] == Active && !c0[i], Open(nodes.schedule, c0, i + 1);
    var all := share * Open(nodes.schedule, c0, 0);
    assert share * Open(nodes.schedule, c0, i) == share * rest + if open then share else 0 by {
      assert share * (rest + 1) == share * rest + share;
    }
    hide Open;
    MultiplyOrder(0, rest, share);
  }

  /** The surplus lasts for node i too. */
  function Reach(nodes: Nodes, c: seq<bool>, i: nat, empty: bool, cut: nat): nat
    requires i < |nodes.schedule| == |c|
  {
    if cut == i && (!empty || nodes.schedule[i] != Active || c[i]) then i + 1 else cut
  }

  /** One turn: the remaining surplus covers a full share, unless it is dealt out one by one. */
  lemma {:induction false} RoundStep(nodes: Nodes, b0: seq<nat>, c0: seq<bool>, b: seq<nat>, c: seq<bool>, i: nat,
                                     share: nat, surplus: nat, distributed: nat, cut: nat, b': seq<nat>,
                                     c': seq<bool>, add: nat)
    requires Round(nodes, b0, c0, b, c, i, share, surplus, distributed, cut) && i < |b|
    requires FullShares(nodes, c0, share, surplus)
    requires add == Max(0, Addition(nodes, b, c, i, share, surplus - distributed))
    requires b' == b[i := b[i] + add]
    requires c' == c[i := c[i] || (nodes.schedule[i] == Active && b[i] + add >= nodes.max[i])]
    ensures Round(nodes, b0, c0, b', c', i + 1, share, surplus, distributed + add,
                  Reach(nodes, c, i, distributed == surplus, cut))
  {
    hide Sum, Open, Budget, FullShares;
    assert b[i] == b[i..][0] == b0[i] && c[i] == c[i..][0] == c0[i];
    BudgetStep(nodes, c0, i, share, surplus, distributed, nodes.max[i] as int - b[i] as int, add);
    SumUpdate(b, i, b[i] + add);
    TurnsKept(nodes, b0, c0, b, c, i, share, cut, Reach(nodes, c, i, distributed == surplus, cut), b', c');
    assert b'[i + 1..] == b[i..][1..] && c'[i + 1..] == c[i..][1..];
  }

  lemma {:induction false} TurnsKept(nodes: Nodes, b0: seq<nat>, c0: seq<bool>, b: seq<nat>, c: seq<bool>, i: nat,
                                     share: nat, cut: nat, cut': nat, b': seq<nat>, c': seq<bool>)
    requires Sized(nodes, b0, c0) && Sized(nodes, b, c) && Sized(nodes, b', c') && i < |b|
    requires TurnsTaken(nodes, b0, c0, b, c, i, share, cut) && (cut' == cut || i <= cut <= cut')
    requires b' == b[i := b'[i]] && c' == c[i := c'[i]]
    requires Turn(nodes, b0, c0, b', c', i, share, cut')
    ensures TurnsTaken(nodes, b0, c0, b', c', i + 1, share, cut')
  {
    forall k: nat | k < i + 1
      ensures Turn(nodes, b0, c0, b', c', k, share, cut')
    {
      if k < i {
        assert Turn(nodes, b0, c0, b, c, k, share, cut);
      }
    }
  }

  // ------------------------------------------------------------------ a complete round

  lemma {:induction false} RoundGained(nodes: Nodes, b0: seq<nat>, c0: seq<bool>, b: seq<nat>, c: seq<bool>,
                                       share: nat, surplus: nat, distributed: nat, cut: nat)
    requires Round(nodes, b0, c0, b, c, |b0|, share, surplus, distributed, cut)
    ensures Gained(nodes, b0, b, distributed) && distributed <= surplus
    ensures CapsTrue(nodes, b0, c0) ==> CapsTrue(nodes, b, c)
  {
    hide Sum;
    forall i | 0 <= i < |b|
      ensures if nodes.schedule[i] == Active then b0[i] <= b[i] <= Max(b0[i], nodes.max[i]) else b[i] == b0[i]
      ensures CapsTrue(nodes, b0, c0) && nodes.schedule[i] == Active && c[i] ==> b[i] >= nodes.max[i]
    {
      assert Turn(nodes, b0, c0, b, c, i, share, cut);
    }
  }

  /** A round raises the common gain by the share, or runs out while dealing units, from the first
      place on. */
  lemma {:induction false} RoundLevel(nodes: Nodes, start: seq<nat>, b0: seq<nat>, c0: seq<bool>, b: seq<nat>,
                                      c: seq<bool>, share: nat, surplus: nat, distributed: nat, cut: nat, level: nat)
    requires Round(nodes, b0, c0, b, c, |b0|, share, surplus, distributed, cut)
    requires Dealt(nodes, start, b0, level, 0) && CapsTrue(nodes, b0, c0)
    ensures if cut == |b| then Dealt(nodes, start, b, level + share, 0)
            else distributed == surplus && Dealt(nodes, start, b, level, cut)
  {
    hide Sum, Budget, FlaggedBefore;
    forall i | 0 <= i < |b|
      ensures b[i] == start[i] + Min(Room(nodes, start, i),
                                     if cut == |b| then level + share else level + if i < cut then 1 else 0)
    {
      assert Turn(nodes, b0, c0, b, c, i, share, cut);
    }
  }

  /** A round that gives nothing marks every open node as capped. */
  lemma {:induction false} RoundFlags(nodes: Nodes, b0: seq<nat>, c0: seq<bool>, b: seq<nat>, c: seq<bool>,
                                      share: nat, surplus: nat, cut: nat)
    requires Round(nodes, b0, c0, b, c, |b0|, share, surplus, 0, cut)
    requires Open(nodes.schedule, c0, 0) > 0
    ensures Open(nodes.schedule, c, 0) < Open(nodes.schedule, c0, 0)
  {
    hide Sum, Budget;
    NothingOpen(nodes, c, 0);
  }

  lemma {:induction false} NothingOpen(nodes: Nodes, c: seq<bool>, i: nat)
    requires i <= |nodes.schedule| == |c| && FlaggedBefore(nodes, c, |c|)
    ensures Open(nodes.schedule, c, i) == 0
    decreases |c| - i
  {
    if i < |c| {
      NothingOpen(nodes, c, i + 1);
    }
  }

  lemma {:induction false} AllCapped(nodes: Nodes, b: seq<nat>, c: seq<bool>, i: nat)
    requires CapsTrue(nodes, b, c) && i <= |c| && Open(nodes.schedule, c, i) == 0
    ensures forall k :: i <= k < |c| && nodes.schedule[k] == Active ==> b[k] >= nodes.max[k]
    decreases |c| - i
  {
    if i < |c| {
      AllCapped(nodes, b, c, i + 1);
    }
  }

  lemma GainedTwice(nodes: Nodes, x: seq<nat>, y: seq<nat>, z: seq<nat>, m: int, n: int)
    requires Gained(nodes, x, y, m) && Gained(nodes, y, z, n)
    ensures Gained(nodes, x, z, m + n)
  {
  }

  // ------------------------------------------------------------------ what a hand-out means

  /** Charging slot holders that start equal end fair. */
  lemma UniformIsFair(nodes: Nodes, states: seq<State>, before: seq<nat>, after: seq<nat>, level: nat, m: nat)
    requires Dealt(nodes, before, after, level, m) && Uniform(nodes, states, before)
    ensures Fair(nodes, states, after)
  {
  }

  /** How many of the first n nodes are slot holders below their maximum. */
  ghost function WithRoom(nodes: Nodes, b: seq<nat>, n: nat): nat
    requires n <= |nodes.schedule| == |nodes.max| == |b|
  {
    if n == 0 then 0 else WithRoom(nodes, b, n - 1) + if Room(nodes, b, n - 1) > 0 then 1 else 0
  }

  lemma {:induction false} WithRoomGrows(nodes: Nodes, b: seq<nat>, m: nat, n: nat)
    requires m <= n <= |nodes.schedule| == |nodes.max| == |b|
    ensures WithRoom(nodes, b, m) <= WithRoom(nodes, b, n)
  {
    if m < n {
      WithRoomGrows(nodes, b, m, n - 1);
    }
  }

  lemma {:induction false} Served(nodes: Nodes, before: seq<nat>, after: seq<nat>, level: nat, m: nat, n: nat)
    requires Dealt(nodes, before, after, level, m) && n <= |after|
    ensures level > 0 ==> Sum(after[..n]) >= Sum(before[..n]) + WithRoom(nodes, before, n)
    ensures level == 0 ==>
              Sum(after[..n]) == Sum(before[..n]) + WithRoom(nodes, before, if n < m then n else m)
  {
    if n > 0 {
      Served(nodes, before, after, level, m, n - 1);
      hide Sum;
      SumNext(before, n - 1);
      SumNext(after, n - 1);
    }
  }

  /** The hand-out reaches a slot holder below its maximum exactly if there is a unit for each such
      slot holder up to it. */
  lemma {:induction false} HandOutReaches(nodes: Nodes, before: seq<nat>, after: seq<nat>, surplus: int, left: int,
                                          i: nat)
    requires |nodes.schedule| == |nodes.max| == |before| && HandedOut(nodes, before, after, surplus, left)
    requires IsActive(nodes, i)
    ensures after[i] > before[i] <==> before[i] < nodes.max[i] && WithRoom(nodes, before, i + 1) <= surplus
  {
    hide Sum;
    var n := |before|;
    WithRoomGrows(nodes, before, i + 1, n);
    if surplus > 0 {
      var level: nat, m: nat :| Dealt(nodes, before, after, level, m);
      assert before[..n] == before && after[..n] == after;
      Served(nodes, before, after, level, m, n);
      var end := if n < m then n else m;
      if i < end {
        WithRoomGrows(nodes, before, i + 1, end);
      } else {
        WithRoomGrows(nodes, before, end, i);
      }
    }
  }

  /** There is one outcome: the hand-out cannot depend on anything but the nodes and the surplus. */
  lemma {:induction false} HandOutUnique(nodes: Nodes, before: seq<nat>, a: seq<nat>, b: seq<nat>, surplus: int,
                                         leftA: int, leftB: int)
    requires HandedOut(nodes, before, a, surplus, leftA) && HandedOut(nodes, before, b, surplus, leftB)
    ensures a == b && leftA == leftB
  {
    hide Sum, Room;
    if surplus > 0 {
      var l: nat, m: nat :| Dealt(nodes, before, a, l, m);
      var k: nat, n: nat :| Dealt(nodes, before, b, k, n);
      if l < k || (l == k && m <= n) {
        MoreIsSame(nodes, before, a, b, l, m, k, n, surplus, leftA, leftB);
      } else {
        MoreIsSame(nodes, before, b, a, k, n, l, m, surplus, leftB, leftA);
      }
    }
  }

  lemma {:induction false} MoreIsSame(nodes: Nodes, before: seq<nat>, a: seq<nat>, b: seq<nat>, l: nat, m: nat,
                                      k: nat, n: nat, surplus: nat, leftA: nat, leftB: nat)
    requires Dealt(nodes, before, a, l, m) && Dealt(nodes, before, b, k, n)
    requires l < k || (l == k && m <= n)
    requires Sum(a) == Sum(before) + surplus - leftA && Sum(b) == Sum(before) + surplus - leftB
    requires leftA > 0 ==> Saturated(nodes, a)
    ensures a == b && leftA == leftB
  {
    hide Sum;
    assert forall i :: 0 <= i < |a| ==> a[i] <= b[i];
    if leftA > 0 {
      assert forall i :: 0 <= i < |a| ==> a[i] == b[i];
    } else {
      SumOrder(a, b);
    }
  }

  // ------------------------------------------------------------------ the program

  /** evse_handout_surplus; `left` is what could not be given to anyone. */
  method HandoutSurplus(balanced: array<nat>, nodes: Nodes, surplus: int) returns (ghost left: int)
    requires balanced.Length == |nodes.schedule| == |nodes.max|
    modifies balanced
    ensures HandedOut(nodes, old(balanced[..]), balanced[..], surplus, left)
  {
    hide Gained, CapsTrue, Dealt, Sum, Saturated, Open, Round, FullShares;
    left := surplus;
    if surplus <= 0 {
      return;
    }
    ghost var b0 := balanced[..];
    var capped := new bool[balanced.Length](_ => false);
    var rest: nat, progress := surplus, true;
    ghost var level: nat, place: nat := 0, 0;
    HandoutStart(nodes, b0, capped[..]);
    while rest > 0 && progress
      invariant capped.Length == balanced.Length && fresh(capped)
      invariant rest <= surplus && Gained(nodes, b0, balanced[..], surplus - rest)
      invariant CapsTrue(nodes, balanced[..], capped[..])
      invariant Dealt(nodes, b0, balanced[..], level, place) && (rest > 0 ==> place == 0)
      invariant progress
      decreases rest, Open(nodes.schedule, capped[..], 0)
    {
      var uncapped := CountOpen(nodes, capped);
      if uncapped == 0 {
        break;
      }
      var share: nat := rest / uncapped;
      if share == 0 {
        share := 1;
      }
      ghost var b1, c1 := balanced[..], capped[..];
      ShareFits(nodes, c1, rest, uncapped, share);
      var distributed;
      ghost var cut;
      distributed, progress, cut := OneRound(balanced, capped, nodes, share, rest);
      ghost var b2, c2 := balanced[..], capped[..];
      RoundGained(nodes, b1, c1, b2, c2, share, rest, distributed, cut);
      GainedTwice(nodes, b0, b1, b2, surplus - rest, distributed);
      if distributed == 0 {
        RoundFlags(nodes, b1, c1, b2, c2, share, rest, cut);
      }
      RoundLevel(nodes, b0, b1, c1, b2, c2, share, rest, distributed, cut, level);
      level, place := if cut == |b2| then level + share else level, if cut == |b2| then 0 else cut;
      rest := rest - distributed;
    }
    left := rest;
    HandoutEnd(nodes, balanced[..], capped[..], rest);
  }

  lemma HandoutStart(nodes: Nodes, b: seq<nat>, c: seq<bool>)
    requires Sized(nodes, b, c) && forall i :: 0 <= i < |c| ==> !c[i]
    ensures Gained(nodes, b, b, 0) && CapsTrue(nodes, b, c) && Dealt(nodes, b, b, 0, 0)
  {
  }

  lemma HandoutEnd(nodes: Nodes, b: seq<nat>, c: seq<bool>, rest: nat)
    requires CapsTrue(nodes, b, c)
    requires rest == 0 || Open(nodes.schedule, c, 0) == 0
    ensures rest > 0 ==> Saturated(nodes, b)
  {
    if rest > 0 {
      AllCapped(nodes, b, c, 0);
    }
  }

  lemma ShareFits(nodes: Nodes, c: seq<bool>, rest: nat, uncapped: nat, share: nat)
    requires rest > 0 && uncapped > 0 && |nodes.schedule| == |c| && uncapped == Open(nodes.schedule, c, 0)
    requires share == if rest / uncapped == 0 then 1 else rest / uncapped
    ensures FullShares(nodes, c, share, rest)
  {
    hide Open;
    Quotient(rest, uncapped);
  }

  method CountOpen(nodes: Nodes, capped: array<bool>) returns (uncapped: nat)
    requires capped.Length == |nodes.schedule|
    ensures uncapped == Open(nodes.schedule, capped[..], 0)
  {
    uncapped := 0;
    for i := 0 to capped.Length
      invariant uncapped + Open(nodes.schedule, capped[..], i) == Open(nodes.schedule, capped[..], 0)
    {
      if nodes.schedule[i] == Active && !capped[i] {
        uncapped := uncapped + 1;
      }
    }
  }

  /** The inner loop. */
  method OneRound(balanced: array<nat>, capped: array<bool>, nodes: Nodes, share: nat, surplus: nat)
      returns (distributed: nat, progress: bool, ghost cut: nat)
    requires balanced.Length == capped.Length == |nodes.schedule| == |nodes.max| && balanced as object != capped
    requires FullShares(nodes, capped[..], share, surplus) && Open(nodes.schedule, capped[..], 0) > 0
    modifies balanced, capped
    ensures Round(nodes, old(balanced[..]), old(capped[..]), balanced[..], capped[..], |old(balanced[..])|,
                  share, surplus, distributed, cut)
    ensures progress
  {
    hide Round, Open, FullShares;
    ghost var b0, c0 := balanced[..], capped[..];
    distributed, progress, cut := 0, false, 0;
    RoundStart(nodes, b0, c0, share, surplus);
    for i := 0 to balanced.Length
      invariant Round(nodes, b0, c0, balanced[..], capped[..], i, share, surplus, distributed, cut)
      invariant distributed <= surplus && (distributed > 0 ==> progress)
      invariant progress || Open(nodes.schedule, c0, i) == Open(nodes.schedule, c0, 0)
    {
      ghost var b, c := balanced[..], capped[..];
      ghost var add: nat := Max(0, Addition(nodes, b, c, i, share, surplus - distributed));
      RoundFacts(nodes, b0, c0, b, c, i, share, surplus, distributed, cut, add);
      RoundStep(nodes, b0, c0, b, c, i, share, surplus, distributed, cut, b[i := b[i] + add],
                c[i := c[i] || (nodes.schedule[i] == Active && b[i] + add >= nodes.max[i])], add);
      cut := Reach(nodes, c, i, distributed == surplus, cut);
      if nodes.schedule[i] == Active && !capped[i] {
        var canAdd: int := nodes.max[i] as int - balanced[i] as int;
        if canAdd <= 0 {
          capped[i] := true;
          progress := true;
        } else {
          var amount := if share < canAdd then share else canAdd;
          if amount > surplus - distributed {
            amount := surplus - distributed;
          }
          if amount > 0 {
            balanced[i] := balanced[i] + amount;
            distributed := distributed + amount;
            progress := true;
            if balanced[i] >= nodes.max[i] {
              capped[i] := true;
            }
          }
        }
      }
      assert balanced[..] == b[i := b[i] + add];
      assert capped[..] == c[i := c[i] || (nodes.schedule[i] == Active && b[i] + add >= nodes.max[i])];
    }
    NobodyLeft(nodes, c0);
  }

  lemma RoundFacts(nodes: Nodes, b0: seq<nat>, c0: seq<bool>, b: seq<nat>, c: seq<bool>, i: nat,
                   share: nat, surplus: nat, distributed: nat, cut: nat, add: nat)
    requires Round(nodes, b0, c0, b, c, i, share, surplus, distributed, cut) && i < |b|
    requires FullShares(nodes, c0, share, surplus)
    requires add == Max(0, Addition(nodes, b, c, i, share, surplus - distributed))
    ensures surplus > 0 && share >= 1 && distributed + add <= surplus
    ensures Open(nodes.schedule, c0, i)
         == Open(nodes.schedule, c0, i + 1) + if nodes.schedule[i] == Active && !c[i] then 1 else 0
  {
  }

  lemma NobodyLeft(nodes: Nodes, c: seq<bool>)
    requires |nodes.schedule| == |c|
    ensures Open(nodes.schedule, c, |c|) == 0
  {
  }
}
