/** The standard distribution of the current among the charging nodes: max-min fair up to the
    rounding to whole units, and exact in total. */
module Distribution {
  import opened CArithmetic
  import opened EvseTypes
  import opened Shortage

  ghost function Ones(n: nat): (o: seq<nat>)
    ensures |o| == n && forall i :: 0 <= i < n ==> o[i] == 1
  {
    seq(n, _ => 1)
  }

  ghost function Count(states: seq<State>): nat {
    Total(states, Ones(|states|))
  }

  /** Every charging node stands at its maximum, if that is not above the level, or else at the
      level or one above it. */
  ghost predicate Levelled(states: seq<State>, max: seq<nat>, b: seq<nat>, level: nat) {
    |states| == |max| == |b|
    && forall i :: Charging(states, i) ==>
         if max[i] <= level then b[i] == max[i] else level <= b[i] <= level + 1 && b[i] <= max[i]
  }

  // ------------------------------------------------------------------ sums

  lemma {:induction false} SumScale(a: seq<nat>, b: seq<nat>, m: nat)
    requires |a| == |b| && forall i :: 0 <= i < |a| ==> a[i] == m * b[i]
    ensures Sum(a) == m * Sum(b)
  {
    if |a| > 0 {
      var n := |a| - 1;
      SumScale(a[..n], b[..n], m);
      assert m * Sum(b) == m * Sum(b[..n]) + m * b[n];
    }
  }

  lemma {:induction false} SumZero(a: seq<nat>)
    requires Sum(a) == 0
    ensures forall i :: 0 <= i < |a| ==> a[i] == 0
  {
    if |a| > 0 {
      SumZero(a[..|a| - 1]);
    }
  }

  lemma {:induction false} SumPositive(a: seq<nat>, i: nat)
    requires i < |a|
    ensures a[i] <= Sum(a)
  {
    if i < |a| - 1 {
      SumPositive(a[..|a| - 1], i);
    }
  }

  // ------------------------------------------------------------------ what levelled means

  /** Max-min fairness: no other allocation within the same total gives a node more without
      giving less to one that had, up to the rounding unit, no more than that node. */
  lemma {:induction false} MaxMinFair(states: seq<State>, max: seq<nat>, b: seq<nat>, level: nat, other: seq<nat>,
                                      i: nat)
      returns (j: nat)
    requires Levelled(states, max, b, level)
    requires |other| == |b| && forall k :: Charging(states, k) ==> other[k] <= max[k]
    requires Total(states, other) <= Total(states, b)
    requires Charging(states, i) && other[i] > b[i]
    ensures Charging(states, j) && other[j] < b[j] && b[j] <= b[i] + 1
  {
    if forall k :: Charging(states, k) ==> b[k] <= other[k] {
      j := i;
      assert Drawn(states, b)[i] < Drawn(states, other)[i];
      SumOrder(Drawn(states, b), Drawn(states, other));
    } else {
      j :| Charging(states, j) && b[j] > other[j];
    }
  }

  /** With enough for m each, everybody gets m or its smaller maximum; `total` is limited to the
      sum of the maxima before it is distributed. */
  lemma {:induction false} MinimumGuaranteed(states: seq<State>, max: seq<nat>, b: seq<nat>, level: nat, total: nat,
                                             m: nat, i: nat)
    requires Levelled(states, max, b, level) && Charging(states, i)
    requires total >= m * Count(states) && Total(states, b) == Min(total, Total(states, max))
    ensures b[i] >= Min(m, max[i])
  {
    if b[i] < Min(m, max[i]) {
      if total <= Total(states, max) {
        NotEnough(states, b, m, i);
      } else {
        assert Drawn(states, b)[i] < Drawn(states, max)[i];
        SumOrder(Drawn(states, b), Drawn(states, max));
      }
    }
  }

  lemma {:induction false} NotEnough(states: seq<State>, b: seq<nat>, m: nat, i: nat)
    requires |states| == |b| && Charging(states, i) && b[i] < m
    requires forall k :: Charging(states, k) ==> b[k] <= m
    ensures Total(states, b) < m * Count(states)
  {
    var each := seq(|b|, _ => m);
    assert Drawn(states, b)[i] < Drawn(states, each)[i];
    SumOrder(Drawn(states, b), Drawn(states, each));
    SumScale(Drawn(states, each), Drawn(states, Ones(|b|)), m);
  }

  /** Only the lowest possible total leaves everybody at the maximum. */
  lemma {:induction false} TotalOfMaxima(states: seq<State>, max: seq<nat>, b: seq<nat>)
    requires |states| == |max| == |b| && forall i :: Charging(states, i) ==> b[i] == max[i]
    ensures Total(states, b) == Total(states, max)
  {
    assert Drawn(states, b) == Drawn(states, max);
  }

  // ------------------------------------------------------------------ the two passes

  /** Nodes already set have `given`; `left` remains for the `active` others. */
  ghost predicate Sharing(states: seq<State>, waiting: seq<nat>, given: seq<nat>, b: seq<nat>, isSet: seq<bool>,
                          total: nat, left: nat, active: nat)
  {
    && |states| == |waiting| == |given| == |b| == |isSet|
    && (forall i :: 0 <= i < |b| ==> waiting[i] == if states[i] == C && !isSet[i] then 1 else 0)
    && (forall i :: 0 <= i < |b| ==> given[i] == if states[i] == C && isSet[i] then b[i] else 0)
    && active == Sum(waiting) && left + Sum(given) == total
  }

  lemma {:induction false} SetOne(states: seq<State>, waiting: seq<nat>, given: seq<nat>, b: seq<nat>, isSet: seq<bool>,
                                  total: nat, left: nat, active: nat, n: nat, value: nat)
    requires Sharing(states, waiting, given, b, isSet, total, left, active)
    requires n < |states| && states[n] == C && !isSet[n] && value <= left
    ensures active > 0
    ensures Sharing(states, waiting[n := 0], given[n := value], b[n := value], isSet[n := true], total, left - value,
                    active - 1)
  {
    SumUpdate(waiting, n, 0);
    SumUpdate(given, n, value);
    SumPositive(waiting, n);
  }

  /** Capping a node at or below the average does not lower the average of the rest. */
  lemma {:induction false} AverageRises(left: nat, active: nat, m: nat)
    requires active > 1 && m <= left / active
    ensures m <= left && left / active <= (left - m) / (active - 1)
  {
    var q := left / active;
    Quotient(left, active);
    MultiplyOrder(1, active, q);
    assert q * active == q * (active - 1) + q;
    Quotient(left - m, active - 1);
    MultiplyOrder((left - m) / (active - 1) + 1, q, active - 1);
  }

  lemma {:induction false} AverageWithin(left: nat, active: nat)
    requires active > 0
    ensures left / active <= left && (active == 1 ==> left / active == left)
  {
    Quotient(left, active);
    MultiplyOrder(1, active, left / active);
  }

  /** First pass: nodes whose maximum does not exceed the average are set to it. */
  method CapPass(balanced: array<nat>, isSet: array<bool>, states: seq<State>, max: seq<nat>, total: nat, count: nat)
      returns (left: nat, active: nat, ghost waiting: seq<nat>, ghost given: seq<nat>)
    requires balanced.Length == isSet.Length == |states| == |max| && balanced as object != isSet
    requires count == Count(states) && total <= Total(states, max)
    requires forall i :: 0 <= i < |states| ==> !isSet[i]
    modifies balanced, isSet
    ensures Sharing(states, waiting, given, balanced[..], isSet[..], total, left, active)
    ensures forall i :: 0 <= i < |states| && states[i] != C ==> balanced[i] == old(balanced[i])
    ensures |waiting| == |given| == |states|
    ensures forall i :: Charging(states, i) && isSet[i] ==>
              balanced[i] == max[i] && (active > 0 ==> max[i] <= left / active)
    ensures forall i :: Charging(states, i) && !isSet[i] ==> active > 0 && max[i] > left / active
  {
    hide Sharing, Sum;
    left, active := total, count;
    waiting, given := Drawn(states, Ones(|states|)), seq(|states|, _ => 0);
    SharingStart(states, waiting, given, balanced[..], isSet[..], total);
    var n := 0;
    while n < |states| && active > 0
      invariant n <= |states| == |waiting| == |given|
      invariant Sharing(states, waiting, given, balanced[..], isSet[..], total, left, active)
      invariant forall i :: 0 <= i < |states| && states[i] != C ==> balanced[i] == old(balanced[i])
      invariant forall i :: Charging(states, i) && isSet[i] ==>
                  balanced[i] == max[i] && (active > 0 ==> max[i] <= left / active)
      invariant active > 0 ==> forall i :: 0 <= i < n && Charging(states, i) && !isSet[i] ==> max[i] > left / active
      decreases active, |states| - n
    {
      var average := left / active;
      if states[n] == C && !isSet[n] {
        if average >= max[n] {
          AverageWithin(left, active);
          if active > 1 {
            AverageRises(left, active, max[n]);
          }
          SetOne(states, waiting, given, balanced[..], isSet[..], total, left, active, n, max[n]);
          balanced[n] := max[n];
          isSet[n] := true;
          waiting, given := waiting[n := 0], given[n := max[n]];
          active := active - 1;
          left := left - max[n];
          n := 0;
          continue;
        }
      }
      n := n + 1;
    }
    if active == 0 {
      NobodyWaits(states, waiting, given, balanced[..], isSet[..], total, left);
    }
  }

  lemma SharingStart(states: seq<State>, waiting: seq<nat>, given: seq<nat>, b: seq<nat>, isSet: seq<bool>, total: nat)
    requires |states| == |b| == |isSet| == |given| && forall i :: 0 <= i < |b| ==> !isSet[i] && given[i] == 0
    requires waiting == Drawn(states, Ones(|states|))
    ensures Sharing(states, waiting, given, b, isSet, total, total, Count(states))
  {
    SumOfZeros(given);
  }

  lemma NobodyWaits(states: seq<State>, waiting: seq<nat>, given: seq<nat>, b: seq<nat>, isSet: seq<bool>, total: nat,
                    left: nat)
    requires Sharing(states, waiting, given, b, isSet, total, left, 0)
    ensures forall i :: Charging(states, i) ==> isSet[i]
    ensures left + Total(states, b) == total
  {
    SumZero(waiting);
    assert forall i :: 0 <= i < |b| ==> waiting[i] == 0;
    assert given == Drawn(states, b);
  }

  /** The shares of the second pass stay between the level and one above it. */
  lemma {:induction false} LevelStep(left: nat, active: nat, level: nat)
    requires active > 0 && level * active <= left <= (level + 1) * active
    ensures level <= left / active <= level + 1 && left / active <= left
    ensures level * (active - 1) <= left - left / active <= (level + 1) * (active - 1)
  {
    var q := left / active;
    Quotient(left, active);
    AverageWithin(left, active);
    MultiplyOrder(q + 1, level, active);
    MultiplyOrder(level + 2, q, active);
    assert level * (active - 1) == level * active - level
           && (level + 1) * (active - 1) == (level + 1) * active - (level + 1);
    if q == level {
      assert (q + 1) * active == (level + 1) * active;
    }
  }

  /** Second pass: the rest equally. */
  method EqualPass(balanced: array<nat>, isSet: array<bool>, states: seq<State>, total: nat, left0: nat, active0: nat,
                   ghost waiting0: seq<nat>, ghost given0: seq<nat>, ghost level: nat)
      returns (ghost left: nat)
    requires balanced.Length == isSet.Length == |states| && balanced as object != isSet
    requires Sharing(states, waiting0, given0, balanced[..], isSet[..], total, left0, active0)
    requires |waiting0| == |given0| == |states|
    requires active0 > 0 ==> level == left0 / active0
    modifies balanced, isSet
    ensures left + Total(states, balanced[..]) == total && (active0 > 0 ==> left == 0)
            && (active0 == 0 ==> left == left0)
    ensures forall i :: 0 <= i < |states| && (states[i] != C || old(isSet[i])) ==> balanced[i] == old(balanced[i])
    ensures forall i :: Charging(states, i) && !old(isSet[i]) ==> level <= balanced[i] <= level + 1
  {
    hide Sharing, Sum;
    var rest: nat, active: nat := left0, active0;
    ghost var waiting: seq<nat>, given: seq<nat> := waiting0, given0;
    LevelStart(left0, active0, level);
    var n := 0;
    while n < |states| && active > 0
      invariant n <= |states| == |waiting| == |given|
      invariant Sharing(states, waiting, given, balanced[..], isSet[..], total, rest, active)
      invariant active0 > 0 ==> level * active <= rest <= (level + 1) * active
      invariant active0 == 0 ==> active == 0 && rest == left0
      invariant forall i :: 0 <= i < |states| && (states[i] != C || old(isSet[i])) ==> balanced[i] == old(balanced[i])
      invariant forall i :: Charging(states, i) && isSet[i] && !old(isSet[i]) ==> level <= balanced[i] <= level + 1
      invariant forall i :: 0 <= i < |states| && old(isSet[i]) ==> isSet[i]
      invariant forall i :: 0 <= i < n && Charging(states, i) ==> isSet[i]
    {
      if states[n] == C && !isSet[n] {
        LevelStep(rest, active, level);
        var share := rest / active;
        SetOne(states, waiting, given, balanced[..], isSet[..], total, rest, active, n, share);
        balanced[n] := share;
        isSet[n] := true;
        waiting, given := waiting[n := 0], given[n := share];
        active := active - 1;
        rest := rest - share;
      }
      n := n + 1;
    }
    if active > 0 {
      SomebodyWaits(states, waiting, given, balanced[..], isSet[..], total, rest, active);
    }
    NobodyWaits(states, waiting, given, balanced[..], isSet[..], total, rest);
    left := rest;
  }

  lemma LevelStart(left: nat, active: nat, level: nat)
    requires active > 0 ==> level == left / active
    ensures active > 0 ==> level * active <= left <= (level + 1) * active
  {
  }

  lemma SomebodyWaits(states: seq<State>, waiting: seq<nat>, given: seq<nat>, b: seq<nat>, isSet: seq<bool>,
                      total: nat, left: nat, active: nat)
    requires Sharing(states, waiting, given, b, isSet, total, left, active) && active > 0
    ensures exists i :: Charging(states, i) && !isSet[i]
  {
    if forall i :: Charging(states, i) ==> isSet[i] {
      SumOfZeros(waiting);
    }
  }

  /** Lines 939-969 of the controller: `total` is already limited to the sum of the maxima. */
  method Distribute(balanced: array<nat>, states: seq<State>, max: seq<nat>, total: nat, count: nat)
      returns (ghost level: nat)
    requires balanced.Length == |states| == |max|
    requires count == Count(states) && total <= Total(states, max)
    modifies balanced
    ensures Levelled(states, max, balanced[..], level)
    ensures Total(states, balanced[..]) == total
    ensures forall i :: 0 <= i < |states| && states[i] != C ==> balanced[i] == old(balanced[i])
  {
    hide Sharing, Sum;
    var isSet := new bool[balanced.Length](_ => false);
    var left, active, waiting, given := CapPass(balanced, isSet, states, max, total, count);
    level := if active > 0 then left / active else Greatest(max);
    ghost var capped, before := isSet[..], balanced[..];
    ghost var rest := EqualPass(balanced, isSet, states, total, left, active, waiting, given, level);
    forall i | Charging(states, i)
      ensures if max[i] <= level then balanced[i] == max[i]
              else level <= balanced[i] <= level + 1 && balanced[i] <= max[i]
    {
      assert capped[i] ==> balanced[i] == before[i];
    }
    if active == 0 {
      TotalOfMaxima(states, max, balanced[..]);
    }
  }

  ghost function Greatest(s: seq<nat>): (g: nat)
    ensures forall i :: 0 <= i < |s| ==> s[i] <= g
  {
    if |s| == 0 then 0 else Max(Greatest(s[..|s| - 1]), s[|s| - 1])
  }
}
