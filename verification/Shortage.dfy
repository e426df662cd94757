/** Sharing too little current: the minimum current in priority order, then what is left over in
    equal shares. */
module Shortage {
  import opened CArithmetic
  import opened EvseTypes
  import opened Priority

  ghost function Sum(s: seq<nat>): nat {
    if |s| == 0 then 0 else Sum(s[..|s| - 1]) + s[|s| - 1]
  }

  lemma SumNext(s: seq<nat>, i: nat)
    requires i < |s|
    ensures Sum(s[..i + 1]) == Sum(s[..i]) + s[i]
  {
    assert s[..i + 1][..i] == s[..i];
  }

  lemma {:induction false} SumUpdate(s: seq<nat>, i: nat, v: nat)
    requires i < |s|
    ensures Sum(s[i := v]) == Sum(s) - s[i] + v
  {
    var n := |s| - 1;
    if i == n {
      assert s[i := v][..n] == s[..n];
    } else {
      assert s[i := v][..n] == s[..n][i := v];
      SumUpdate(s[..n], i, v);
    }
  }

  lemma {:induction false} SumOfZeros(a: seq<nat>)
    requires forall i :: 0 <= i < |a| ==> a[i] == 0
    ensures Sum(a) == 0
  {
    if |a| > 0 {
      SumOfZeros(a[..|a| - 1]);
    }
  }

  lemma {:induction false} SumOrder(a: seq<nat>, b: seq<nat>)
    requires |a| == |b| && forall i :: 0 <= i < |a| ==> a[i] <= b[i]
    ensures Sum(a) <= Sum(b)
    ensures (exists i :: 0 <= i < |a| && a[i] < b[i]) ==> Sum(a) < Sum(b)
  {
    if |a| > 0 {
      SumOrder(a[..|a| - 1], b[..|a| - 1]);
      if i :| 0 <= i < |a| && a[i] < b[i] {
        assert i < |a| - 1 ==> a[..|a| - 1][i] < b[..|a| - 1][i];
      }
    }
  }

  lemma {:induction false} SumsAgree(a: seq<nat>, b: seq<nat>, c: seq<nat>, d: seq<nat>)
    requires |a| == |b| == |c| == |d| && forall i :: 0 <= i < |a| ==> a[i] + b[i] == c[i] + d[i]
    ensures Sum(a) + Sum(b) == Sum(c) + Sum(d)
  {
    if |a| > 0 {
      var n := |a| - 1;
      SumsAgree(a[..n], b[..n], c[..n], d[..n]);
    }
  }

  /** b at the charging nodes, 0 elsewhere. */
  ghost function Drawn(states: seq<State>, b: seq<nat>): (d: seq<nat>)
    requires |states| == |b|
    ensures |d| == |b| && forall i :: 0 <= i < |b| ==> d[i] == if states[i] == C then b[i] else 0
  {
    seq(|b|, i requires 0 <= i < |b| => if states[i] == C then b[i] else 0)
  }

  /** The sum over the charging nodes. */
  ghost function Total(states: seq<State>, b: seq<nat>): nat
    requires |states| == |b|
  {
    Sum(Drawn(states, b))
  }

  // ------------------------------------------------------------------ minimum currents

  /** How many of the first k nodes of the order are charging. */
  ghost function ChargingBefore(order: seq<nat>, states: seq<State>, k: nat): nat
    requires k <= |order|
  {
    if k == 0 then 0
    else ChargingBefore(order, states, k - 1) + if Charging(states, order[k - 1]) then 1 else 0
  }

  /** The node at place k of the order can be given its minimum after all charging nodes before it. */
  ghost predicate Affordable(order: seq<nat>, states: seq<State>, least: nat, available: nat, k: nat)
    requires k < |order|
  {
    least * (ChargingBefore(order, states, k) + 1) <= available
  }

  /** LESS_6A is bit 0 of a node's error word. */
  function WithLess6A(e: bv16): bv16 { e | 1 }

  function WithoutLess6A(e: bv16): bv16 { e & 0xfffe }

  /** What priority scheduling decides for one node. */
  datatype Share = Share(balanced: nat, schedule: Schedule, error: bv16)

  ghost function Decision(order: seq<nat>, states: seq<State>, least: nat, available: nat, k: nat, before: Share): Share
    requires k < |order|
  {
    if !Charging(states, order[k]) then before
    else if Affordable(order, states, least, available, k) then Share(least, Active, WithoutLess6A(before.error))
    else Share(0, Paused, WithLess6A(before.error))
  }

  ghost predicate Separate(balanced: array<nat>, schedule: array<Schedule>, error: array<bv16>) {
    balanced as object != schedule && balanced as object != error && schedule as object != error
  }

  /** evse_schedule_priority.  `least` is ten times the minimum current; the program stores it in
      16 bits. */
  method SchedulePriority(order: seq<nat>, states: seq<State>, least: nat, available: nat,
                          balanced: array<nat>, schedule: array<Schedule>, error: array<bv16>)
      returns (surplus: nat)
    requires balanced.Length == schedule.Length == error.Length == |states|
    requires Permutation(order, |states|)
    requires Separate(balanced, schedule, error)
    requires least < 0x1_0000
    modifies balanced, schedule, error
    ensures forall k :: 0 <= k < |order| ==>
              Share(balanced[order[k]], schedule[order[k]], error[order[k]])
              == Decision(order, states, least, available, k,
                          old(Share(balanced[order[k]], schedule[order[k]], error[order[k]])))
    ensures surplus == available - least * Funded(order, states, least, available)
    ensures surplus + Total(states, balanced[..]) == available
  {
    hide WithLess6A, WithoutLess6A, Affordable, FundedSoFar, Sum;
    surplus := available;
    ghost var f := 0;
    ghost var paid: seq<nat> := seq(|states|, _ => 0);
    SumOfZeros(paid);
    FundedNone(order, states, least, available);
    for i := 0 to |order|
      invariant FundedSoFar(order, states, least, available, i, f, surplus)
      invariant |paid| == |states| && surplus + Sum(paid) == available
      invariant PaidSoFar(order, states, balanced[..], paid, i)
      invariant forall k :: 0 <= k < i ==>
                  Share(balanced[order[k]], schedule[order[k]], error[order[k]])
                  == Decision(order, states, least, available, k,
                              old(Share(balanced[order[k]], schedule[order[k]], error[order[k]])))
      invariant forall k :: i <= k < |order| ==>
                  Share(balanced[order[k]], schedule[order[k]], error[order[k]])
                  == old(Share(balanced[order[k]], schedule[order[k]], error[order[k]]))
    {
      var idx := order[i];
      if states[idx] == C {
        FundedStep(order, states, least, available, i, f, surplus);
        var enough := surplus >= least;
        Assign(balanced, schedule, error, idx, enough, least);
        SumUpdate(paid, idx, balanced[idx]);
        paid := paid[idx := balanced[idx]];
        if enough {
          surplus := surplus - least;
          f := f + 1;
        }
      } else {
        FundedSkip(order, states, least, available, i, f, surplus);
      }
    }
    FundedTotal(order, states, least, available, f, surplus);
    AllPaid(order, states, balanced[..], paid);
  }

  /** `paid` holds what the charging nodes among the first i of the order have, and 0 elsewhere. */
  ghost predicate PaidSoFar(order: seq<nat>, states: seq<State>, b: seq<nat>, paid: seq<nat>, i: nat)
    requires |states| == |b| == |paid| && i <= |order| && forall k :: 0 <= k < |order| ==> order[k] < |states|
  {
    && (forall n :: 0 <= n < |states| && !Charging(states, n) ==> paid[n] == 0)
    && (forall k :: 0 <= k < i ==> Charging(states, order[k]) ==> paid[order[k]] == b[order[k]])
    && (forall k :: i <= k < |order| ==> paid[order[k]] == 0)
  }

  lemma {:induction false} AllPaid(order: seq<nat>, states: seq<State>, b: seq<nat>, paid: seq<nat>)
    requires |states| == |b| == |paid| && Permutation(order, |states|) && PaidSoFar(order, states, b, paid, |order|)
    ensures Sum(paid) == Total(states, b)
  {
    forall n | 0 <= n < |states|
      ensures paid[n] == Drawn(states, b)[n]
    {
      var k := Find(order, |states|, n);
    }
    assert paid == Drawn(states, b);
  }

  method Assign(balanced: array<nat>, schedule: array<Schedule>, error: array<bv16>, idx: nat, paid: bool, least: nat)
    requires idx < balanced.Length == schedule.Length == error.Length && Separate(balanced, schedule, error)
    modifies balanced, schedule, error
    ensures forall n :: 0 <= n < balanced.Length && n != idx ==>
              Share(balanced[n], schedule[n], error[n]) == old(Share(balanced[n], schedule[n], error[n]))
    ensures Share(balanced[idx], schedule[idx], error[idx])
         == if paid then Share(least, Active, WithoutLess6A(old(error[idx])))
             else Share(0, Paused, WithLess6A(old(error[idx])))
  {
    if paid {
      balanced[idx] := least;
      schedule[idx] := Active;
      error[idx] := WithoutLess6A(error[idx]);
    } else {
      balanced[idx] := 0;
      schedule[idx] := Paused;
      error[idx] := WithLess6A(error[idx]);
    }
  }

  /** The number of nodes that receive their minimum: as many as the current pays for. */
  ghost function Funded(order: seq<nat>, states: seq<State>, least: nat, available: nat): nat {
    var charging := ChargingBefore(order, states, |order|);
    if least == 0 || charging <= available / least then charging else available / least
  }

  /** After i places f nodes are funded: all charging ones, or all that can be paid for. */
  ghost predicate FundedSoFar(order: seq<nat>, states: seq<State>, least: nat, available: nat, i: nat, f: nat,
                              left: nat)
    requires i <= |order|
  {
    && f <= ChargingBefore(order, states, i)
    && left == available - least * f
    && (f == ChargingBefore(order, states, i) || left < least)
  }

  lemma FundedNone(order: seq<nat>, states: seq<State>, least: nat, available: nat)
    ensures FundedSoFar(order, states, least, available, 0, 0, available)
  {
  }

  lemma FundedSkip(order: seq<nat>, states: seq<State>, least: nat, available: nat, i: nat, f: nat, left: nat)
    requires i < |order| && FundedSoFar(order, states, least, available, i, f, left) && !Charging(states, order[i])
    ensures FundedSoFar(order, states, least, available, i + 1, f, left)
  {
  }

  lemma {:induction false} FundedStep(order: seq<nat>, states: seq<State>, least: nat, available: nat, i: nat, f: nat,
                                      left: nat)
    requires i < |order| && FundedSoFar(order, states, least, available, i, f, left)
    requires Charging(states, order[i])
    ensures Affordable(order, states, least, available, i) <==> left >= least
    ensures if left >= least then FundedSoFar(order, states, least, available, i + 1, f + 1, left - least)
            else FundedSoFar(order, states, least, available, i + 1, f, left)
  {
  }

  lemma {:induction false} FundedTotal(order: seq<nat>, states: seq<State>, least: nat, available: nat, f: nat,
                                       left: nat)
    requires FundedSoFar(order, states, least, available, |order|, f, left)
    ensures f == Funded(order, states, least, available) && left == available - least * f
  {
    hide ChargingBefore;
    if least > 0 {
      QuotientOf(available, least, f, left);
    }
  }

  lemma QuotientOf(available: nat, least: nat, f: nat, left: nat)
    requires least > 0 && left == available - least * f
    ensures f <= available / least
    ensures left < least ==> f == available / least
  {
    Quotient(available, least);
    var q := available / least;
    MultiplyOrder(f, q, least);
    MultiplyOrder(q + 1, f, least);
    MultiplyOrder(f + 1, q, least);
  }

  lemma WithinQuotient(least: nat, available: nat, n: nat)
    requires least > 0
    ensures least * (n + 1) <= available <==> n < available / least
  {
    var q := available / least;
    Quotient(available, least);
    MultiplyOrder(n + 1, q, least);
    MultiplyOrder(q + 1, n + 1, least);
  }

  /** Exactly the first charging nodes of the order receive their minimum, as many as are funded. */
  lemma {:induction false} FirstAreFunded(order: seq<nat>, states: seq<State>, least: nat, available: nat, k: nat)
    requires k < |order| && Charging(states, order[k])
    ensures Affordable(order, states, least, available, k) <==>
              ChargingBefore(order, states, k) < Funded(order, states, least, available)
  {
    ChargingMonotone(order, states, k + 1, |order|);
    assert ChargingBefore(order, states, k) < ChargingBefore(order, states, |order|);
    hide ChargingBefore;
    if least > 0 {
      WithinQuotient(least, available, ChargingBefore(order, states, k));
    }
  }

  /** No priority inversion: a charging node that got its minimum precedes every one that did not. */
  lemma {:induction false} NoInversion(c: Criteria, order: seq<nat>, least: nat, available: nat, i: nat, j: nat)
    requires PriorityOrder(c, order, |c.states|)
    requires i < |order| && j < |order| && Charging(c.states, order[i]) && Charging(c.states, order[j])
    requires Affordable(order, c.states, least, available, i) && !Affordable(order, c.states, least, available, j)
    ensures Precedes(c, order[i], order[j])
  {
    hide Precedes;
    if j < i {
      ChargingMonotone(order, c.states, j, i);
      MultiplyOrder(ChargingBefore(order, c.states, j) + 1, ChargingBefore(order, c.states, i) + 1, least);
    }
  }

  lemma {:induction false} ChargingMonotone(order: seq<nat>, states: seq<State>, i: nat, j: nat)
    requires i <= j <= |order|
    ensures ChargingBefore(order, states, i) <= ChargingBefore(order, states, j)
  {
    if i < j {
      ChargingMonotone(order, states, i, j - 1);
    }
  }
}
