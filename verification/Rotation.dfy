/** The one-second scheduler tick: nodes that left, idle nodes, and the rotation timer. */
module Rotation {
  import opened CArithmetic
  import opened EvseTypes
  import opened Priority

  const IDLE_THRESHOLD := 10

  /** The smallest index from `from` on at which p holds; |p| when there is none. */
  ghost function Least(p: seq<bool>, from: nat): (k: nat)
    requires from <= |p|
    ensures from <= k <= |p|
    ensures k < |p| ==> p[k]
    ensures forall i :: from <= i < k ==> !p[i]
    decreases |p| - from
  {
    if from == |p| || p[from] then from else Least(p, from + 1)
  }

  // ------------------------------------------------------------------ specification

  /** What the tick reads. */
  datatype Inputs = Inputs(states: seq<State>, strategy: Strategy, idleTimeout: nat, interval: nat, evMeasured: int)

  /** What it keeps between ticks. */
  datatype Slots = Slots(schedule: seq<Schedule>, idle: seq<nat>, balanced: seq<nat>, timer: nat)

  ghost predicate Sized(x: Inputs, s: Slots) {
    |x.states| == |s.schedule| == |s.idle| == |s.balanced|
  }

  /** Nodes that are not charging lose their slot and their connection time. */
  ghost function Cleaned(states: seq<State>, schedule: seq<Schedule>): (c: seq<Schedule>)
    requires |states| == |schedule|
    ensures |c| == |states| && forall i :: 0 <= i < |c| ==> c[i] == if states[i] == C then schedule[i] else Inactive
  {
    seq(|states|, i requires 0 <= i < |states| => if states[i] == C then schedule[i] else Inactive)
  }

  ghost function Connected(states: seq<State>, times: seq<nat>, uptime: nat): (c: seq<nat>)
    requires |states| == |times|
    ensures |c| == |states|
    ensures forall i :: 0 <= i < |c| ==> c[i] == if states[i] != C then 0 else if times[i] == 0 then uptime
              else times[i]
  {
    seq(|states|, i requires 0 <= i < |states| => if states[i] != C then 0 else if times[i] == 0 then uptime
        else times[i])
  }

  /** Somebody has a slot and somebody waits for one. */
  ghost predicate Contended(schedule: seq<Schedule>) {
    Active in schedule && Paused in schedule
  }

  ghost function Aged(s: Slots): (a: seq<nat>)
    requires |s.schedule| == |s.idle|
    ensures |a| == |s.idle|
    ensures forall i :: 0 <= i < |a| ==> a[i] == if s.schedule[i] == Active then ToUint16(s.idle[i] + 1) else s.idle[i]
  {
    seq(|s.idle|, i requires 0 <= i < |s.idle| => if s.schedule[i] == Active then ToUint16(s.idle[i] + 1)
        else s.idle[i])
  }

  /** Node i draws current as far as the meter can tell. */
  predicate Draws(x: Inputs, balanced: nat) { balanced > 0 && x.evMeasured >= IDLE_THRESHOLD }

  /** The nodes whose idle time is over: drawing ones (`draws`) or idle ones. */
  ghost function Expired(x: Inputs, s: Slots, draws: bool): (p: seq<bool>)
    requires Sized(x, s)
    ensures |p| == |x.states|
    ensures forall i :: 0 <= i < |p| ==>
              p[i] == (s.schedule[i] == Active && s.idle[i] >= x.idleTimeout && Draws(x, s.balanced[i]) == draws)
  {
    seq(|x.states|, i requires 0 <= i < |x.states| =>
      s.schedule[i] == Active && s.idle[i] >= x.idleTimeout && Draws(x, s.balanced[i]) == draws)
  }

  ghost function ActiveAt(schedule: seq<Schedule>): (p: seq<bool>)
    ensures |p| == |schedule| && forall i :: 0 <= i < |p| ==> p[i] == (schedule[i] == Active)
  {
    seq(|schedule|, i requires 0 <= i < |schedule| => schedule[i] == Active)
  }

  /** Which places of the order hold waiting nodes. */
  ghost function WaitingAt(order: seq<nat>, schedule: seq<Schedule>): (p: seq<bool>)
    requires forall k :: 0 <= k < |order| ==> order[k] < |schedule|
    ensures |p| == |order| && forall k :: 0 <= k < |p| ==> p[k] == (schedule[order[k]] == Paused)
  {
    seq(|order|, k requires 0 <= k < |order| => schedule[order[k]] == Paused)
  }

  ghost function Period(x: Inputs): nat { ToUint16(x.interval * 60) }

  /** The rotation timer once it has been started by a node that has had its time. */
  ghost function Started(x: Inputs, s: Slots): nat
    requires Sized(x, s)
  {
    if true in Expired(x, s, true) && x.interval > 0 && s.timer == 0 then Period(x) else s.timer
  }

  /** Node i hands its slot to node j. */
  ghost function HandOver(s: Slots, i: nat, j: nat, timer: nat): Slots
    requires i < |s.schedule| == |s.idle| == |s.balanced| && j < |s.schedule|
  {
    Slots(s.schedule[i := Paused][j := Active], s.idle[j := 0], s.balanced[i := 0], timer)
  }

  /** The place of node i in the order. */
  ghost predicate PlaceOf(order: seq<nat>, i: nat, place: nat) { place < |order| && order[place] == i }

  /** The next waiting node in cyclic order after `place`. */
  ghost function NextWaiting(order: seq<nat>, schedule: seq<Schedule>, place: nat): (k: nat)
    requires place < |order| && forall k :: 0 <= k < |order| ==> order[k] < |schedule|
  {
    var p := WaitingAt(order, schedule);
    var later := Least(p, place + 1);
    if later < |order| then later else Least(p, 0)
  }

  /** The slots after the tick, given the slots after the clean-up and the priority order. */
  ghost predicate After(x: Inputs, s: Slots, order: seq<nat>, t: Slots)
    requires Sized(x, s) && forall k :: 0 <= k < |order| ==> order[k] < |x.states|
  {
    if !Contended(s.schedule) then t == s
    else
      var aged := s.(idle := Aged(s));
      var idle := Least(Expired(x, aged, false), 0);
      if idle < |x.states| then
        var k := Least(WaitingAt(order, s.schedule), 0);
        k < |order| && t == HandOver(aged, idle, order[k], if x.interval > 0 then Period(x) else 0)
      else
        var timer := Started(x, aged);
        if x.interval == 0 || timer == 0 then t == aged.(timer := timer)
        else if timer > 1 then t == aged.(timer := timer - 1)
        else
          var i := Least(ActiveAt(s.schedule), 0);
          i < |x.states|
          && exists place :: PlaceOf(order, i, place) &&
               (var k := NextWaiting(order, s.schedule, place);
                k < |order| && t == HandOver(aged, i, order[k], Period(x)))
  }

  // ------------------------------------------------------------------ what it means

  ghost function Number(schedule: seq<Schedule>, kind: Schedule): nat {
    multiset(schedule)[kind]
  }

  /** At most one exchange, between two different charging nodes: one active, one waiting. */
  ghost predicate Exchanged(states: seq<State>, s: seq<Schedule>, t: seq<Schedule>) {
    |states| == |s| == |t|
    && (s == t || exists i, j :: Charging(states, i) && Charging(states, j) && i != j
                    && s[i] == Active && s[j] == Paused && t == s[i := Paused][j := Active])
  }

  /** After the clean-up a tick conserves the numbers of active and of paused nodes. */
  lemma {:induction false} SlotsConserved(x: Inputs, s: Slots, c: Criteria, order: seq<nat>, t: Slots)
    requires Sized(x, s) && c.states == x.states && (s.schedule == t.schedule || PriorityOrder(c, order, |x.states|))
    requires forall k :: 0 <= k < |order| ==> order[k] < |x.states|
    requires s.schedule == Cleaned(x.states, s.schedule)
    requires After(x, s, order, t)
    ensures Exchanged(x.states, s.schedule, t.schedule)
    ensures Number(t.schedule, Active) == Number(s.schedule, Active)
    ensures Number(t.schedule, Paused) == Number(s.schedule, Paused)
  {
    hide Precedes;
    if s.schedule != t.schedule {
      var i, j := Swapped(x, s, order, t);
      ExchangeCounts(s.schedule, i, j);
    }
  }

  lemma {:induction false} Swapped(x: Inputs, s: Slots, order: seq<nat>, t: Slots) returns (i: nat, j: nat)
    requires Sized(x, s) && Permutation(order, |x.states|)
    requires s.schedule == Cleaned(x.states, s.schedule)
    requires After(x, s, order, t) && s.schedule != t.schedule
    ensures Charging(x.states, i) && Charging(x.states, j) && i != j
    ensures s.schedule[i] == Active && s.schedule[j] == Paused && t.schedule == s.schedule[i := Paused][j := Active]
  {
    var aged := s.(idle := Aged(s));
    i := Least(Expired(x, aged, false), 0);
    if i < |x.states| {
      j := order[Least(WaitingAt(order, s.schedule), 0)];
    } else {
      i := Least(ActiveAt(s.schedule), 0);
      var timer := Started(x, aged);
      var place :| PlaceOf(order, i, place) &&
               (var k := NextWaiting(order, s.schedule, place);
                k < |order| && t == HandOver(aged, i, order[k], Period(x)));
      j := order[NextWaiting(order, s.schedule, place)];
    }
  }

  lemma ExchangeCounts(s: seq<Schedule>, i: nat, j: nat)
    requires i < |s| && j < |s| && i != j && s[i] == Active && s[j] == Paused
    ensures multiset(s[i := Paused][j := Active]) == multiset(s)
  {
  }

  /** Every node between `place` and the next waiting one, going round, is not waiting. */
  lemma {:induction false} NextIsCyclic(order: seq<nat>, schedule: seq<Schedule>, place: nat)
    requires place < |order| && forall k :: 0 <= k < |order| ==> order[k] < |schedule|
    requires schedule[order[place]] == Active && exists k :: 0 <= k < |order| && schedule[order[k]] == Paused
    ensures CyclicNext(order, schedule, place, NextWaiting(order, schedule, place))
  {
  }

  /** k is the place of the next waiting node in cyclic order after `place`. */
  ghost predicate CyclicNext(order: seq<nat>, schedule: seq<Schedule>, place: nat, k: nat)
    requires forall m :: 0 <= m < |order| ==> order[m] < |schedule|
  {
    && place < |order| && k < |order| && k != place && schedule[order[k]] == Paused
    && forall m :: 0 <= m < |order| && (if k > place then place < m < k else m > place || m < k) ==>
         schedule[order[m]] != Paused
  }

  /** Node i has had its slot for the idle time, this tick included, and draws nothing: it has no
      current, or the meter shows less than 1 A. */
  ghost predicate IdleBeyond(x: Inputs, s: Slots, i: nat)
    requires Sized(x, s)
  {
    && i < |x.states| && s.schedule[i] == Active && (s.idle[i] + 1) % 0x1_0000 >= x.idleTimeout
    && (s.balanced[i] == 0 || x.evMeasured < 10)
  }

  /** Node i has had its slot for the idle time and draws. */
  ghost predicate Served(x: Inputs, s: Slots, i: nat)
    requires Sized(x, s)
  {
    && i < |x.states| && s.schedule[i] == Active && (s.idle[i] + 1) % 0x1_0000 >= x.idleTimeout
    && s.balanced[i] > 0 && x.evMeasured >= 10
  }

  ghost predicate SomeoneIdle(x: Inputs, s: Slots)
    requires Sized(x, s)
  {
    exists i: nat :: IdleBeyond(x, s, i)
  }

  ghost predicate FirstIdle(x: Inputs, s: Slots, i: nat)
    requires Sized(x, s)
  {
    IdleBeyond(x, s, i) && forall m: nat :: m < i ==> !IdleBeyond(x, s, m)
  }

  /** The rotation timer ends with this tick. */
  ghost predicate RunsOut(x: Inputs, s: Slots) {
    Active in s.schedule && Paused in s.schedule && x.interval > 0 && s.timer == 1
  }

  lemma {:induction false} IdleIsExpired(x: Inputs, s: Slots)
    requires Sized(x, s)
    ensures var victim := Least(Expired(x, s.(idle := Aged(s)), false), 0);
            if SomeoneIdle(x, s) then victim < |x.states| && FirstIdle(x, s, victim) else victim == |x.states|
  {
    var p := Expired(x, s.(idle := Aged(s)), false);
    forall i: nat | i < |x.states|
      ensures p[i] <==> IdleBeyond(x, s, i)
    {
    }
    if i: nat :| IdleBeyond(x, s, i) {
      assert p[i];
    }
  }

  /** A period is a multiple of four seconds, so a timer just started does not end at once. */
  lemma {:induction false} StartedExactly(x: Inputs, s: Slots)
    requires Sized(x, s)
    ensures Started(x, s.(idle := Aged(s)))
         == if x.interval > 0 && s.timer == 0 && exists i: nat :: Served(x, s, i) then x.interval * 60 % 0x1_0000
            else s.timer
    ensures Started(x, s.(idle := Aged(s))) == 1 <==> s.timer == 1
  {
    var p := Expired(x, s.(idle := Aged(s)), true);
    forall i: nat | i < |x.states|
      ensures p[i] <==> Served(x, s, i)
    {
    }
    assert true in p <==> exists i: nat :: Served(x, s, i) by {
      if i: nat :| Served(x, s, i) {
        assert p[i];
      }
    }
    PeriodIsEven(x.interval);
  }

  lemma PeriodIsEven(interval: nat)
    ensures interval * 60 % 0x1_0000 != 1
  {
  }

  /** When the timer runs out, and nobody is idle, the first active node pauses, and its slot goes to the
      next waiting node in cyclic priority order. */
  lemma {:induction false} RotationIsCyclic(x: Inputs, s: Slots, order: seq<nat>, t: Slots)
      returns (place: nat, k: nat)
    requires Sized(x, s) && Permutation(order, |x.states|) && After(x, s, order, t)
    requires RunsOut(x, s) && !SomeoneIdle(x, s)
    ensures place < |order| && s.schedule[order[place]] == Active
    ensures forall i :: 0 <= i < order[place] ==> s.schedule[i] != Active
    ensures CyclicNext(order, s.schedule, place, k)
    ensures t.schedule == s.schedule[order[place] := Paused][order[k] := Active]
    ensures t.balanced == s.balanced[order[place] := 0] && t.idle == Aged(s)[order[k] := 0] && t.timer == Period(x)
  {
    hide Started, Period, SomeoneIdle;
    var aged := s.(idle := Aged(s));
    var i := Least(ActiveAt(s.schedule), 0);
    IdleIsExpired(x, s);
    StartedExactly(x, s);
    SomeoneInOrder(order, s.schedule);
    place :| PlaceOf(order, i, place) &&
               (var k := NextWaiting(order, s.schedule, place);
                k < |order| && t == HandOver(aged, i, order[k], Period(x)));
    k := NextWaiting(order, s.schedule, place);
    NextIsCyclic(order, s.schedule, place);
  }

  lemma SomeoneInOrder(order: seq<nat>, schedule: seq<Schedule>)
    requires Permutation(order, |schedule|) && Contended(schedule)
    ensures exists k :: 0 <= k < |order| && schedule[order[k]] == Paused
  {
    var i :| 0 <= i < |schedule| && schedule[i] == Paused;
    var k := Find(order, |schedule|, i);
  }

  /** While nobody is idle, the slots change exactly when the timer runs out. */
  lemma {:induction false} RotatesExactly(x: Inputs, s: Slots, order: seq<nat>, t: Slots)
    requires Sized(x, s) && Permutation(order, |x.states|) && After(x, s, order, t) && !SomeoneIdle(x, s)
    ensures t.schedule != s.schedule <==> RunsOut(x, s)
  {
    hide SomeoneIdle;
    if RunsOut(x, s) {
      var place, k := RotationIsCyclic(x, s, order, t);
      assert t.schedule[order[k]] == Active;
    } else {
      IdleIsExpired(x, s);
      StartedExactly(x, s);
    }
  }

  /** The first node that is idle beyond its time pauses and loses its current, and its slot goes to the
      first waiting node of the order; no other slot changes. */
  lemma {:induction false} IdleHandsOver(x: Inputs, s: Slots, order: seq<nat>, t: Slots) returns (i: nat, k: nat)
    requires Sized(x, s) && Permutation(order, |x.states|) && After(x, s, order, t)
    requires Active in s.schedule && Paused in s.schedule && SomeoneIdle(x, s)
    ensures i < |x.states| && FirstIdle(x, s, i) && s.schedule[i] == Active
    ensures k < |order| && s.schedule[order[k]] == Paused
    ensures forall m :: 0 <= m < k ==> s.schedule[order[m]] != Paused
    ensures t.schedule == s.schedule[i := Paused][order[k] := Active]
    ensures t.balanced == s.balanced[i := 0] && t.idle == Aged(s)[order[k] := 0]
    ensures t.timer == if x.interval > 0 then x.interval * 60 % 0x1_0000 else 0
  {
    hide SomeoneIdle, FirstIdle;
    IdleIsExpired(x, s);
    i := Least(Expired(x, s.(idle := Aged(s)), false), 0);
    k := Least(WaitingAt(order, s.schedule), 0);
  }

  /** Which node loses its slot: the first idle one, or, if there is none and the timer runs out, the first
      active one. */
  lemma {:induction false} LosesSlotExactly(x: Inputs, s: Slots, order: seq<nat>, t: Slots, i: nat)
    requires Sized(x, s) && Permutation(order, |x.states|) && After(x, s, order, t)
    requires i < |x.states| && s.schedule[i] == Active && Paused in s.schedule
    ensures |t.schedule| == |s.schedule|
    ensures t.schedule[i] != Active
       <==> if SomeoneIdle(x, s) then FirstIdle(x, s, i)
            else RunsOut(x, s) && forall m :: 0 <= m < i ==> s.schedule[m] != Active
  {
    hide After, SomeoneIdle, IdleBeyond;
    if SomeoneIdle(x, s) {
      var v, k := IdleHandsOver(x, s, order, t);
      assert FirstIdle(x, s, i) <==> i == v;
    } else if RunsOut(x, s) {
      var place, k := RotationIsCyclic(x, s, order, t);
    } else {
      RotatesExactly(x, s, order, t);
    }
  }

  /** The rotation timer: started by a node that has had its time and draws, counted down while nobody is
      idle, started again when it ends. */
  lemma {:induction false} TimerExactly(x: Inputs, s: Slots, order: seq<nat>, t: Slots)
    requires Sized(x, s) && Permutation(order, |x.states|) && After(x, s, order, t)
    requires Active in s.schedule && Paused in s.schedule && !SomeoneIdle(x, s)
    ensures t.timer
         == if x.interval == 0 then s.timer
            else if s.timer == 1 then x.interval * 60 % 0x1_0000
            else if s.timer > 1 then s.timer - 1
            else if exists i: nat :: Served(x, s, i) then Max(0, x.interval * 60 % 0x1_0000 - 1)
            else 0
  {
    hide SomeoneIdle, Served;
    IdleIsExpired(x, s);
    StartedExactly(x, s);
    if RunsOut(x, s) {
      var place, k := RotationIsCyclic(x, s, order, t);
    }
  }

  /** Nothing happens to the slots unless somebody has one and somebody waits for one. */
  lemma UncontendedRests(x: Inputs, s: Slots, order: seq<nat>, t: Slots)
    requires Sized(x, s) && (forall k :: 0 <= k < |order| ==> order[k] < |x.states|) && After(x, s, order, t)
    ensures Active !in s.schedule || Paused !in s.schedule ==> t == s
  {
  }

  // ------------------------------------------------------------------ connection times

  /** The clean-up of one tick. */
  datatype Moment = Moment(states: seq<State>, uptime: nat)

  ghost predicate Moments(ms: seq<Moment>, n: nat) {
    forall k :: 0 <= k < |ms| ==> |ms[k].states| == n && ms[k].uptime > 0
  }

  /** The connection times after some ticks. */
  ghost function Times(ms: seq<Moment>, start: seq<nat>): (t: seq<nat>)
    requires Moments(ms, |start|)
    ensures |t| == |start|
  {
    if |ms| == 0 then start
    else Connected(ms[|ms| - 1].states, Times(ms[..|ms| - 1], start), ms[|ms| - 1].uptime)
  }

  /** A node's connection time is the time of the tick that first found it charging, without a break
      since; without a charge it is 0. */
  lemma {:induction false} ConnectedSince(ms: seq<Moment>, start: seq<nat>, i: nat) returns (j: nat)
    requires |ms| > 0 && Moments(ms, |start|) && i < |start| && start[i] == 0
    ensures if ms[|ms| - 1].states[i] != C then Times(ms, start)[i] == 0
            else
              && j < |ms| && Times(ms, start)[i] == ms[j].uptime
              && (forall k :: j <= k < |ms| ==> ms[k].states[i] == C)
              && (j > 0 ==> ms[j - 1].states[i] != C)
  {
    j := |ms| - 1;
    if j > 0 {
      var before := ms[..j];
      var m := ConnectedSince(before, start, i);
      if before[j - 1].states[i] == C {
        j := m;
      }
    }
  }

  // ------------------------------------------------------------------ the program

  /** The first loop: connection times and slots of the nodes that are not charging. */
  method CleanUp(states: seq<State>, schedule: array<Schedule>, connected: array<nat>, uptime: nat)
    requires schedule.Length == connected.Length == |states| && schedule as object != connected
    modifies schedule, connected
    ensures schedule[..] == Cleaned(states, old(schedule[..]))
    ensures connected[..] == Connected(states, old(connected[..]), uptime)
  {
    for i := 0 to |states|
      invariant forall k :: 0 <= k < i ==> schedule[k] == Cleaned(states, old(schedule[..]))[k]
      invariant forall k :: 0 <= k < i ==> connected[k] == Connected(states, old(connected[..]), uptime)[k]
      invariant forall k :: i <= k < |states| ==> schedule[k] == old(schedule[k]) && connected[k] == old(connected[k])
    {
      if states[i] == C && connected[i] == 0 {
        connected[i] := uptime;
      } else if states[i] != C {
        connected[i] := 0;
        schedule[i] := Inactive;
      }
    }
  }

  /** The second loop: is anything to be rotated? */
  method IsContended(schedule: array<Schedule>) returns (contended: bool)
    ensures contended == Contended(schedule[..])
  {
    var activeIdx, pausedCount := -1, 0;
    for i := 0 to schedule.Length
      invariant activeIdx >= 0 <==> Active in schedule[..i]
      invariant pausedCount > 0 <==> Paused in schedule[..i]
      invariant activeIdx >= -1 && pausedCount >= 0
    {
      assert schedule[..i + 1] == schedule[..i] + [schedule[i]];
      if schedule[i] == Active {
        activeIdx := i;
      }
      if schedule[i] == Paused {
        pausedCount := pausedCount + 1;
      }
    }
    assert schedule[..] == schedule[..schedule.Length];
    contended := !(pausedCount == 0 || activeIdx < 0);
  }

  method Age(schedule: array<Schedule>, idle: array<nat>)
    requires schedule.Length == idle.Length && schedule as object != idle
    modifies idle
    ensures forall s: Slots :: s.schedule == schedule[..] && s.idle == old(idle[..]) ==> idle[..] == Aged(s)
  {
    for i := 0 to idle.Length
      invariant forall k :: 0 <= k < i ==> idle[k] == if schedule[k] == Active then ToUint16(old(idle[k]) + 1)
                  else old(idle[k])
      invariant forall k :: i <= k < idle.Length ==> idle[k] == old(idle[k])
    {
      if schedule[i] == Active {
        idle[i] := ToUint16(idle[i] + 1);
      }
    }
  }

  /** The third loop, up to the first idle node; drawing nodes on the way start the timer. */
  method FindIdle(x: Inputs, schedule: array<Schedule>, idle: array<nat>, balanced: array<nat>, timer: nat)
      returns (victim: nat, newTimer: nat)
    requires schedule.Length == idle.Length == balanced.Length == |x.states|
    ensures var s := Slots(schedule[..], idle[..], balanced[..], timer);
            victim == Least(Expired(x, s, false), 0) && (victim == |x.states| ==> newTimer == Started(x, s))
  {
    ghost var s := Slots(schedule[..], idle[..], balanced[..], timer);
    ghost var draws, idles := Expired(x, s, true), Expired(x, s, false);
    newTimer := timer;
    victim := 0;
    while victim < |x.states|
      invariant victim <= |x.states|
      invariant Least(idles, victim) == Least(idles, 0)
      invariant newTimer == if true in draws[..victim] && x.interval > 0 && timer == 0 then Period(x) else timer
    {
      assert draws[..victim + 1] == draws[..victim] + [draws[victim]];
      if schedule[victim] == Active && idle[victim] >= x.idleTimeout {
        if Draws(x, balanced[victim]) {
          if x.interval > 0 && newTimer == 0 {
            newTimer := ToUint16(x.interval * 60);
          }
        } else {
          return;
        }
      }
      victim := victim + 1;
    }
    assert draws[..victim] == draws;
  }

  /** The scan that follows an idle node: the first waiting node of the order. */
  method FirstWaiting(order: array<nat>, states: seq<State>, schedule: array<Schedule>, i: nat,
                      ghost before: seq<Schedule>)
      returns (k: nat)
    requires order.Length == schedule.Length == |states| && forall p :: 0 <= p < order.Length ==> order[p] < |states|
    requires i < |states| == |before| && before == Cleaned(states, before) && before[i] == Active
    requires schedule[..] == before[i := Paused]
    ensures k == Least(WaitingAt(order[..], before), 0)
  {
    ghost var waiting := WaitingAt(order[..], before);
    k := 0;
    while k < order.Length
      invariant k <= order.Length && Least(waiting, k) == Least(waiting, 0)
    {
      var next := order[k];
      assert waiting[k] == (before[next] == Paused);
      if next != i && states[next] == C && schedule[next] == Paused {
        return;
      }
      k := k + 1;
    }
  }

  /** The scans that follow an expired timer: behind node i in the order, then from the start. */
  method WaitingAfter(order: array<nat>, states: seq<State>, schedule: array<Schedule>, i: nat,
                      ghost before: seq<Schedule>, ghost place: nat)
      returns (k: nat)
    requires order.Length == schedule.Length == |states| && Permutation(order[..], |states|)
    requires PlaceOf(order[..], i, place)
    requires |before| == |states| && before == Cleaned(states, before) && i < |states| && before[i] == Active
             && Contended(before)
    requires schedule[..] == before[i := Paused]
    ensures k == NextWaiting(order[..], before, place) < order.Length
  {
    ghost var waiting := WaitingAt(order[..], before);
    SomeoneWaits(order[..], before);
    k := 0;
    var pastCurrent := false;
    while k < order.Length
      invariant k <= order.Length && pastCurrent == (place < k)
      invariant pastCurrent ==> Least(waiting, k) == Least(waiting, place + 1)
    {
      var next := order[k];
      assert waiting[k] == (before[next] == Paused);
      if next == i {
        pastCurrent := true;
      } else if pastCurrent && states[next] == C && schedule[next] == Paused {
        return;
      }
      k := k + 1;
    }
    k := 0;
    while k < order.Length
      invariant k <= place && Least(waiting, k) == Least(waiting, 0)
    {
      var next := order[k];
      assert waiting[k] == (before[next] == Paused);
      if states[next] == C && schedule[next] == Paused {
        return;
      }
      k := k + 1;
    }
  }

  /** The first scan behind an idle node always finds a successor, another node than the idle one: the
      second scan, lines 1114-1128 of the controller, is never reached. */
  lemma {:induction false} SuccessorFound(order: seq<nat>, schedule: seq<Schedule>, i: nat)
    requires Permutation(order, |schedule|) && i < |schedule| && schedule[i] == Active && Contended(schedule)
    ensures var k := Least(WaitingAt(order, schedule), 0);
            k < |order| && order[k] != i && schedule[order[k]] == Paused
  {
    SomeoneWaits(order, schedule);
  }

  /** The order lists everybody, so a waiting node has a place in it. */
  lemma {:induction false} SomeoneWaits(order: seq<nat>, schedule: seq<Schedule>)
    requires Permutation(order, |schedule|) && Contended(schedule)
    ensures Least(WaitingAt(order, schedule), 0) < |order|
    ensures Least(ActiveAt(schedule), 0) < |schedule|
  {
    var i :| 0 <= i < |schedule| && schedule[i] == Paused;
    var k := Find(order, |schedule|, i);
    assert WaitingAt(order, schedule)[k];
    var a :| 0 <= a < |schedule| && schedule[a] == Active;
    assert ActiveAt(schedule)[a];
  }

  ghost predicate Separate(schedule: array<Schedule>, connected: array<nat>, idle: array<nat>, balanced: array<nat>,
                           priority: array<nat>) {
    && schedule as object !in {connected, idle, balanced, priority}
    && connected !in {idle, balanced, priority} && idle !in {balanced, priority} && balanced != priority
  }

  /** evse_schedule_tick_1s; `order` is the priority order, if it was needed. */
  method Tick(x: Inputs, schedule: array<Schedule>, connected: array<nat>, idle: array<nat>, balanced: array<nat>,
              priority: array<nat>, timer: nat, uptime: nat)
      returns (newTimer: nat, newUptime: nat, ghost order: seq<nat>)
    requires |x.states| == schedule.Length == connected.Length == idle.Length == balanced.Length == priority.Length
    requires Separate(schedule, connected, idle, balanced, priority)
    modifies schedule, connected, idle, balanced, priority
    ensures newUptime == (uptime + 1) % 0x1_0000_0000
    ensures connected[..] == Connected(x.states, old(connected[..]), newUptime)
    ensures forall k :: 0 <= k < |order| ==> order[k] < |x.states|
    ensures After(x, Slots(Cleaned(x.states, old(schedule[..])), old(idle[..]), old(balanced[..]), timer), order,
                  Slots(schedule[..], idle[..], balanced[..], newTimer))
    ensures if order == [] then priority[..] == old(priority[..])
            else priority[..] == order && PriorityOrder(Criteria(x.states, connected[..], x.strategy), order,
                                                        |x.states|)
    ensures schedule[..] != Cleaned(x.states, old(schedule[..])) ==> order != []
  {
    hide PriorityOrder, After, Cleaned, Connected, Aged, Expired, Least, Contended, Started;
    newTimer := timer;
    newUptime := (uptime + 1) % 0x1_0000_0000;
    order := [];
    ghost var idle0, balanced0 := idle[..], balanced[..];
    CleanUp(x.states, schedule, connected, newUptime);
    ghost var s := Slots(schedule[..], idle0, balanced0, timer);
    assert idle[..] == idle0 && balanced[..] == balanced0;
    var contended := IsContended(schedule);
    if !contended {
      NotContended(x, s, order);
      return;
    }
    Age(schedule, idle);
    assert idle[..] == Aged(s) && balanced[..] == balanced0;
    var victim;
    victim, newTimer := FindIdle(x, schedule, idle, balanced, timer);
    var c := Criteria(x.states, connected[..], x.strategy);
    if victim < |x.states| {
      newTimer := PassIdle(x, c, schedule, idle, balanced, priority, victim, s);
      order := priority[..];
    } else if x.interval > 0 && newTimer > 0 {
      newTimer := newTimer - 1;
      if newTimer == 0 {
        newTimer := Rotate(x, c, schedule, idle, balanced, priority, s);
        order := priority[..];
      } else {
        CountsDown(x, s, order);
      }
    } else {
      CountsDown(x, s, order);
    }
  }

  lemma NotContended(x: Inputs, s: Slots, order: seq<nat>)
    requires Sized(x, s) && (forall k :: 0 <= k < |order| ==> order[k] < |x.states|) && !Contended(s.schedule)
    ensures After(x, s, order, s)
  {
  }

  lemma CountsDown(x: Inputs, s: Slots, order: seq<nat>)
    requires Sized(x, s) && (forall k :: 0 <= k < |order| ==> order[k] < |x.states|) && Contended(s.schedule)
    requires var aged := s.(idle := Aged(s));
             Least(Expired(x, aged, false), 0) == |x.states| && (x.interval == 0 || Started(x, aged) != 1)
    ensures var aged := s.(idle := Aged(s));
            var timer := Started(x, aged);
            After(x, s, order, aged.(timer := if x.interval == 0 || timer == 0 then timer else timer - 1))
  {
  }

  /** An idle node hands its slot to the first waiting node of the order. */
  method PassIdle(x: Inputs, c: Criteria, schedule: array<Schedule>, idle: array<nat>, balanced: array<nat>,
                  priority: array<nat>, victim: nat, ghost s: Slots)
      returns (newTimer: nat)
    requires |x.states| == schedule.Length == idle.Length == balanced.Length == priority.Length
    requires schedule as object !in {idle, balanced, priority} && idle !in {balanced, priority} && balanced != priority
    requires c.states == x.states && Fits(c, |x.states|)
    requires Sized(x, s) && s.schedule == Cleaned(x.states, s.schedule) == schedule[..] && Contended(s.schedule)
    requires idle[..] == Aged(s) && balanced[..] == s.balanced
    requires victim == Least(Expired(x, s.(idle := Aged(s)), false), 0) < |x.states|
    modifies schedule, idle, balanced, priority
    ensures PriorityOrder(c, priority[..], |x.states|)
    ensures forall p :: 0 <= p < priority.Length ==> priority[p] < |x.states|
    ensures After(x, s, priority[..], Slots(schedule[..], idle[..], balanced[..], newTimer))
  {
    hide PriorityOrder;
    schedule[victim] := Paused;
    balanced[victim] := 0;
    SortPriority(priority, c);
    OrderFacts(c, priority[..]);
    SomeoneWaits(priority[..], s.schedule);
    var k := FirstWaiting(priority, x.states, schedule, victim, s.schedule);
    newTimer := if x.interval > 0 then ToUint16(x.interval * 60) else 0;
    schedule[priority[k]] := Active;
    idle[priority[k]] := 0;
    assert Slots(schedule[..], idle[..], balanced[..], newTimer)
             == HandOver(s.(idle := Aged(s)), victim, priority[k], newTimer);
  }

  /** The expired timer moves the slot of the first active node on. */
  method Rotate(x: Inputs, c: Criteria, schedule: array<Schedule>, idle: array<nat>, balanced: array<nat>,
                priority: array<nat>, ghost s: Slots)
      returns (newTimer: nat)
    requires |x.states| == schedule.Length == idle.Length == balanced.Length == priority.Length
    requires schedule as object !in {idle, balanced, priority} && idle !in {balanced, priority} && balanced != priority
    requires c.states == x.states && Fits(c, |x.states|)
    requires Sized(x, s) && s.schedule == Cleaned(x.states, s.schedule) == schedule[..] && Contended(s.schedule)
    requires idle[..] == Aged(s) && balanced[..] == s.balanced
    requires var aged := s.(idle := Aged(s));
             Least(Expired(x, aged, false), 0) == |x.states| && x.interval > 0 && Started(x, aged) == 1
    modifies schedule, idle, balanced, priority
    ensures PriorityOrder(c, priority[..], |x.states|)
    ensures forall p :: 0 <= p < priority.Length ==> priority[p] < |x.states|
    ensures After(x, s, priority[..], Slots(schedule[..], idle[..], balanced[..], newTimer))
  {
    hide PriorityOrder;
    SortPriority(priority, c);
    OrderFacts(c, priority[..]);
    SomeoneWaits(priority[..], s.schedule);
    var i := FirstActive(schedule);
    schedule[i] := Paused;
    balanced[i] := 0;
    ghost var place := Find(priority[..], |x.states|, i);
    assert PlaceOf(priority[..], i, place);
    var k := WaitingAfter(priority, x.states, schedule, i, s.schedule, place);
    schedule[priority[k]] := Active;
    idle[priority[k]] := 0;
    newTimer := ToUint16(x.interval * 60);
    assert Slots(schedule[..], idle[..], balanced[..], newTimer)
             == HandOver(s.(idle := Aged(s)), i, priority[k], newTimer);
  }

  lemma OrderFacts(c: Criteria, order: seq<nat>)
    requires PriorityOrder(c, order, |order|)
    ensures Permutation(order, |order|)
  {
  }

  method FirstActive(schedule: array<Schedule>) returns (i: nat)
    ensures i == Least(ActiveAt(schedule[..]), 0)
  {
    ghost var active := ActiveAt(schedule[..]);
    i := 0;
    while i < schedule.Length && schedule[i] != Active
      invariant i <= schedule.Length && Least(active, i) == Least(active, 0)
    {
      i := i + 1;
    }
  }
}
