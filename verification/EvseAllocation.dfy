/** How evse_calc_balanced_current shares the current among the nodes. */
module EvseAllocation {
  import opened CArithmetic
  import opened EvseTypes
  import opened EvseControl
  import opened EvseRegulation
  import opened EvseJudgement
  import opened Priority
  import Shortage
  import Surplus
  import Distribution

  /** What the controller keeps for every node; it is node 0 itself. */
  datatype Fleet = Fleet(states: seq<State>, balanced: seq<nat>, max: seq<nat>, prev: seq<nat>,
                         schedule: seq<Schedule>, errors: seq<bv16>, idle: seq<nat>, connected: seq<nat>)

  ghost predicate Sized(f: Fleet) {
    && |f.states| == |f.balanced| == |f.max| == |f.prev| == |f.schedule| == |f.errors| > 0
    && |f.states| == |f.idle| == |f.connected|
  }

  ghost function SurveyOf(f: Fleet): Survey
    requires Sized(f)
  {
    Survey(Distribution.Count(f.states), Shortage.Total(f.states, f.max), Shortage.Total(f.states, f.balanced))
  }

  /** The same without the maxima. */
  ghost function LoadOf(states: seq<State>, balanced: seq<nat>): Survey
    requires |states| == |balanced|
  {
    Survey(Distribution.Count(states), 0, Shortage.Total(states, balanced))
  }

  // ------------------------------------------------------------------ by priority

  /** `mid` is what priority scheduling gives, `left` what the hand-out could not give to anybody. */
  ghost predicate Prioritized(order: seq<nat>, least: nat, available: nat, f: Fleet, g: Fleet, mid: seq<nat>,
                              left: int) {
    && Sized(f) && Sized(g) && |mid| == |f.states| == |g.states| && Permutation(order, |f.states|)
    && (forall k :: 0 <= k < |order| ==>
          Shortage.Share(mid[order[k]], g.schedule[order[k]], g.errors[order[k]])
          == Shortage.Decision(order, f.states, least, available, k,
                               Shortage.Share(f.balanced[order[k]], f.schedule[order[k]], f.errors[order[k]])))
    && Surplus.HandedOut(Surplus.Nodes(g.schedule, f.max), mid, g.balanced,
                         available - least * Shortage.Funded(order, f.states, least, available), left)
    && Shortage.Total(f.states, mid) == least * Shortage.Funded(order, f.states, least, available) <= available
    && g == f.(balanced := g.balanced, schedule := g.schedule, errors := g.errors)
  }

  /** What the nodes that are not charging keep assigned. */
  ghost function Unused(states: seq<State>, b: seq<nat>): nat
    requires |states| == |b|
  {
    Shortage.Sum(Others(states, b))
  }

  ghost function Others(states: seq<State>, b: seq<nat>): (d: seq<nat>)
    requires |states| == |b|
    ensures |d| == |b| && forall i :: 0 <= i < |b| ==> d[i] == if states[i] == C then 0 else b[i]
  {
    seq(|b|, i requires 0 <= i < |b| => if states[i] == C then 0 else b[i])
  }

  lemma {:induction false} Rest(states: seq<State>, b: seq<nat>)
    requires |states| == |b|
    ensures Shortage.Sum(b) == Shortage.Total(states, b) + Unused(states, b)
  {
    if |b| > 0 {
      var n := |b| - 1;
      Rest(states[..n], b[..n]);
      assert Shortage.Drawn(states, b)[..n] == Shortage.Drawn(states[..n], b[..n]);
      assert Others(states, b)[..n] == Others(states[..n], b[..n]);
    }
  }

  /** After priority scheduling exactly the funded charging nodes have a slot, at the minimum; the
      other charging nodes have none and nothing; nodes that are not charging keep what they had. */
  lemma {:induction false} SlotsAfterScheduling(order: seq<nat>, least: nat, available: nat, f: Fleet, g: Fleet,
                                                mid: seq<nat>, left: int, i: nat)
    requires Prioritized(order, least, available, f, g, mid, left) && i < |f.states|
    ensures if f.states[i] == C
            then if HasPlace(order, f.states, least, available, i) then g.schedule[i] == Active && mid[i] == least
                 else g.schedule[i] == Paused && mid[i] == 0
            else g.schedule[i] == f.schedule[i] && mid[i] == f.balanced[i]
  {
    hide Surplus.HandedOut, Shortage.Affordable;
    var k := Find(order, |f.states|, i);
    assert Shortage.Share(mid[order[k]], g.schedule[order[k]], g.errors[order[k]])
        == Shortage.Decision(order, f.states, least, available, k,
                             Shortage.Share(f.balanced[order[k]], f.schedule[order[k]], f.errors[order[k]]));
    assert HasPlace(order, f.states, least, available, i) <==>
           Shortage.Affordable(order, f.states, least, available, k);
  }

  /** Node i stands where the order can still give it the minimum. */
  ghost predicate HasPlace(order: seq<nat>, states: seq<State>, least: nat, available: nat, i: nat) {
    exists k :: 0 <= k < |order| && order[k] == i && Shortage.Affordable(order, states, least, available, k)
  }

  /** Node i holds a slot and is below its maximum when the surplus is handed out. */
  ghost predicate Waits(order: seq<nat>, least: nat, available: nat, f: Fleet, i: nat)
    requires Sized(f) && i < |f.states|
  {
    if f.states[i] == C then HasPlace(order, f.states, least, available, i) && least < f.max[i]
    else f.schedule[i] == Active && f.balanced[i] < f.max[i]
  }

  ghost function Waiting(order: seq<nat>, least: nat, available: nat, f: Fleet, n: nat): nat
    requires Sized(f) && n <= |f.states|
  {
    if n == 0 then 0
    else Waiting(order, least, available, f, n - 1) + if Waits(order, least, available, f, n - 1) then 1 else 0
  }

  /** Node i has left charging but still holds its slot, and the surplus has a unit for every slot
      holder below its maximum up to it. */
  ghost predicate StaleTakes(order: seq<nat>, least: nat, available: nat, f: Fleet, i: nat)
    requires Sized(f)
  {
    && i < |f.states| && f.states[i] != C && Waits(order, least, available, f, i)
    && Waiting(order, least, available, f, i + 1)
         <= available - least * Shortage.Funded(order, f.states, least, available)
  }

  lemma {:induction false} WaitingHasRoom(order: seq<nat>, least: nat, available: nat, f: Fleet, g: Fleet,
                                          mid: seq<nat>, left: int, n: nat)
    requires Prioritized(order, least, available, f, g, mid, left) && n <= |f.states|
    ensures Waiting(order, least, available, f, n) == Surplus.WithRoom(Surplus.Nodes(g.schedule, f.max), mid, n)
  {
    hide Surplus.HandedOut, Shortage.Decision, Shortage.Sum, Waits, Surplus.Room;
    if n > 0 {
      WaitingHasRoom(order, least, available, f, g, mid, left, n - 1);
      WaitsHasRoom(order, least, available, f, g, mid, left, n - 1);
    }
  }

  lemma {:induction false} WaitsHasRoom(order: seq<nat>, least: nat, available: nat, f: Fleet, g: Fleet,
                                        mid: seq<nat>, left: int, i: nat)
    requires Prioritized(order, least, available, f, g, mid, left) && i < |f.states|
    ensures Waits(order, least, available, f, i) <==> Surplus.Room(Surplus.Nodes(g.schedule, f.max), mid, i) > 0
  {
    hide Surplus.HandedOut, Shortage.Decision, Shortage.Sum, HasPlace;
    SlotsAfterScheduling(order, least, available, f, g, mid, left, i);
  }

  /** Only slot holders gain, so what the others keep grows exactly if one of them gains. */
  lemma {:induction false} OthersGain(states: seq<State>, before: seq<nat>, after: seq<nat>)
    requires |states| == |before| == |after| && forall i :: 0 <= i < |after| ==> before[i] <= after[i]
    ensures Unused(states, before) <= Unused(states, after)
    ensures Unused(states, before) < Unused(states, after)
       <==> exists i :: 0 <= i < |states| && states[i] != C && before[i] < after[i]
  {
    hide Shortage.Sum;
    var a, b := Others(states, before), Others(states, after);
    Shortage.SumOrder(a, b);
    if i :| 0 <= i < |states| && states[i] != C && before[i] < after[i] {
      assert a[i] < b[i];
    } else {
      assert a == b;
    }
  }

  lemma HandOutGrows(nodes: Surplus.Nodes, before: seq<nat>, after: seq<nat>, surplus: int, left: int)
    requires Surplus.HandedOut(nodes, before, after, surplus, left) && |before| == |after|
    ensures forall i :: 0 <= i < |after| ==> before[i] <= after[i]
  {
    hide Surplus.Saturated, Shortage.Sum, Surplus.Dealt;
  }

  /** Everything that is handed out goes to charging nodes or to those that still hold a slot. */
  lemma HandOutTotal(nodes: Surplus.Nodes, states: seq<State>, before: seq<nat>, after: seq<nat>, surplus: nat,
                     left: int)
    requires Surplus.HandedOut(nodes, before, after, surplus, left)
    requires |states| == |nodes.schedule| == |before| == |after|
    ensures left >= 0
    ensures Shortage.Total(states, after) + Unused(states, after) - Unused(states, before) + left
         == Shortage.Total(states, before) + surplus
  {
    hide Surplus.Saturated, Shortage.Sum, Surplus.Dealt;
    Rest(states, before);
    Rest(states, after);
  }

  lemma HandOutFair(nodes: Surplus.Nodes, states: seq<State>, before: seq<nat>, after: seq<nat>, surplus: nat,
                    left: int)
    requires Surplus.HandedOut(nodes, before, after, surplus, left)
    requires Surplus.Uniform(nodes, states, before) && |nodes.max| == |nodes.schedule|
    ensures Surplus.Fair(nodes, states, after)
  {
    hide Surplus.Saturated, Surplus.Gained;
    if surplus > 0 {
      var level: nat, m: nat :| Surplus.Dealt(nodes, before, after, level, m);
      Surplus.UniformIsFair(nodes, states, before, after, level, m);
    }
  }

  /** In a shortage all current that is available is given to the charging nodes, except what nobody
      can take, unless a node that left charging still holds a slot and the surplus reaches it; and
      that is exactly when it is not.  Whoever of the charging slot holders has at least two units
      less than another is at its maximum. */
  lemma {:induction false} PriorityConserves(order: seq<nat>, least: nat, available: nat, f: Fleet, g: Fleet,
                                             mid: seq<nat>, left: int)
    requires Prioritized(order, least, available, f, g, mid, left)
    ensures left >= 0 && Unused(f.states, g.balanced) >= Unused(f.states, f.balanced)
    ensures Shortage.Total(f.states, g.balanced) + Unused(f.states, g.balanced) - Unused(f.states, f.balanced) + left
              == available
    ensures Shortage.Total(f.states, g.balanced) + left == available
       <==> !exists i: nat :: StaleTakes(order, least, available, f, i)
    ensures left > 0 ==> Surplus.Saturated(Surplus.Nodes(g.schedule, f.max), g.balanced)
    ensures Surplus.Fair(Surplus.Nodes(g.schedule, f.max), f.states, g.balanced)
  {
    hide Shortage.Sum, Shortage.Decision, HasPlace, StaleTakes;
    ConservedScheduling(order, least, available, f, g, mid, left);
    var nodes := Surplus.Nodes(g.schedule, f.max);
    var surplus := available - least * Shortage.Funded(order, f.states, least, available);
    assert Others(f.states, mid) == Others(f.states, f.balanced);
    hide Surplus.Uniform, Surplus.Fair, Surplus.Gained, Surplus.Dealt;
    HandOutTotal(nodes, f.states, mid, g.balanced, surplus, left);
    HandOutFair(nodes, f.states, mid, g.balanced, surplus, left);
    HandOutGrows(nodes, mid, g.balanced, surplus, left);
    OthersGain(f.states, mid, g.balanced);
    forall i: nat
      ensures StaleTakes(order, least, available, f, i) <==>
              i < |f.states| && f.states[i] != C && mid[i] < g.balanced[i]
    {
      StaleGains(order, least, available, f, g, mid, left, i);
    }
  }

  /** Node i, which is not charging, takes part of the surplus exactly under that condition. */
  lemma {:induction false} StaleGains(order: seq<nat>, least: nat, available: nat, f: Fleet, g: Fleet,
                                      mid: seq<nat>, left: int, i: nat)
    requires Prioritized(order, least, available, f, g, mid, left)
    ensures StaleTakes(order, least, available, f, i)
       <==> i < |f.states| && f.states[i] != C && mid[i] < g.balanced[i]
  {
    hide Surplus.HandedOut, HasPlace, Shortage.Decision, Waiting, Surplus.WithRoom, Shortage.Funded, Shortage.Sum;
    if i < |f.states| && f.states[i] != C {
      var nodes := Surplus.Nodes(g.schedule, f.max);
      var surplus := available - least * Shortage.Funded(order, f.states, least, available);
      SlotsAfterScheduling(order, least, available, f, g, mid, left, i);
      WaitingHasRoom(order, least, available, f, g, mid, left, i + 1);
      if Surplus.IsActive(nodes, i) {
        Surplus.HandOutReaches(nodes, mid, g.balanced, surplus, left, i);
      } else {
        NoSlotNoGain(nodes, mid, g.balanced, surplus, left, i);
      }
    }
  }

  lemma NoSlotNoGain(nodes: Surplus.Nodes, before: seq<nat>, after: seq<nat>, surplus: int, left: int, i: nat)
    requires Surplus.HandedOut(nodes, before, after, surplus, left)
    requires i < |nodes.schedule| == |before| == |after| && !Surplus.IsActive(nodes, i)
    ensures after[i] == before[i]
  {
    hide Surplus.Saturated, Shortage.Sum, Surplus.Dealt;
  }

  lemma {:induction false} ConservedScheduling(order: seq<nat>, least: nat, available: nat, f: Fleet, g: Fleet,
                                               mid: seq<nat>, left: int)
    requires Prioritized(order, least, available, f, g, mid, left)
    ensures Surplus.Uniform(Surplus.Nodes(g.schedule, f.max), f.states, mid)
    ensures forall i :: 0 <= i < |f.states| && f.states[i] != C ==>
              g.schedule[i] == f.schedule[i] && mid[i] == f.balanced[i]
  {
    hide Surplus.HandedOut, HasPlace, Shortage.Decision;
    forall i: nat | i < |f.states|
      ensures g.schedule[i] == Active && f.states[i] == C ==> mid[i] == least
      ensures f.states[i] != C ==> g.schedule[i] == f.schedule[i] && mid[i] == f.balanced[i]
    {
      SlotsAfterScheduling(order, least, available, f, g, mid, left, i);
    }
  }

  /** Sharing by priority has one outcome. */
  lemma {:induction false} PrioritizedUnique(order: seq<nat>, least: nat, available: nat, f: Fleet, g: Fleet,
                                             mid: seq<nat>, left: int, g': Fleet, mid': seq<nat>, left': int)
    requires Prioritized(order, least, available, f, g, mid, left)
    requires Prioritized(order, least, available, f, g', mid', left')
    ensures g == g' && mid == mid' && left == left'
  {
    SameDecisions(order, least, available, f, g, mid, left, g', mid', left');
    hide Surplus.HandedOut, Shortage.Decision, Shortage.Sum;
    Surplus.HandOutUnique(Surplus.Nodes(g.schedule, f.max), mid, g.balanced, g'.balanced,
                          available - least * Shortage.Funded(order, f.states, least, available), left, left');
  }

  lemma {:induction false} SameDecisions(order: seq<nat>, least: nat, available: nat, f: Fleet, g: Fleet,
                                         mid: seq<nat>, left: int, g': Fleet, mid': seq<nat>, left': int)
    requires Prioritized(order, least, available, f, g, mid, left)
    requires Prioritized(order, least, available, f, g', mid', left')
    ensures mid == mid' && g.schedule == g'.schedule && g.errors == g'.errors
  {
    var n := |f.states|;
    assert Permutation(order, n) && |mid| == |mid'| == |g.schedule| == |g'.schedule| == |g.errors| == |g'.errors| == n;
    hide Prioritized, Permutation, Shortage.Decision;
    forall i: nat | i < n
      ensures mid[i] == mid'[i] && g.schedule[i] == g'.schedule[i] && g.errors[i] == g'.errors[i]
    {
      var k := Find(order, n, i);
      DecidedAt(order, least, available, f, g, mid, left, k);
      DecidedAt(order, least, available, f, g', mid', left', k);
    }
  }

  lemma DecidedAt(order: seq<nat>, least: nat, available: nat, f: Fleet, g: Fleet, mid: seq<nat>, left: int, k: nat)
    requires Prioritized(order, least, available, f, g, mid, left) && k < |order|
    ensures order[k] < |f.states| == |mid| == |g.schedule| == |g.errors| == |f.balanced| == |f.schedule| == |f.errors|
    ensures Shortage.Share(mid[order[k]], g.schedule[order[k]], g.errors[order[k]])
         == Shortage.Decision(order, f.states, least, available, k,
                              Shortage.Share(f.balanced[order[k]], f.schedule[order[k]], f.errors[order[k]]))
  {
    hide Surplus.HandedOut, Shortage.Decision, Shortage.Sum;
  }

  // ------------------------------------------------------------------ the standard distribution

  /** Lines 918-927: with enough current for all, every charging node has a slot again. */
  ghost predicate Marked(cfg: Config, f: Fleet, g: Fleet) {
    && Sized(f) && Sized(g) && |f.states| == |g.states|
    && g == f.(balanced := g.balanced, schedule := g.schedule, errors := g.errors, idle := g.idle)
    && forall i :: 0 <= i < |f.states| ==>
         if cfg.loadBl == 1 && f.states[i] == C
         then g.schedule[i] == Active && g.errors[i] == Shortage.WithoutLess6A(f.errors[i]) && g.idle[i] == 0
         else g.schedule[i] == f.schedule[i] && g.errors[i] == f.errors[i] && g.idle[i] == f.idle[i]
  }

  ghost predicate Shared(f: Fleet, g: Fleet, total: int, level: nat) {
    && Sized(f) && Sized(g) && |f.states| == |g.states|
    && Distribution.Levelled(f.states, f.max, g.balanced, level)
    && Shortage.Total(f.states, g.balanced) == total
    && forall i :: 0 <= i < |f.states| && f.states[i] != C ==> g.balanced[i] == f.balanced[i]
  }

  /** Marking the slots does not matter for the distribution. */
  lemma SharedAfterMarking(cfg: Config, f: Fleet, m: Fleet, g: Fleet, total: int, level: nat)
    requires Marked(cfg, f, m) && m.balanced == f.balanced
    requires Shared(m, g, total, level) && g == m.(balanced := g.balanced)
    ensures Marked(cfg, f, g) && Shared(f, g, total, level)
  {
    hide Shortage.WithoutLess6A, Distribution.Levelled, Shortage.Total;
  }

  lemma SurveyAfterMarking(cfg: Config, f: Fleet, m: Fleet)
    requires Marked(cfg, f, m) && m.balanced == f.balanced
    ensures SurveyOf(m) == SurveyOf(f)
  {
  }

  /** What the distribution works with: lines 851 and 939. */
  function Pool(cfg: Config, s: Survey, isetBalanced: int): int {
    Min(if InShortage(cfg, s, isetBalanced) then LeastForAll(cfg, s) else isetBalanced, s.activeMax)
  }

  /** How the distribution came about. */
  datatype Account = ByOrder(order: seq<nat>, mid: seq<nat>, left: int) | ByLevel(level: nat)

  /** Lines 841-970: from f to g, with the limit `isetBalanced` on the total. */
  ghost predicate Distributed(cfg: Config, isetBalanced: int, f: Fleet, g: Fleet, how: Account) {
    Sized(f) &&
    var s := SurveyOf(f);
    if ByPriority(cfg, s, isetBalanced) then
      && how.ByOrder? && PriorityOrder(Criteria(f.states, f.connected, cfg.strategy), how.order, |f.states|)
      && Prioritized(how.order, cfg.minCurrent * 10, Max(0, isetBalanced), f, g, how.mid, how.left)
    else
      && how.ByLevel? && Shared(f, g, Pool(cfg, s, isetBalanced), how.level)
      && if InShortage(cfg, s, isetBalanced) then g == f.(balanced := g.balanced) else Marked(cfg, f, g)
  }

  // ------------------------------------------------------------------ after the distribution

  /** Lines 974-993: without a newcomer the steps of the charging nodes are limited. */
  ghost function Stepped(mod: bool, f: Fleet): (g: Fleet)
    requires Sized(f)
    ensures Sized(g) && g == f.(balanced := g.balanced, prev := g.balanced) && |g.states| == |f.states|
    ensures forall i :: 0 <= i < |f.states| ==>
              g.balanced[i] == if !mod && f.states[i] == C then Approach(MAX_DELTA, f.balanced[i], f.prev[i])
                  else f.balanced[i]
  {
    var b := seq(|f.states|, i requires 0 <= i < |f.states| =>
      if !mod && f.states[i] == C then Approach(MAX_DELTA, f.balanced[i], f.prev[i]) else f.balanced[i]);
    f.(balanced := b, prev := b)
  }

  predicate Ramps(cfg: Config, state: State) { cfg.mode != Normal && cfg.loadBl == 0 && state == C }

  /** Lines 997-1012: the current of a standalone charger. */
  function Ramp(cfg: Config, r: Regulator, current: nat): nat {
    if cfg.maxRampRate > 0 then Approach(cfg.maxRampRate, current, r.lastBalanced) else current
  }

  function RampedRegulator(cfg: Config, r: Regulator, state: State, current: nat): Regulator {
    if Ramps(cfg, state) then
      var b := Ramp(cfg, r, current);
      r.(settlingTimer := if b != r.lastBalanced && cfg.settlingWindow > 0 then cfg.settlingWindow else r.settlingTimer,
         lastBalanced := b, updated := false)
    else r.(updated := false)
  }

  ghost function Ramped(cfg: Config, r: Regulator, f: Fleet): Fleet
    requires Sized(f)
  {
    if Ramps(cfg, f.states[0]) then f.(balanced := f.balanced[0 := Ramp(cfg, r, f.balanced[0])]) else f
  }

  /** isetBalanced after the distribution. */
  function Spent(cfg: Config, r: Regulator, s: Survey): Regulator {
    if !Distributing(cfg, r, s) then r
    else if ByPriority(cfg, s, r.isetBalanced) then r.(isetBalanced := LeastForAll(cfg, s))
    else r.(isetBalanced := Pool(cfg, s, r.isetBalanced))
  }

  /** evse_calc_balanced_current(mod): from control state, regulator and nodes (c, r, f) to
      (d, q, g); h is what the nodes have after the distribution. */
  ghost predicate Evaluated(cfg: Config, mod: bool, c: Control, r: Regulator, f: Fleet,
                            d: Control, q: Regulator, g: Fleet, h: Fleet, how: Account)
  {
    Sized(f) && Sized(h) &&
    var (r0, f0) := Limited0(cfg, r, f);
    var s := SurveyOf(f0);
    var r1 := Target(cfg, c.nrPhases, r0, mod, s);
    var r2 := Spent(cfg, r1, s);
    var p := Moved(cfg, mod, r1, s, h);
    && d == Judged(cfg, c, r1, s, Active in h.schedule)
    && Given(cfg, r1, s, f0, h, how)
    && g == Ramped(cfg, r2, p) && q == RampedRegulator(cfg, r2, f.states[0], p.balanced[0])
  }

  /** The distribution, if there is one. */
  ghost predicate Given(cfg: Config, r: Regulator, s: Survey, f: Fleet, h: Fleet, how: Account) {
    if Distributing(cfg, r, s) then Distributed(cfg, r.isetBalanced, f, h, how) else h == f
  }

  /** The limits on steps, if there is a distribution. */
  ghost function Moved(cfg: Config, mod: bool, r: Regulator, s: Survey, h: Fleet): (p: Fleet)
    requires Sized(h)
    ensures Sized(p) && |p.states| == |h.states|
  {
    if Distributing(cfg, r, s) then Stepped(mod, h) else h
  }

  /** The charge current of this controller limits node 0. */
  ghost function Limited0(cfg: Config, r: Regulator, f: Fleet): (x: (Regulator, Fleet))
    requires Sized(f)
    ensures Sized(x.1)
  {
    var current := ChargeCurrent(cfg, f.states[0]);
    (r.(chargeCurrent := current), f.(max := f.max[0 := current]))
  }
}
