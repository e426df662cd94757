/** The limits that evse_calc_balanced_current keeps, and the ones it does not. */
module EvseLimits {
  import opened CArithmetic
  import opened EvseTypes
  import opened EvseControl
  import opened EvseRegulation
  import opened EvseJudgement
  import opened EvseAllocation
  import opened Priority
  import Shortage
  import Surplus
  import Distribution

  // ------------------------------------------------------------------ mains and circuit

  /** The limit that the distribution starts from is within both guard rails, unless it is smoothed. */
  lemma {:induction false} TargetGuarded(cfg: Config, nrPhases: nat, r: Regulator, mod: bool, s: Survey)
    requires cfg.emaAlpha == 100
    ensures var isetBalanced := Target(cfg, nrPhases, r, mod, s).isetBalanced;
            && (MainsGuarded(cfg) ==> isetBalanced + Baseload(cfg, s) <= cfg.maxMains * 10)
            && (CircuitGuarded(cfg) ==> isetBalanced + BaseloadEv(cfg, s) <= cfg.maxCircuit * 10)
  {
    hide Joining, Regulated, Mean;
    NoSmoothing(cfg, Unsmoothed(cfg, nrPhases, r, mod, s));
  }

  /** The distributed current does not exceed what was available, unless a single node is kept at
      its minimum in a shortage; and that is exactly when it does. */
  lemma {:induction false} WithinAvailable(cfg: Config, isetBalanced: int, f: Fleet, g: Fleet, how: Account)
    requires Distributed(cfg, isetBalanced, f, g, how)
    ensures var s, total := SurveyOf(f), Shortage.Total(f.states, g.balanced);
            && (s.active > 0 && InShortage(cfg, s, isetBalanced) && !ByPriority(cfg, s, isetBalanced)
                ==> total == Min(LeastForAll(cfg, s), s.activeMax))
            && (total <= Max(0, isetBalanced) <==>
                  !InShortage(cfg, s, isetBalanced) || ByPriority(cfg, s, isetBalanced)
                  || Min(LeastForAll(cfg, s), s.activeMax) <= Max(0, isetBalanced))
  {
    hide Prioritized, Marked, PriorityOrder;
    if ByPriority(cfg, SurveyOf(f), isetBalanced) {
      PriorityConserves(how.order, cfg.minCurrent * 10, Max(0, isetBalanced), f, g, how.mid, how.left);
    }
  }

  /** End to end, for the distribution: without smoothing of the limit, a distribution that is not
      short, or is made by priority, keeps the total of the charging nodes and all other consumption
      within the mains and within the circuit, wherever they are guarded. */
  lemma {:induction false} LimitsKept(cfg: Config, nrPhases: nat, r: Regulator, mod: bool, f: Fleet, g: Fleet,
                                      how: Account)
    requires Sized(f) && cfg.emaAlpha == 100
    requires var isetBalanced := Target(cfg, nrPhases, r, mod, SurveyOf(f)).isetBalanced;
             && Distributed(cfg, isetBalanced, f, g, how)
             && (!InShortage(cfg, SurveyOf(f), isetBalanced)
                 || (ByPriority(cfg, SurveyOf(f), isetBalanced) && isetBalanced >= 0))
    ensures MainsGuarded(cfg) ==>
              Shortage.Total(f.states, g.balanced) + Baseload(cfg, SurveyOf(f)) <= 10 * cfg.maxMains
    ensures CircuitGuarded(cfg) ==>
              Shortage.Total(f.states, g.balanced) + BaseloadEv(cfg, SurveyOf(f)) <= 10 * cfg.maxCircuit
  {
    hide Target, Distributed, Baseload, BaseloadEv, MainsGuarded, CircuitGuarded;
    TargetGuarded(cfg, nrPhases, r, mod, SurveyOf(f));
    WithinAvailable(cfg, Target(cfg, nrPhases, r, mod, SurveyOf(f)).isetBalanced, f, g, how);
  }

  /** The currents g after an evaluation that distributes for a newcomer without shortage, or by
      priority, are within the limits. */
  ghost predicate WithinLimits(cfg: Config, c: Control, r: Regulator, f: Fleet, g: Fleet) {
    Sized(f) && Sized(g) &&
    var s, total := SurveyOf(f), Shortage.Total(g.states, g.balanced);
    Unshort(cfg, c, r, f) ==>
      && (MainsGuarded(cfg) ==> total + Baseload(cfg, s) <= 10 * cfg.maxMains)
      && (CircuitGuarded(cfg) ==> total + BaseloadEv(cfg, s) <= 10 * cfg.maxCircuit)
  }

  ghost predicate Unshort(cfg: Config, c: Control, r: Regulator, f: Fleet)
    requires Sized(f)
  {
    var (r0, f0) := Limited0(cfg, r, f);
    var s := SurveyOf(f0);
    var r1 := Target(cfg, c.nrPhases, r0, true, s);
    && cfg.emaAlpha == 100 && !Ramps(cfg, f.states[0]) && Distributing(cfg, r1, s)
    && (!InShortage(cfg, s, r1.isetBalanced) || (ByPriority(cfg, s, r1.isetBalanced) && r1.isetBalanced >= 0))
  }

  /** The same for a whole evaluation of a newcomer by the controller of a group, or of one in normal
      mode: nothing moves the currents after the distribution. */
  lemma {:induction false} EvaluationKeepsLimits(cfg: Config, c: Control, r: Regulator, f: Fleet,
                                                 d: Control, q: Regulator, g: Fleet, h: Fleet, how: Account)
    requires Evaluated(cfg, true, c, r, f, d, q, g, h, how)
    ensures WithinLimits(cfg, c, r, f, g)
  {
    assert Sized(f);
    hide Evaluated, Distributed, Distributing, InShortage, ByPriority, Target, Baseload, BaseloadEv;
    hide MainsGuarded, CircuitGuarded, Ramps;
    if Unshort(cfg, c, r, f) {
      var (r0, f0) := Limited0(cfg, r, f);
      NothingMoves(cfg, c, r, f, d, q, g, h, how);
      LimitsKept(cfg, c.nrPhases, r0, true, f0, h, how);
      SameOthers(cfg, f, f0);
    }
  }

  /** After the distribution for a newcomer the currents stay, unless this controller ramps. */
  lemma {:induction false} NothingMoves(cfg: Config, c: Control, r: Regulator, f: Fleet,
                                        d: Control, q: Regulator, g: Fleet, h: Fleet, how: Account)
    requires Evaluated(cfg, true, c, r, f, d, q, g, h, how) && !Ramps(cfg, f.states[0])
    ensures Sized(g) && g.balanced == h.balanced && g.states == f.states
    ensures var (r0, f0) := Limited0(cfg, r, f);
            var r1 := Target(cfg, c.nrPhases, r0, true, SurveyOf(f0));
            if Distributing(cfg, r1, SurveyOf(f0)) then Distributed(cfg, r1.isetBalanced, f0, h, how) else h == f0
  {
    hide Distributed, Distributing, Judged, Target, Spent, RampedRegulator, Ramps, SurveyOf;
    var (r0, f0) := Limited0(cfg, r, f);
    var r1 := Target(cfg, c.nrPhases, r0, true, SurveyOf(f0));
    if Distributing(cfg, r1, SurveyOf(f0)) {
      DistributedStates(cfg, r1.isetBalanced, f0, h, how);
    }
  }

  lemma SameOthers(cfg: Config, f: Fleet, f0: Fleet)
    requires Sized(f) && Sized(f0) && f0.states == f.states && f0.balanced == f.balanced
    ensures Baseload(cfg, SurveyOf(f0)) == Baseload(cfg, SurveyOf(f))
    ensures BaseloadEv(cfg, SurveyOf(f0)) == BaseloadEv(cfg, SurveyOf(f))
  {
  }

  lemma DistributedStates(cfg: Config, isetBalanced: int, f: Fleet, g: Fleet, how: Account)
    requires Distributed(cfg, isetBalanced, f, g, how)
    ensures Sized(g) && g.states == f.states && g.prev == f.prev && g.max == f.max
  {
    hide InShortage, Surplus.HandedOut, PriorityOrder;
  }

  // ------------------------------------------------------------------ the newcomer

  lemma {:induction false} JoinedTotal(states: seq<State>, b: seq<nat>, j: nat)
    requires |states| == |b| && j < |states| && states[j] != C
    ensures Shortage.Total(states[j := C], b) == Shortage.Total(states, b) + b[j]
    ensures Unused(states, b) == Unused(states[j := C], b) + b[j]
  {
    hide Shortage.Sum;
    assert Shortage.Drawn(states[j := C], b) == Shortage.Drawn(states, b)[j := b[j]];
    Shortage.SumUpdate(Shortage.Drawn(states, b), j, b[j]);
    Rest(states, b);
    Rest(states[j := C], b);
  }

  /** What others than the charging nodes and node j took in a distribution. */
  ghost function TakenByOthers(f: Fleet, g: Fleet, j: nat): int
    requires Sized(f) && Sized(g) && |f.states| == |g.states| && j < |f.states|
  {
    Unused(f.states[j := C], g.balanced) - Unused(f.states[j := C], f.balanced)
  }

  /** What the distribution gives to the charging nodes, and to node j beyond what it has. */
  ghost function Apportioned(cfg: Config, isetBalanced: int, f: Fleet, g: Fleet, how: Account, j: nat): int
    requires Sized(f) && Sized(g) && |f.states| == |g.states| && j < |f.states|
  {
    if ByPriority(cfg, SurveyOf(f), isetBalanced) && how.ByOrder? then
      Max(0, isetBalanced) - how.left - TakenByOthers(f, g, j)
    else Pool(cfg, SurveyOf(f), isetBalanced)
  }

  /** A node for whom a distribution is made keeps the current it was given before, on top of what the
      distribution makes of the whole limit: it is not one of those who share. */
  lemma {:induction false} NewcomerAdds(cfg: Config, isetBalanced: int, f: Fleet, g: Fleet, how: Account, j: nat)
    requires Distributed(cfg, isetBalanced, f, g, how) && j < |f.states| && f.states[j] != C
    ensures Sized(g) && |g.states| == |f.states|
    ensures Shortage.Total(f.states[j := C], g.balanced) == Apportioned(cfg, isetBalanced, f, g, how, j) + f.balanced[j]
  {
    hide Prioritized, Marked, PriorityOrder, InShortage, SurveyOf, Pool, Shortage.Total, Unused, Distribution.Levelled;
    DistributedStates(cfg, isetBalanced, f, g, how);
    JoinedTotal(f.states, f.balanced, j);
    JoinedTotal(f.states, g.balanced, j);
    if ByPriority(cfg, SurveyOf(f), isetBalanced) {
      PriorityConserves(how.order, cfg.minCurrent * 10, Max(0, isetBalanced), f, g, how.mid, how.left);
    }
  }

  /** The same whether anything is distributed or not; r is the regulation, f the nodes before it. */
  ghost function Due(cfg: Config, r: Regulator, f: Fleet, g: Fleet, how: Account, j: nat): int
    requires Sized(f) && Sized(g) && |f.states| == |g.states| && j < |f.states|
  {
    if Distributing(cfg, r, SurveyOf(f)) then Apportioned(cfg, r.isetBalanced, f, g, how, j)
    else Shortage.Total(f.states, f.balanced)
  }

  predicate FitsMains(cfg: Config, s: Survey, total: int) { total + Baseload(cfg, s) <= 10 * cfg.maxMains }

  predicate FitsCircuit(cfg: Config, s: Survey, total: int) { total + BaseloadEv(cfg, s) <= 10 * cfg.maxCircuit }

  /** The currents g after the evaluation of newcomer j: with its own current counted, mains and
      circuit are kept exactly if there is room for it beside what is due to the others. */
  ghost predicate NewcomerCounted(cfg: Config, c: Control, r: Regulator, f: Fleet, g: Fleet, how: Account, j: nat) {
    Sized(f) && Sized(g) && |g.states| == |f.states| &&
    var (r0, f0) := Limited0(cfg, r, f);
    var r1 := Target(cfg, c.nrPhases, r0, true, SurveyOf(f0));
    j < |f.states| && f.states[j] != C && !Ramps(cfg, f.states[0]) ==>
      Counted(cfg, r1, f0, g, how, j)
  }

  ghost predicate Counted(cfg: Config, r: Regulator, f: Fleet, g: Fleet, how: Account, j: nat)
    requires Sized(f) && Sized(g) && |f.states| == |g.states| && j < |f.states|
  {
    var s, total, due := SurveyOf(f), Shortage.Total(f.states[j := C], g.balanced), Due(cfg, r, f, g, how, j);
    && (FitsMains(cfg, s, total) <==> FitsMains(cfg, s, due + f.balanced[j]))
    && (FitsCircuit(cfg, s, total) <==> FitsCircuit(cfg, s, due + f.balanced[j]))
    && (Distributing(cfg, r, s) && !InShortage(cfg, s, r.isetBalanced) ==> due == Min(r.isetBalanced, s.activeMax))
  }

  lemma {:induction false} NewcomerTotal(cfg: Config, r: Regulator, f: Fleet, g: Fleet, h: Fleet, how: Account, j: nat)
    requires Sized(f) && Sized(g) && Sized(h) && g.balanced == h.balanced && j < |f.states| && f.states[j] != C
    requires if Distributing(cfg, r, SurveyOf(f)) then Distributed(cfg, r.isetBalanced, f, h, how) else h == f
    ensures |g.states| == |f.states| && Counted(cfg, r, f, g, how, j)
  {
    if Distributing(cfg, r, SurveyOf(f)) {
      NewcomerAdds(cfg, r.isetBalanced, f, h, how, j);
    } else {
      JoinedTotal(f.states, f.balanced, j);
    }
    hide Distributed, Distributing, SurveyOf, Shortage.Total, Unused, FitsMains, FitsCircuit, LeastForAll;
  }

  /** Whether an evaluation for newcomer j keeps the limits with its current counted: in particular,
      without shortage, exactly if Min(limit, maxima) plus its current and the baseload do. */
  lemma {:induction false} NewcomerWithinLimits(cfg: Config, c: Control, r: Regulator, f: Fleet, d: Control,
                                                q: Regulator, g: Fleet, h: Fleet, how: Account, j: nat)
    requires Evaluated(cfg, true, c, r, f, d, q, g, h, how)
    ensures NewcomerCounted(cfg, c, r, f, g, how, j)
  {
    assert Sized(f) && Sized(h) && Sized(g) && |g.states| == |f.states| by {
      EvaluatedSizes(cfg, c, r, f, d, q, g, h, how);
    }
    hide Evaluated, Distributed, Distributing, Target, Ramps, SurveyOf, Counted, Sized, ChargeCurrent;
    var (r0, f0) := Limited0(cfg, r, f);
    if j < |f.states| && f.states[j] != C && !Ramps(cfg, f.states[0]) {
      NothingMoves(cfg, c, r, f, d, q, g, h, how);
      NewcomerTotal(cfg, Target(cfg, c.nrPhases, r0, true, SurveyOf(f0)), f0, g, h, how, j);
    }
  }

  lemma EvaluatedSizes(cfg: Config, c: Control, r: Regulator, f: Fleet,
                       d: Control, q: Regulator, g: Fleet, h: Fleet, how: Account)
    requires Evaluated(cfg, true, c, r, f, d, q, g, h, how)
    ensures Sized(f) && Sized(h) && Sized(g) && |g.states| == |f.states|
  {
    hide Distributed, Distributing, Judged, Target, Spent, RampedRegulator, SurveyOf;
    var (r0, f0) := Limited0(cfg, r, f);
    var r1 := Target(cfg, c.nrPhases, r0, true, SurveyOf(f0));
    if Distributing(cfg, r1, SurveyOf(f0)) {
      DistributedStates(cfg, r1.isetBalanced, f0, h, how);
    }
  }

  // ------------------------------------------------------------------ the nodes

  /** Priority scheduling gives node i the minimum although its maximum is smaller. */
  ghost predicate Raised(cfg: Config, isetBalanced: int, f: Fleet, how: Account, i: nat)
    requires Sized(f) && i < |f.states|
  {
    && ByPriority(cfg, SurveyOf(f), isetBalanced) && how.ByOrder?
    && HasPlace(how.order, f.states, cfg.minCurrent * 10, Max(0, isetBalanced), i)
    && cfg.minCurrent * 10 > f.max[i]
  }

  /** A charging node gets no more than its maximum, except exactly when it has a place in priority
      scheduling and its maximum is below the minimum current. */
  lemma {:induction false} MaximumKept(cfg: Config, isetBalanced: int, f: Fleet, h: Fleet, how: Account, i: nat)
    requires Distributed(cfg, isetBalanced, f, h, how) && i < |f.states| && f.states[i] == C
    ensures i < |h.balanced|
    ensures h.balanced[i] <= f.max[i] <==> !Raised(cfg, isetBalanced, f, how, i)
  {
    hide PriorityOrder, InShortage, SurveyOf, HasPlace, Shortage.Decision, Shortage.Sum, Marked;
    if ByPriority(cfg, SurveyOf(f), isetBalanced) {
      SlotsAfterScheduling(how.order, cfg.minCurrent * 10, Max(0, isetBalanced), f, h, how.mid, how.left, i);
    }
  }

  /** A charging node gets at least the minimum current or its smaller maximum, if there is no
      priority scheduling; with it, every node that has a place gets the minimum, the others nothing. */
  lemma {:induction false} MinimumKept(cfg: Config, isetBalanced: int, f: Fleet, h: Fleet, how: Account, i: nat)
    requires Distributed(cfg, isetBalanced, f, h, how) && i < |f.states| && f.states[i] == C
    ensures i < |h.balanced|
    ensures if !ByPriority(cfg, SurveyOf(f), isetBalanced) then h.balanced[i] >= Min(cfg.minCurrent * 10, f.max[i])
            else if HasPlace(how.order, f.states, cfg.minCurrent * 10, Max(0, isetBalanced), i)
                then h.balanced[i] >= cfg.minCurrent * 10
            else h.balanced[i] == 0
  {
    hide PriorityOrder, HasPlace, Shortage.Decision, Shortage.Sum, Marked, Distribution.Levelled, Distribution.Count;
    var s, least := SurveyOf(f), cfg.minCurrent * 10;
    if ByPriority(cfg, s, isetBalanced) {
      SlotsAfterScheduling(how.order, least, Max(0, isetBalanced), f, h, how.mid, how.left, i);
    } else {
      var total := if InShortage(cfg, s, isetBalanced) then LeastForAll(cfg, s) else isetBalanced;
      assert least * s.active == s.active * least;
      Distribution.MinimumGuaranteed(f.states, f.max, h.balanced, how.level, total, least, i);
    }
  }

  // ------------------------------------------------------------------ inputs that show the exceptions

  lemma SumOfOne(b: seq<nat>)
    requires |b| == 1
    ensures Shortage.Sum(b) == b[0]
  {
    assert Shortage.Sum(b[..0]) == 0;
  }

  lemma SumOfTwo(b: seq<nat>)
    requires |b| == 2
    ensures Shortage.Sum(b) == b[0] + b[1]
  {
    SumOfOne(b[..1]);
  }

  lemma PairTotal(b: seq<nat>)
    requires |b| == 2
    ensures Shortage.Total([C, C], b) == b[0] + b[1]
  {
    assert Shortage.Drawn([C, C], b) == b;
    SumOfTwo(b);
  }

  /** Two charging nodes with maxima of 6 A, a minimum current of 16 A and 20 A available. */
  ghost function CappedPair(): Fleet {
    Fleet([C, C], [0, 0], [60, 60], [0, 0], [Inactive, Inactive], [0, 0], [0, 0], [0, 0])
  }

  ghost function RaisedPair(): Fleet {
    CappedPair().(balanced := [160, 0], schedule := [Active, Paused],
                  errors := [Shortage.WithoutLess6A(0), Shortage.WithLess6A(0)])
  }

  /** The first node gets 16 A. */
  lemma {:induction false} MinimumAboveMaximum(cfg: Config)
    requires cfg.minCurrent == 16 && cfg.loadBl == 1
    ensures Distributed(cfg, 200, CappedPair(), RaisedPair(), ByOrder([0, 1], [160, 0], 40))
    ensures RaisedPair().balanced[0] > CappedPair().max[0]
  {
    hide Prioritized, PriorityOrder, Shortage.Sum;
    PairTotal(Distribution.Ones(2));
    PairTotal(CappedPair().max);
    PairTotal(CappedPair().balanced);
    PairPrioritized();
    PairOrder(Criteria([C, C], [0, 0], cfg.strategy));
  }

  lemma PairOrder(c: Criteria)
    requires c.states == [C, C] && c.connected == [0, 0]
    ensures PriorityOrder(c, [0, 1], 2)
  {
  }

  lemma PairCharging()
    ensures Shortage.ChargingBefore([0, 1], [C, C], 0) == 0 && Shortage.ChargingBefore([0, 1], [C, C], 1) == 1
    ensures Shortage.ChargingBefore([0, 1], [C, C], 2) == 2
  {
  }

  lemma {:induction false} PairPrioritized()
    ensures Prioritized([0, 1], 160, 200, CappedPair(), RaisedPair(), [160, 0], 40)
  {
    hide Shortage.Sum, Shortage.Decision, Shortage.Funded, Surplus.HandedOut;
    PairDecisions();
    PairHandedOut();
    PairTotal([160, 0]);
  }

  lemma PairDecisions()
    ensures Shortage.Funded([0, 1], [C, C], 160, 200) == 1
    ensures Shortage.Decision([0, 1], [C, C], 160, 200, 0, Shortage.Share(0, Inactive, 0))
         == Shortage.Share(160, Active, Shortage.WithoutLess6A(0))
    ensures Shortage.Decision([0, 1], [C, C], 160, 200, 1, Shortage.Share(0, Inactive, 0))
         == Shortage.Share(0, Paused, Shortage.WithLess6A(0))
  {
    hide Shortage.WithLess6A, Shortage.WithoutLess6A, Shortage.ChargingBefore;
    PairCharging();
  }

  lemma PairHandedOut()
    ensures Surplus.HandedOut(Surplus.Nodes([Active, Paused], [60, 60]), [160, 0], [160, 0], 40, 40)
  {
    hide Shortage.Sum;
    assert Surplus.Dealt(Surplus.Nodes([Active, Paused], [60, 60]), [160, 0], [160, 0], 0, 0);
  }

  /** Two charging nodes and one that has left but still holds its slot; 6 A each, 10 A available. */
  ghost function StaleTrio(): Fleet {
    Fleet([C, C, A], [60, 60, 60], [160, 160, 160], [60, 60, 60], [Active, Active, Active], [0, 0, 0], [0, 0, 0],
          [0, 0, 0])
  }

  ghost function SharedTrio(): Fleet {
    StaleTrio().(balanced := [80, 0, 80], schedule := [Active, Paused, Active],
                 errors := [Shortage.WithoutLess6A(0), Shortage.WithLess6A(0), 0])
  }

  /** The node that charges gets 8 A of the 10 A, and the other 2 A go to the one that has left: so does
      every distribution of this input. */
  lemma {:induction false} StaleSlotTakes(cfg: Config, h: Fleet, how: Account)
    requires cfg.minCurrent == 6 && cfg.loadBl == 1
    ensures Distributed(cfg, 100, StaleTrio(), SharedTrio(), ByOrder([0, 1, 2], [60, 0, 60], 0))
    ensures Shortage.Total(StaleTrio().states, SharedTrio().balanced) == 80
    ensures Distributed(cfg, 100, StaleTrio(), h, how) ==> h == SharedTrio()
  {
    hide Prioritized, PriorityOrder, Shortage.Sum;
    TrioTotal(Distribution.Ones(3));
    TrioTotal(StaleTrio().max);
    TrioTotal(StaleTrio().balanced);
    TrioTotal(SharedTrio().balanced);
    TrioPrioritized();
    var c := Criteria([C, C, A], [0, 0, 0], cfg.strategy);
    TrioOrder(c);
    if Distributed(cfg, 100, StaleTrio(), h, how) {
      OrderUnique(c, how.order, [0, 1, 2], 3);
      PrioritizedUnique([0, 1, 2], 60, 100, StaleTrio(), h, how.mid, how.left, SharedTrio(), [60, 0, 60], 0);
    }
  }

  lemma TrioTotal(b: seq<nat>)
    requires |b| == 3
    ensures Shortage.Total([C, C, A], b) == b[0] + b[1]
  {
    SumOfThree(Shortage.Drawn([C, C, A], b));
  }

  lemma SumOfThree(b: seq<nat>)
    requires |b| == 3
    ensures Shortage.Sum(b) == b[0] + b[1] + b[2]
  {
    SumOfTwo(b[..2]);
  }

  lemma TrioOrder(c: Criteria)
    requires c.states == [C, C, A] && c.connected == [0, 0, 0]
    ensures PriorityOrder(c, [0, 1, 2], 3)
  {
  }

  lemma {:induction false} TrioPrioritized()
    ensures Prioritized([0, 1, 2], 60, 100, StaleTrio(), SharedTrio(), [60, 0, 60], 0)
  {
    hide Shortage.Sum, Shortage.Decision, Shortage.Funded, Surplus.HandedOut;
    TrioDecisions();
    TrioHandedOut();
    TrioTotal([60, 0, 60]);
  }

  lemma TrioCharging()
    ensures Shortage.ChargingBefore([0, 1, 2], [C, C, A], 0) == 0
    ensures Shortage.ChargingBefore([0, 1, 2], [C, C, A], 1) == 1
    ensures Shortage.ChargingBefore([0, 1, 2], [C, C, A], 3) == 2
  {
    assert Shortage.ChargingBefore([0, 1, 2], [C, C, A], 2) == 2;
  }

  lemma TrioDecisions()
    ensures Shortage.Funded([0, 1, 2], [C, C, A], 60, 100) == 1
    ensures Shortage.Decision([0, 1, 2], [C, C, A], 60, 100, 0, Shortage.Share(60, Active, 0))
         == Shortage.Share(60, Active, Shortage.WithoutLess6A(0))
    ensures Shortage.Decision([0, 1, 2], [C, C, A], 60, 100, 1, Shortage.Share(60, Active, 0))
         == Shortage.Share(0, Paused, Shortage.WithLess6A(0))
    ensures Shortage.Decision([0, 1, 2], [C, C, A], 60, 100, 2, Shortage.Share(60, Active, 0))
         == Shortage.Share(60, Active, 0)
  {
    hide Shortage.WithLess6A, Shortage.WithoutLess6A, Shortage.ChargingBefore;
    TrioCharging();
  }

  lemma TrioHandedOut()
    ensures Surplus.HandedOut(Surplus.Nodes([Active, Paused, Active], [160, 160, 160]), [60, 0, 60], [80, 0, 80], 40, 0)
  {
    hide Shortage.Sum;
    SumOfThree([60, 0, 60]);
    SumOfThree([80, 0, 80]);
    assert Surplus.Dealt(Surplus.Nodes([Active, Paused, Active], [160, 160, 160]), [60, 0, 60], [80, 0, 80], 20, 0);
  }

  /** A node that is about to charge with 6 A, and one that charges with 16 A, may take 32 A and is all
      that the meters see. */
  ghost function JoiningPair(): Fleet {
    Fleet([B, C], [60, 160], [160, 320], [0, 160], [Inactive, Active], [0, 0], [0, 0], [0, 0])
  }

  ghost predicate JoiningSettings(cfg: Config) {
    && cfg.mode == Smart && cfg.loadBl == 1 && cfg.maxMains == 25 && cfg.maxCircuit == 32 && cfg.minCurrent == 6
    && cfg.mainsMeasured == 160 && cfg.evMeasured == 160 && cfg.maxSumMains == 0 && cfg.maxCircuitMains == 0
    && cfg.capacityHeadroom == NO_LIMIT && !cfg.gridRelayOpen && cfg.emaAlpha == 100
  }

  /** Current is granted, as 12 A fit into the 25 A of the mains.  The evaluation gives all 25 A to the
      node that charges, and with the newcomer 31 A are assigned. */
  lemma {:induction false} NewcomerAboveMains(cfg: Config, c: Control, r: Regulator)
      returns (d: Control, q: Regulator, g: Fleet, h: Fleet, how: Account)
    requires JoiningSettings(cfg) && r.updated
    ensures Available(cfg, c.nrPhases, 2, SurveyOf(JoiningPair()))
    ensures Evaluated(cfg, true, c, r, JoiningPair(), d, q, g, h, how) && Baseload(cfg, SurveyOf(JoiningPair())) == 0
    ensures Sized(g) && g.states == [B, C] && Shortage.Total([C, C], g.balanced) == 310 > 10 * cfg.maxMains
  {
    hide Shortage.Sum;
    var f := JoiningPair();
    var (r0, f0) := Limited0(cfg, r, f);
    BehindTotal(f0.max);
    BehindTotal(f.max);
    BehindTotal(f.balanced);
    BehindTotal(Distribution.Ones(2));
    BehindTotal([60, 250]);
    PairTotal([60, 250]);
    var s := SurveyOf(f0);
    JoiningTarget(cfg, c.nrPhases, r0, s);
    h := f0.(balanced := [60, 250], errors := [0, Shortage.WithoutLess6A(0)]);
    how := ByLevel(250);
    JoiningDistributed(cfg, f0, h);
    hide Target, Distributed, SurveyOf, Shortage.Total, ChargeCurrent;
    d, q, g := Outcome(cfg, true, c, r, f, h, how);
    NothingMoves(cfg, c, r, f, d, q, g, h, how);
  }

  /** What an evaluation makes of a distribution. */
  lemma {:induction false} Outcome(cfg: Config, mod: bool, c: Control, r: Regulator, f: Fleet, h: Fleet, how: Account)
      returns (d: Control, q: Regulator, g: Fleet)
    requires Sized(f) && Sized(h)
    requires var (r0, f0) := Limited0(cfg, r, f);
             Given(cfg, Target(cfg, c.nrPhases, r0, mod, SurveyOf(f0)), SurveyOf(f0), f0, h, how)
    ensures Evaluated(cfg, mod, c, r, f, d, q, g, h, how)
  {
    hide Judged, Spent, Target, SurveyOf, RampedRegulator, Ramped, Moved, Given;
    var (r0, f0) := Limited0(cfg, r, f);
    var s := SurveyOf(f0);
    var r1 := Target(cfg, c.nrPhases, r0, mod, s);
    var p := Moved(cfg, mod, r1, s, h);
    d := Judged(cfg, c, r1, s, Active in h.schedule);
    q := RampedRegulator(cfg, Spent(cfg, r1, s), f.states[0], p.balanced[0]);
    g := Ramped(cfg, Spent(cfg, r1, s), p);
  }

  lemma BehindTotal(b: seq<nat>)
    requires |b| == 2
    ensures Shortage.Total([B, C], b) == b[1]
  {
    SumOfTwo(Shortage.Drawn([B, C], b));
  }

  lemma JoiningTarget(cfg: Config, nrPhases: nat, r: Regulator, s: Survey)
    requires JoiningSettings(cfg) && s == Survey(1, 320, 160)
    ensures Target(cfg, nrPhases, r, true, s).isetBalanced == 250
    ensures Target(cfg, nrPhases, r, true, s).updated == r.updated
  {
    hide Mean, Regulated;
    NoSmoothing(cfg, Unsmoothed(cfg, nrPhases, r, true, s));
  }

  lemma JoiningDistributed(cfg: Config, f: Fleet, h: Fleet)
    requires JoiningSettings(cfg) && Sized(f) && f.states == [B, C] && SurveyOf(f) == Survey(1, 320, 160)
    requires f.balanced == [60, 160] && f.max[1] == 320 && f.errors == [0, 0] && f.schedule == [Inactive, Active]
    requires f.idle == [0, 0]
    requires h == f.(balanced := [60, 250], errors := [0, Shortage.WithoutLess6A(0)])
    ensures Distributed(cfg, 250, f, h, ByLevel(250))
  {
    hide Shortage.Sum, Shortage.WithoutLess6A;
    BehindTotal([60, 250]);
  }

  /** A single charging node with nothing available keeps its minimum of 6 A. */
  lemma {:induction false} SingleNodeAboveAvailable(cfg: Config)
    requires cfg.minCurrent == 6
    ensures var f := Fleet([C], [0], [160], [0], [Inactive], [0], [0], [0]);
            && Distributed(cfg, 0, f, f.(balanced := [60]), ByLevel(60))
            && Shortage.Total([C], [60]) == 60
  {
    hide Shortage.Sum;
    SingleTotal(Distribution.Ones(1));
    SingleTotal([160]);
    SingleTotal([60]);
    SingleTotal([0]);
  }

  lemma SingleTotal(b: seq<nat>)
    requires |b| == 1
    ensures Shortage.Total([C], b) == b[0]
  {
    assert Shortage.Drawn([C], b) == b;
    SumOfOne(b);
  }
}
