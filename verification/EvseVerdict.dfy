/** What an evaluation concludes and leaves behind, written out from the settings, the measurements and
    the state before it. */
module EvseVerdict {
  import opened CArithmetic
  import opened EvseTypes
  import opened EvseControl
  import opened EvseRegulation
  import opened EvseSteering
  import opened EvseJudgement
  import opened EvseAllocation
  import EvseLimits
  import EvseTicks
  import Shortage
  import Surplus
  import Distribution

  // ------------------------------------------------------------------ shortage

  predicate Shares(cfg: Config, r: Regulator, s: Survey) { s.active > 0 && (r.updated || cfg.mode == Normal) }

  /** The limit on all is below the minimum for all. */
  predicate Short(cfg: Config, r: Regulator, s: Survey) {
    Shares(cfg, r, s) && r.isetBalanced < 10 * cfg.minCurrent * s.active
  }

  /** The sum of the mains is above its limit, which normal mode does not ask. */
  predicate SumExceeded(cfg: Config) {
    cfg.mode == Smart && cfg.maxSumMains != 0 && cfg.isum > 10 * cfg.maxSumMains
  }

  /** The minimum for all does not fit mains or circuit; or the sum of the mains is exceeded and may not be
      for a while; or the circuit meter is overloaded. */
  predicate Hard(cfg: Config, s: Survey) {
    || !WithinLines(cfg, s, 10 * cfg.minCurrent * s.active)
    || (SumExceeded(cfg) && cfg.maxSumMainsTime == 0)
    || (cfg.maxCircuitMains != 0 && cfg.circuitMeasured > 10 * cfg.maxCircuitMains)
  }

  lemma HardShortageMeans(cfg: Config, s: Survey)
    ensures HardShortage(cfg, s) <==> Hard(cfg, s)
  {
    assert LeastForAll(cfg, s) == 10 * cfg.minCurrent * s.active;
    hide LeastForAll;
  }

  function SwitchAfter(cfg: Config, c: Control): PhaseSwitch {
    if cfg.mode == Normal && c.nrPhases != 3 then To3P else c.switching
  }

  /** How many evaluations in a row have been short, decaying by one. */
  function CountAfterwards(cfg: Config, c: Control, r: Regulator, s: Survey, anyActive: bool): int {
    if s.active == 0 then 0
    else if !Shares(cfg, r, s) then c.noCurrent
    else if !Short(cfg, r, s) then Max(0, c.noCurrent - 1)
    else if c.noCurrent >= 255 then c.noCurrent
    else if cfg.loadBl == 1 && s.active > 1 then if anyActive then c.noCurrent else c.noCurrent + 1
    else if Hard(cfg, s) && SwitchAfter(cfg, c) != To1P then c.noCurrent + 1
    else c.noCurrent
  }

  /** How long the sum of the mains may still be exceeded. */
  function SumTimerAfterwards(cfg: Config, c: Control, r: Regulator, s: Survey): int {
    var before := if cfg.mode == Smart && cfg.maxSumMains != 0 && !SumExceeded(cfg) then 0 else c.maxSumMainsTimer;
    if s.active == 0 then 0
    else if !Shares(cfg, r, s) then before
    else if !Short(cfg, r, s) then 0
    else if (cfg.loadBl == 1 && s.active > 1) || (Hard(cfg, s) && SwitchAfter(cfg, c) != To1P) then before
    else if SumExceeded(cfg) && cfg.maxSumMainsTime != 0 && before == 0 then cfg.maxSumMainsTime * 60 % 0x1_0000
    else before
  }

  /** LESS_6A is raised, never cleared: in smart mode, when short evaluations have reached the threshold. */
  predicate Less6AAfterwards(cfg: Config, c: Control, r: Regulator, s: Survey, anyActive: bool) {
    || c.errors.less6A
    || (Short(cfg, r, s) && cfg.mode == Smart
        && CountAfterwards(cfg, c, r, s, anyActive) >= cfg.noCurrentThreshold)
  }

  lemma NotedExactly(cfg: Config, c: Control)
    ensures Noted(cfg, c)
         == c.(switching := SwitchAfter(cfg, c),
               maxSumMainsTimer := if cfg.mode == Smart && cfg.maxSumMains != 0 && !SumExceeded(cfg) then 0
                                   else c.maxSumMainsTimer)
    ensures Limited(cfg) == SumExceeded(cfg)
  {
  }

  /** With priority scheduling only the count can change. */
  lemma CountersByPriority(cfg: Config, c: Control, d: Control, r: Regulator, s: Survey, anyActive: bool)
    requires d == Noted(cfg, c) && Short(cfg, r, s) && cfg.loadBl == 1 && s.active > 1
    ensures ShortageNoted(cfg, d, s, anyActive).noCurrent == CountAfterwards(cfg, c, r, s, anyActive)
    ensures ShortageNoted(cfg, d, s, anyActive).maxSumMainsTimer == SumTimerAfterwards(cfg, c, r, s)
  {
    NotedExactly(cfg, c);
    hide Noted, HardShortage, Hard, Limited, SumExceeded, SwitchAfter;
  }

  lemma CountersAlone(cfg: Config, c: Control, d: Control, r: Regulator, s: Survey, anyActive: bool)
    requires d == Noted(cfg, c) && Short(cfg, r, s) && !(cfg.loadBl == 1 && s.active > 1)
    ensures ShortageNoted(cfg, d, s, anyActive).noCurrent == CountAfterwards(cfg, c, r, s, anyActive)
    ensures ShortageNoted(cfg, d, s, anyActive).maxSumMainsTimer == SumTimerAfterwards(cfg, c, r, s)
  {
    NotedExactly(cfg, c);
    HardShortageMeans(cfg, s);
    hide Noted, HardShortage, Hard, Limited, SumExceeded, SwitchAfter;
  }

  lemma OnlyCounters(cfg: Config, d: Control, s: Survey, anyActive: bool)
    ensures var e := ShortageNoted(cfg, d, s, anyActive);
            e == d.(noCurrent := e.noCurrent, maxSumMainsTimer := e.maxSumMainsTimer)
  {
    hide HardShortage, Limited;
  }

  lemma ShortageExactly(cfg: Config, c: Control, d: Control, r: Regulator, s: Survey, anyActive: bool)
    requires d == Noted(cfg, c) && Short(cfg, r, s)
    ensures AfterShortage(cfg, d, s, anyActive)
         == d.(noCurrent := CountAfterwards(cfg, c, r, s, anyActive),
               maxSumMainsTimer := SumTimerAfterwards(cfg, c, r, s),
               errors := d.errors.(less6A := Less6AAfterwards(cfg, c, r, s, anyActive)))
  {
    NotedExactly(cfg, c);
    OnlyCounters(cfg, d, s, anyActive);
    if cfg.loadBl == 1 && s.active > 1 {
      CountersByPriority(cfg, c, d, r, s, anyActive);
    } else {
      CountersAlone(cfg, c, d, r, s, anyActive);
    }
    hide Noted, ShortageNoted, CountAfterwards, SumTimerAfterwards, SwitchAfter, SumExceeded;
  }

  /** The verdict as it is written out. */
  function Verdict(cfg: Config, c: Control, r: Regulator, s: Survey, anyActive: bool): Control {
    c.(noCurrent := CountAfterwards(cfg, c, r, s, anyActive),
       maxSumMainsTimer := SumTimerAfterwards(cfg, c, r, s),
       switching := SwitchAfter(cfg, c),
       errors := c.errors.(less6A := Less6AAfterwards(cfg, c, r, s, anyActive)))
  }

  lemma SameQuestions(cfg: Config, r: Regulator, s: Survey)
    ensures Distributing(cfg, r, s) == Shares(cfg, r, s)
    ensures Distributing(cfg, r, s) && InShortage(cfg, s, r.isetBalanced) <==> Short(cfg, r, s)
  {
    assert LeastForAll(cfg, s) == 10 * cfg.minCurrent * s.active;
    hide LeastForAll;
  }

  lemma VerdictInShortage(cfg: Config, c: Control, r: Regulator, s: Survey, anyActive: bool)
    requires Short(cfg, r, s)
    ensures Judged(cfg, c, r, s, anyActive) == Verdict(cfg, c, r, s, anyActive)
  {
    SameQuestions(cfg, r, s);
    NotedExactly(cfg, c);
    ShortageExactly(cfg, c, Noted(cfg, c), r, s, anyActive);
    hide Noted, AfterShortage, Distributing, InShortage, CountAfterwards, SumTimerAfterwards, Less6AAfterwards,
         SwitchAfter;
  }

  lemma VerdictOtherwise(cfg: Config, c: Control, r: Regulator, s: Survey, anyActive: bool)
    requires !Short(cfg, r, s)
    ensures Judged(cfg, c, r, s, anyActive) == Verdict(cfg, c, r, s, anyActive)
  {
    SameQuestions(cfg, r, s);
    NotedExactly(cfg, c);
    hide Noted, AfterShortage, Distributing, InShortage, Hard, SumExceeded, SwitchAfter, Short;
  }

  /** The whole verdict of an evaluation. */
  lemma {:induction false} VerdictExactly(cfg: Config, c: Control, r: Regulator, s: Survey, anyActive: bool)
    ensures Judged(cfg, c, r, s, anyActive) == Verdict(cfg, c, r, s, anyActive)
  {
    hide Judged, Verdict;
    if Short(cfg, r, s) {
      VerdictInShortage(cfg, c, r, s, anyActive);
    } else {
      VerdictOtherwise(cfg, c, r, s, anyActive);
    }
  }

  // ------------------------------------------------------------------ the charger's own limit

  /** A positive current is within the charger's own limit exactly if it is within the configured one,
      within that of the cable while charging at a socket, and within that of the central system, which
      excludes a charge when it is below the minimum.  An override replaces them all. */
  lemma OwnLimit(cfg: Config, state: State, v: int)
    requires v > 0 && 10 * cfg.maxCurrent < 0x1_0000 && 10 * cfg.maxCapacity < 0x1_0000
    requires cfg.ocppLimit.Some? ==> cfg.ocppLimit.value < 0x1_0000
    ensures cfg.overrideCurrent == 0 ==>
              (v <= ChargeCurrent(cfg, state)
               <==> && v <= 10 * cfg.maxCurrent
                    && (state == C && !cfg.fixedCable ==> v <= 10 * cfg.maxCapacity)
                    && (cfg.ocppLimit.Some? && cfg.loadBl == 0 ==>
                          10 * cfg.minCurrent <= cfg.ocppLimit.value && v <= cfg.ocppLimit.value))
    ensures cfg.overrideCurrent != 0 ==> ChargeCurrent(cfg, state) == cfg.overrideCurrent
  {
  }

  // ------------------------------------------------------------------ what is left behind

  lemma SharedTotal(cfg: Config, isetBalanced: int, f: Fleet, h: Fleet, how: Account)
    requires Distributed(cfg, isetBalanced, f, h, how) && !ByPriority(cfg, SurveyOf(f), isetBalanced)
    ensures |h.balanced| == |f.states|
    ensures Shortage.Total(f.states, h.balanced) == Pool(cfg, SurveyOf(f), isetBalanced)
  {
    assert Shared(f, h, Pool(cfg, SurveyOf(f), isetBalanced), how.level);
    hide SurveyOf, Pool, ByPriority, Shortage.Total, Distribution.Levelled, Marked, Prioritized, InShortage;
  }

  /** After a distribution that is not made by priority the limit is what the charging nodes were given
      together; after one by priority it is the minimum for all. */
  lemma {:induction false} LimitAfterwards(cfg: Config, r: Regulator, f: Fleet, h: Fleet, how: Account)
    requires Sized(f) && Distributing(cfg, r, SurveyOf(f)) && Distributed(cfg, r.isetBalanced, f, h, how)
    ensures |h.balanced| == |f.states|
    ensures Spent(cfg, r, SurveyOf(f)).isetBalanced
         == if ByPriority(cfg, SurveyOf(f), r.isetBalanced) then 10 * cfg.minCurrent * SurveyOf(f).active
            else Shortage.Total(f.states, h.balanced)
  {
    hide Distributed, Distributing, ByPriority, SurveyOf, Shortage.Total, Pool;
    EvseLimits.DistributedStates(cfg, r.isetBalanced, f, h, how);
    if !ByPriority(cfg, SurveyOf(f), r.isetBalanced) {
      SharedTotal(cfg, r.isetBalanced, f, h, how);
    }
  }

  /** The regulation keeps what only the ramp writes. */
  lemma TargetKeeps(cfg: Config, nrPhases: nat, r: Regulator, mod: bool, s: Survey)
    ensures var q := Target(cfg, nrPhases, r, mod, s);
            && q.lastBalanced == r.lastBalanced && q.settlingTimer == r.settlingTimer
            && q.chargeCurrent == r.chargeCurrent
  {
    hide Mean, Headroom, Guarded, Joining, FilterWeight, Oscillation;
  }

  /** The current b of a standalone charger that charges in smart mode moves at most by the ramp rate from
      that of the evaluation before, which is remembered; a change starts the settling time.  Others
      remember and settle nothing. */
  predicate RampKept(cfg: Config, state: State, r: Regulator, b: nat, q: Regulator) {
    if cfg.mode == Smart && cfg.loadBl == 0 && state == C then
      && q.lastBalanced == b
      && (cfg.maxRampRate > 0 && r.lastBalanced > 0 ==>
            r.lastBalanced - cfg.maxRampRate <= b <= r.lastBalanced + cfg.maxRampRate)
      && q.settlingTimer == (if b != r.lastBalanced && cfg.settlingWindow > 0 then cfg.settlingWindow
                             else r.settlingTimer)
    else q.lastBalanced == r.lastBalanced && q.settlingTimer == r.settlingTimer
  }

  lemma RampExactly(cfg: Config, r: Regulator, p: Fleet)
    requires Sized(p)
    ensures var q := RampedRegulator(cfg, r, p.states[0], p.balanced[0]);
            !q.updated && RampKept(cfg, p.states[0], r, Ramped(cfg, r, p).balanced[0], q)
    ensures Sized(Ramped(cfg, r, p))
  {
    if cfg.maxRampRate > 0 && r.lastBalanced > 0 {
      ApproachesWithoutOvershoot(cfg.maxRampRate, p.balanced[0], r.lastBalanced);
    }
    hide Approach;
  }

  /** What the ramp starts from. */
  ghost function BeforeRamp(cfg: Config, mod: bool, c: Control, r: Regulator, f: Fleet, h: Fleet)
      : (x: (Regulator, Fleet))
    requires Sized(f) && Sized(h)
    ensures Sized(x.1)
  {
    var (r0, f0) := Limited0(cfg, r, f);
    var s := SurveyOf(f0);
    var r1 := Target(cfg, c.nrPhases, r0, mod, s);
    (Spent(cfg, r1, s), Moved(cfg, mod, r1, s, h))
  }

  lemma {:induction false} KeptBeforeRamp(cfg: Config, mod: bool, c: Control, r: Regulator, f: Fleet,
                                          d: Control, q: Regulator, g: Fleet, h: Fleet, how: Account)
    requires Evaluated(cfg, mod, c, r, f, d, q, g, h, how)
    ensures var (r2, p) := BeforeRamp(cfg, mod, c, r, f, h);
            && r2.lastBalanced == r.lastBalanced && r2.settlingTimer == r.settlingTimer
            && r2.chargeCurrent == ChargeCurrent(cfg, f.states[0])
            && p.states == f.states && p.max == f.max[0 := ChargeCurrent(cfg, f.states[0])]
            && g == Ramped(cfg, r2, p) && q == RampedRegulator(cfg, r2, f.states[0], p.balanced[0])
  {
    var (r0, f0) := Limited0(cfg, r, f);
    var s := SurveyOf(f0);
    var r1 := Target(cfg, c.nrPhases, r0, mod, s);
    TargetKeeps(cfg, c.nrPhases, r0, mod, s);
    hide Target, SurveyOf, Judged, Distributing, Distributed, ByPriority, Pool, LeastForAll, ChargeCurrent, Ramped,
         RampedRegulator;
    if Distributing(cfg, r1, s) {
      EvseLimits.DistributedStates(cfg, r1.isetBalanced, f0, h, how);
    }
  }

  lemma {:induction false} StandaloneRamps(cfg: Config, mod: bool, c: Control, r: Regulator, f: Fleet,
                                           d: Control, q: Regulator, g: Fleet, h: Fleet, how: Account)
    requires Evaluated(cfg, mod, c, r, f, d, q, g, h, how)
    ensures Sized(f) && Sized(g) && !q.updated && RampKept(cfg, f.states[0], r, g.balanced[0], q)
  {
    KeptBeforeRamp(cfg, mod, c, r, f, d, q, g, h, how);
    var (r2, p) := BeforeRamp(cfg, mod, c, r, f, h);
    RampExactly(cfg, r2, p);
    hide BeforeRamp, Ramped, RampedRegulator, ChargeCurrent, Judged, Given, Target, SurveyOf;
  }

  /** An evaluation makes the charger's own limit the maximum of node 0 and leaves the others'. */
  lemma {:induction false} OwnMaximum(cfg: Config, mod: bool, c: Control, r: Regulator, f: Fleet,
                                      d: Control, q: Regulator, g: Fleet, h: Fleet, how: Account)
    requires Evaluated(cfg, mod, c, r, f, d, q, g, h, how)
    ensures Sized(f) && g.max == f.max[0 := q.chargeCurrent] && q.chargeCurrent == ChargeCurrent(cfg, f.states[0])
  {
    KeptBeforeRamp(cfg, mod, c, r, f, d, q, g, h, how);
    hide BeforeRamp, ChargeCurrent, Judged, Given, Target, SurveyOf;
  }

  // ------------------------------------------------------------------ the node that begins

  /** A distribution leaves a node alone that does not charge and holds no slot. */
  lemma {:induction false} Untouched(cfg: Config, isetBalanced: int, f: Fleet, h: Fleet, how: Account, i: nat)
    requires Distributed(cfg, isetBalanced, f, h, how)
    requires i < |f.states| && f.states[i] != C && f.schedule[i] != Active
    ensures |h.balanced| == |f.states| && h.balanced[i] == f.balanced[i]
  {
    hide Priority.PriorityOrder, InShortage, SurveyOf, HasPlace, Shortage.Decision, Shortage.Sum, Surplus.HandedOut,
         Distribution.Levelled;
    if ByPriority(cfg, SurveyOf(f), isetBalanced) {
      var least, available := cfg.minCurrent * 10, Max(0, isetBalanced);
      SlotsAfterScheduling(how.order, least, available, f, h, how.mid, how.left, i);
      NoSlotNoGain(Surplus.Nodes(h.schedule, f.max), how.mid, h.balanced,
                   available - least * Shortage.Funded(how.order, f.states, least, available), how.left, i);
    }
  }

  /** A charge begins with the minimum current. */
  lemma {:induction false} StartsAtMinimum(cfg: Config, c: Control, pilot: Pilot, r: Regulator, f: Fleet,
                                           after: Control, q: Regulator, g: Fleet, h: Fleet, how: Account)
    requires EvseTicks.Served(cfg, c, pilot, true, r, f, after, q, g, h, how) && Starts(cfg, c, pilot, true)
    requires Sized(f) && f.states[0] != C && f.schedule[0] != Active && 10 * cfg.minCurrent < 0x1_0000
    ensures Sized(g) && g.balanced[0] == 10 * cfg.minCurrent
  {
    var asked := EvseTicks.AskingNodes(r, f);
    var a := asked.(balanced := asked.balanced[0 := ToUint16(cfg.minCurrent * 10)]);
    assert Evaluated(cfg, true, Counted(c), r, a, after, q, g.(states := f.states), h, how);
    hide Evaluated, Distributed, Distributing, Target, SurveyOf, ChargeCurrent;
    EvseLimits.NothingMoves(cfg, Counted(c), r, a, after, q, g.(states := f.states), h, how);
    var (r0, a0) := Limited0(cfg, r, a);
    var r1 := Target(cfg, c.nrPhases, r0, true, SurveyOf(a0));
    if Distributing(cfg, r1, SurveyOf(a0)) {
      Untouched(cfg, r1.isetBalanced, a0, h, how, 0);
    }
  }

  /** A car that is connected is offered the capacity of the cable, if that is below the configured
      maximum, or else the minimum; its maximum is the capacity. */
  lemma OfferedCurrent(cfg: Config, f: Fleet)
    requires Sized(f) && 10 * cfg.maxCapacity < 0x1_0000 && 10 * cfg.minCurrent < 0x1_0000
    ensures var g := EvseTicks.ConnectedNodes(cfg, true, f);
            && g == f.(max := f.max[0 := 10 * cfg.maxCapacity], balanced := f.balanced[0 := g.balanced[0]])
            && g.balanced[0] == 10 * if 0 < cfg.maxCapacity < cfg.maxCurrent then cfg.maxCapacity else cfg.minCurrent
  {
  }
}
