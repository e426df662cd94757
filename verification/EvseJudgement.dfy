/** What evse_calc_balanced_current concludes about shortage. */
module EvseJudgement {
  import opened Options
  import opened CArithmetic
  import opened EvseTypes
  import opened EvseControl
  import opened EvseRegulation
  import EvseSteps

  /** Lines 674-710: phases in normal mode, the time limit on the sum of the mains in smart mode. */
  function Noted(cfg: Config, c: Control): (d: Control)
    ensures d.state == c.state
  {
    if cfg.mode == Normal then if c.nrPhases != 3 then c.(switching := To3P) else c
    else if cfg.maxSumMains != 0 && !OverSumMains(cfg) then c.(maxSumMainsTimer := 0)
    else c
  }

  /** LimitedByMaxSumMains. */
  predicate Limited(cfg: Config) { cfg.mode != Normal && OverSumMains(cfg) }

  /** Ten times the minimum current for every charging node. */
  function LeastForAll(cfg: Config, s: Survey): nat { s.active * (cfg.minCurrent * 10) }

  predicate InShortage(cfg: Config, s: Survey, isetBalanced: int) { isetBalanced < LeastForAll(cfg, s) }

  predicate Distributing(cfg: Config, r: Regulator, s: Survey) { s.active > 0 && (r.updated || cfg.mode == Normal) }

  /** The current is shared by priority: line 870. */
  predicate ByPriority(cfg: Config, s: Survey, isetBalanced: int) {
    InShortage(cfg, s, isetBalanced) && cfg.loadBl == 1 && s.active > 1
  }

  /** Lines 853-867. */
  predicate HardShortage(cfg: Config, s: Survey) {
    var wanted := LeastForAll(cfg, s);
    || (MainsGuarded(cfg) && wanted > cfg.maxMains * 10 - Baseload(cfg, s))
    || (CircuitGuarded(cfg) && wanted > cfg.maxCircuit * 10 - BaseloadEv(cfg, s))
    || (cfg.maxSumMainsTime == 0 && Limited(cfg))
    || (cfg.maxCircuitMains != 0 && cfg.circuitMeasured > cfg.maxCircuitMains * 10)
  }

  function CountShortage(c: Control): Control {
    if c.noCurrent < 255 then c.(noCurrent := c.noCurrent + 1) else c
  }

  /** Lines 869-900; `anyActive` tells whether priority scheduling gave anybody current. */
  function ShortageNoted(cfg: Config, c: Control, s: Survey, anyActive: bool): Control {
    if cfg.loadBl == 1 && s.active > 1 then if anyActive then c else CountShortage(c)
    else if HardShortage(cfg, s) && c.switching != To1P then CountShortage(c)
    else if Limited(cfg) && cfg.maxSumMainsTime != 0 && c.maxSumMainsTimer == 0 then
      c.(maxSumMainsTimer := ToUint16(cfg.maxSumMainsTime * 60))
    else c
  }

  /** Lines 869-913. */
  function AfterShortage(cfg: Config, c: Control, s: Survey, anyActive: bool): (e: Control)
    ensures e.state == c.state
  {
    var d := ShortageNoted(cfg, c, s, anyActive);
    if d.noCurrent >= cfg.noCurrentThreshold && cfg.mode != Normal then d.(errors := d.errors.(less6A := true)) else d
  }

  /** Lines 929-931. */
  function AfterPlenty(c: Control): Control { c.(maxSumMainsTimer := 0, noCurrent := Down(c.noCurrent)) }

  /** Lines 841-932: a distribution shows whether there is enough. */
  function Shown(cfg: Config, c: Control, r: Regulator, s: Survey, anyActive: bool): (d: Control)
    ensures d.state == c.state
  {
    if !Distributing(cfg, r, s) then c
    else if InShortage(cfg, s, r.isetBalanced) then AfterShortage(cfg, c, s, anyActive)
    else AfterPlenty(c)
  }

  /** The whole effect on the control state; r is the regulation after smoothing. */
  function Judged(cfg: Config, c: Control, r: Regulator, s: Survey, anyActive: bool): Control {
    var d := Shown(cfg, Noted(cfg, c), r, s, anyActive);
    if s.active == 0 then d.(maxSumMainsTimer := 0, noCurrent := 0) else d
  }

  lemma NotedIsBalance(cfg: Config, c: Control)
    ensures EvseSteps.Balanced(c, Noted(cfg, c))
  {
    hide OverSumMains;
  }

  lemma ShortageIsBalance(cfg: Config, c: Control, s: Survey, anyActive: bool)
    ensures EvseSteps.Balanced(c, AfterShortage(cfg, c, s, anyActive))
  {
    hide HardShortage, Limited, CountShortage;
    assert CountShortage(c) == c.(noCurrent := CountShortage(c).noCurrent) by {
      CountsOne(c);
    }
  }

  lemma CountsOne(c: Control)
    ensures var d := CountShortage(c); d == c.(noCurrent := d.noCurrent) && d.noCurrent <= c.noCurrent + 1
  {
  }

  lemma BalanceTwice(c: Control, d: Control, e: Control)
    requires EvseSteps.Balanced(c, d) && EvseSteps.Balanced(d, e)
    ensures EvseSteps.Balanced(c, e)
  {
  }

  lemma CountersAreBalance(c: Control, timer: nat, count: nat)
    ensures EvseSteps.Balanced(c, c.(maxSumMainsTimer := timer, noCurrent := count))
  {
  }

  /** Within what the runs of the state machine allow an evaluation to do. */
  lemma JudgedIsBalance(cfg: Config, c: Control, r: Regulator, s: Survey, anyActive: bool)
    ensures EvseSteps.Balanced(c, Judged(cfg, c, r, s, anyActive))
  {
    hide EvseSteps.Balanced, Noted, AfterShortage, InShortage, Distributing;
    var d := Noted(cfg, c);
    NotedIsBalance(cfg, c);
    ShortageIsBalance(cfg, d, s, anyActive);
    CountersAreBalance(d, d.maxSumMainsTimer, d.noCurrent);
    CountersAreBalance(d, 0, Down(d.noCurrent));
    var e := Shown(cfg, d, r, s, anyActive);
    BalanceTwice(c, d, e);
    CountersAreBalance(e, 0, 0);
    BalanceTwice(c, e, Judged(cfg, c, r, s, anyActive));
  }

  // ------------------------------------------------------------------ after a grant

  /** The evaluation comes to the test for a hard shortage and finds one; r is the regulation after
      smoothing. */
  predicate FindsHardShortage(cfg: Config, r: Regulator, s: Survey) {
    Distributing(cfg, r, s) && InShortage(cfg, s, r.isetBalanced) && HardShortage(cfg, s)
  }

  predicate Overloaded(cfg: Config) { cfg.maxCircuitMains != 0 && cfg.circuitMeasured > cfg.maxCircuitMains * 10 }

  /** In normal mode only the charge current itself and the grid relay can make the current short. */
  predicate ShortInNormalMode(cfg: Config, nrPhases: nat, chargeCurrent: nat, s: Survey) {
    || (cfg.loadBl != 1 && chargeCurrent < LeastForAll(cfg, s))
    || (cfg.gridRelayOpen && TruncDiv(cfg.gridRelayMax * 10, Phases(cfg, nrPhases)) < LeastForAll(cfg, s))
  }

  /** A node to which current was granted does not by that bring about a hard shortage: with it, at
      any current, the minimum for all still fits.  Only an overload of the circuit meter, which is
      not asked when current is granted, is left; without smoothing the evaluation finds it in smart
      mode always, in normal mode only if the current is short for another reason. */
  lemma {:induction false} GrantLeavesRoom(cfg: Config, nrPhases: nat, n: nat, s: Survey, t: Survey, r: Regulator)
    requires Available(cfg, nrPhases, n, s) && s.active < n
    requires t.active == s.active + 1 && t.total >= s.total
    ensures var q := Target(cfg, nrPhases, r, false, t);
            && (FindsHardShortage(cfg, q, t) <==>
                  Overloaded(cfg) && InShortage(cfg, t, q.isetBalanced) && (r.updated || cfg.mode == Normal))
            && (cfg.minCurrent > 0 && (cfg.mode == Normal || cfg.emaAlpha == 100) ==>
                  (FindsHardShortage(cfg, q, t) <==>
                     Overloaded(cfg)
                     && if cfg.mode == Normal then ShortInNormalMode(cfg, nrPhases, r.chargeCurrent, t) else r.updated))
  {
    GrantFits(cfg, nrPhases, n, s, t);
    TargetUpdated(cfg, nrPhases, r, t);
    if cfg.mode == Normal {
      NormalTarget(cfg, nrPhases, n, s, t, r);
    } else if Overloaded(cfg) && cfg.emaAlpha == 100 && cfg.minCurrent > 0 {
      OverloadIsShort(cfg, nrPhases, r, t);
    }
  }

  lemma {:induction false} GrantFits(cfg: Config, nrPhases: nat, n: nat, s: Survey, t: Survey)
    requires Available(cfg, nrPhases, n, s) && s.active < n
    requires t.active == s.active + 1 && t.total >= s.total
    ensures HardShortage(cfg, t) <==> Overloaded(cfg)
  {
    MultiplyOrder(0, t.active, cfg.minCurrent * 10);
  }

  lemma TargetUpdated(cfg: Config, nrPhases: nat, r: Regulator, s: Survey)
    ensures Target(cfg, nrPhases, r, false, s).updated == r.updated
  {
    hide Mean, Headroom, Guarded, Joining, FilterWeight, Oscillation;
  }

  lemma {:induction false} NormalTarget(cfg: Config, nrPhases: nat, n: nat, s: Survey, t: Survey, r: Regulator)
    requires Available(cfg, nrPhases, n, s) && s.active < n && cfg.mode == Normal
    requires t.active == s.active + 1 && t.total >= s.total
    ensures InShortage(cfg, t, Target(cfg, nrPhases, r, false, t).isetBalanced)
       <==> ShortInNormalMode(cfg, nrPhases, r.chargeCurrent, t)
  {
    hide TruncDiv, Phases;
  }

  /** An overload takes the limit to 0 at most. */
  lemma {:induction false} OverloadIsShort(cfg: Config, nrPhases: nat, r: Regulator, t: Survey)
    requires cfg.mode != Normal && Overloaded(cfg) && cfg.emaAlpha == 100 && cfg.minCurrent > 0 && t.active > 0
    ensures InShortage(cfg, t, Target(cfg, nrPhases, r, false, t).isetBalanced)
  {
    var over, phases := cfg.maxCircuitMains * 10 - cfg.circuitMeasured, Phases(cfg, nrPhases);
    assert TruncDiv(over, phases) <= 0;
    MultiplyOrder(1, t.active, cfg.minCurrent * 10);
    hide Mean, Regulated, TruncDiv;
    NoSmoothing(cfg, Unsmoothed(cfg, nrPhases, r, false, t));
  }

  /** Without priority scheduling a shortage is counted exactly when the evaluation finds a hard one, and
      no switch to one phase is under way. */
  lemma {:induction false} ShortageCounted(cfg: Config, c: Control, r: Regulator, s: Survey, anyActive: bool)
    requires !(cfg.loadBl == 1 && s.active > 1)
    ensures Judged(cfg, c, r, s, anyActive).noCurrent > c.noCurrent
       <==> FindsHardShortage(cfg, r, s) && Noted(cfg, c).switching != To1P && c.noCurrent < 255
  {
    hide HardShortage, InShortage, Limited, Noted, AfterShortage;
    NotedCounts(cfg, c);
    CountedInShortage(cfg, Noted(cfg, c), s, anyActive);
  }

  lemma CountedInShortage(cfg: Config, c: Control, s: Survey, anyActive: bool)
    requires !(cfg.loadBl == 1 && s.active > 1)
    ensures AfterShortage(cfg, c, s, anyActive).noCurrent > c.noCurrent
       <==> HardShortage(cfg, s) && c.switching != To1P && c.noCurrent < 255
  {
    hide HardShortage, Limited;
  }

  /** The mains carry 15 A of 25 A, a subpanel limited to 10 A carries 10.1 A. */
  predicate OverloadedPanel(cfg: Config) {
    && cfg.mode == Smart && cfg.loadBl == 0 && cfg.ocppLimit == None && cfg.minCurrent == 6 && cfg.emaAlpha == 100
    && cfg.maxMains == 25 && cfg.mainsMeasured == 150 && cfg.evMeterType == 0 && cfg.maxSumMains == 0
    && cfg.maxCircuitMains == 10 && cfg.circuitMeasured == 101
  }

  /** Current is granted to the only car, and its first evaluation counts a hard shortage. */
  lemma {:induction false} GrantIgnoresCircuitMeter(cfg: Config, c: Control, r: Regulator)
    requires OverloadedPanel(cfg) && r.updated && c.noCurrent == 0 && c.switching == NoSwitch
    ensures Available(cfg, c.nrPhases, 1, Survey(0, 0, 0))
    ensures var t := Survey(1, 160, 0);
            Judged(cfg, c, Target(cfg, c.nrPhases, r, false, t), t, false).noCurrent == 1
  {
    var t := Survey(1, 160, 0);
    GrantLeavesRoom(cfg, c.nrPhases, 1, Survey(0, 0, 0), t, r);
    ShortageCounted(cfg, c, Target(cfg, c.nrPhases, r, false, t), t, false);
    CountsByOne(Judgement(cfg, c, Target(cfg, c.nrPhases, r, false, t), t, false));
    hide Available, Judged, Target, FindsHardShortage;
  }

  // ------------------------------------------------------------------ the grace period

  datatype Judgement = Judgement(cfg: Config, c: Control, r: Regulator, s: Survey, anyActive: bool)

  function Result(j: Judgement): Control { Judged(j.cfg, j.c, j.r, j.s, j.anyActive) }

  /** Nothing else touches the shortage counter between two evaluations. */
  ghost predicate Continues(js: seq<Judgement>, k: nat)
    requires k + 1 < |js|
  {
    js[k + 1].c.noCurrent == Result(js[k]).noCurrent
  }

  ghost predicate Judgements(js: seq<Judgement>) {
    forall k: nat :: k + 1 < |js| ==> Continues(js, k)
  }

  lemma ShortageCounts(cfg: Config, c: Control, s: Survey, anyActive: bool)
    ensures var d := AfterShortage(cfg, c, s, anyActive);
            && d.noCurrent <= c.noCurrent + 1
            && (d.errors.less6A ==> c.errors.less6A || cfg.noCurrentThreshold <= d.noCurrent)
  {
    hide HardShortage, Limited, CountShortage;
    CountsOne(c);
  }

  lemma NotedCounts(cfg: Config, c: Control)
    ensures Noted(cfg, c).noCurrent == c.noCurrent && Noted(cfg, c).errors == c.errors
  {
    hide OverSumMains;
  }

  lemma CountsByOne(j: Judgement)
    ensures Result(j).noCurrent <= j.c.noCurrent + 1
    ensures Result(j).errors.less6A ==> j.c.errors.less6A || j.cfg.noCurrentThreshold <= Result(j).noCurrent
  {
    hide Noted, AfterShortage, InShortage;
    NotedCounts(j.cfg, j.c);
    ShortageCounts(j.cfg, Noted(j.cfg, j.c), j.s, j.anyActive);
  }

  /** A shortage that lasts fewer evaluations than the threshold does not raise LESS_6A. */
  lemma {:induction false} GracePeriod(js: seq<Judgement>, k: nat)
    requires Judgements(js) && k < |js| && js[0].c.noCurrent == 0
    ensures Result(js[k]).noCurrent <= k + 1
    ensures k + 1 < js[k].cfg.noCurrentThreshold ==> (Result(js[k]).errors.less6A ==> js[k].c.errors.less6A)
  {
    hide Result;
    CountsByOne(js[k]);
    if k > 0 {
      GracePeriod(js, k - 1);
      assert Continues(js, k - 1);
    }
  }
}
