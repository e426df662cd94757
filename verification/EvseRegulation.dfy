/** The current that all charging nodes together may draw: evse_calc_balanced_current up to the
    distribution.  Currents are in tenths of an ampere. */
module EvseRegulation {
  import opened CArithmetic
  import opened EvseTypes
  import opened EvseControl

  const MAX_DELTA := 30
  const HARD_LIMIT := 800

  /** The state of the regulation; `updated` is phasesLastUpdateFlag. */
  datatype Regulator = Regulator(
    chargeCurrent: nat, isetBalanced: int, isetEma: int, isetPrev: int,
    idiffPrev: int, oscillation: nat, idiffFiltered: int,
    lastBalanced: nat, settlingTimer: nat, updated: bool)

  /** After evse_init. */
  function IdleRegulator(): Regulator { Regulator(0, 0, 0, 0, 0, 0, 0, 0, 0, true) }

  /** Lines 656-663: the number of charging nodes and the sums of their maxima and currents. */
  datatype Survey = Survey(active: nat, activeMax: nat, total: nat)

  function Baseload(cfg: Config, s: Survey): int { cfg.mainsMeasured - s.total }

  function BaseloadEv(cfg: Config, s: Survey): int { Max(0, cfg.evMeasured - s.total) }

  function Phases(cfg: Config, nrPhases: nat): int { if ForceSinglePhase(cfg, nrPhases) then 1 else 3 }

  /** Lines 634-652. */
  function ChargeCurrent(cfg: Config, state: State): nat {
    var own := if state == C && cfg.maxCurrent > cfg.maxCapacity && !cfg.fixedCable
               then ToUint16(cfg.maxCapacity * 10) else ToUint16(cfg.maxCurrent * 10);
    var limited :=
      if cfg.ocppLimit.Some? && cfg.loadBl == 0 then
        if cfg.ocppLimit.value < cfg.minCurrent * 10 then 0 else Min(ToUint16(cfg.ocppLimit.value), own)
      else own;
    if cfg.overrideCurrent != 0 then cfg.overrideCurrent else limited
  }

  // ------------------------------------------------------------------ limits

  predicate OverSumMains(cfg: Config) { cfg.maxSumMains != 0 && cfg.maxSumMains * 10 - cfg.isum < 0 }

  /** Lines 687-725: how much more the installation can carry. */
  function Headroom(cfg: Config): int {
    var mains := cfg.maxMains * 10 - cfg.mainsMeasured;
    var a := if cfg.loadBl < 2 && cfg.evMeterType != 0 then Min(mains, cfg.maxCircuit * 10 - cfg.evMeasured) else mains;
    var b := if cfg.maxSumMains != 0 then Min(a, TruncDiv(cfg.maxSumMains * 10 - cfg.isum, 3)) else a;
    var d := if cfg.capacityHeadroom < NO_LIMIT then Min(b, cfg.capacityHeadroom) else b;
    if cfg.maxCircuitMains != 0 then Min(d, cfg.maxCircuitMains * 10 - cfg.circuitMeasured) else d
  }

  /** Both limits per phase that appear among the guard rails too: lines 792-803 and 817-828. */
  function PerPhase(cfg: Config, nrPhases: nat, isetBalanced: int): int {
    var phases := Phases(cfg, nrPhases);
    var a := if cfg.capacityHeadroom < NO_LIMIT then Min(isetBalanced, TruncDiv(cfg.capacityHeadroom, phases))
        else isetBalanced;
    if cfg.maxCircuitMains != 0 then Min(a, TruncDiv(cfg.maxCircuitMains * 10 - cfg.circuitMeasured, phases)) else a
  }

  /** Lines 786-804: a node joins. */
  function Joining(cfg: Config, nrPhases: nat, s: Survey): int {
    var a := Min(cfg.maxMains * 10 - Baseload(cfg, s), cfg.maxCircuit * 10 - BaseloadEv(cfg, s));
    var b := if cfg.maxSumMains != 0 then Min(a, TruncDiv(cfg.maxSumMains * 10 - cfg.isum, 3)) else a;
    PerPhase(cfg, nrPhases, b)
  }

  predicate MainsGuarded(cfg: Config) { cfg.mainsMeterType != 0 && cfg.mode != Normal }

  predicate CircuitGuarded(cfg: Config) {
    (cfg.loadBl == 0 && cfg.evMeterType != 0 && cfg.mode != Normal) || cfg.loadBl == 1
  }

  /** Lines 807-828. */
  function Guarded(cfg: Config, nrPhases: nat, s: Survey, isetBalanced: int): int {
    var a := if MainsGuarded(cfg) then Min(isetBalanced, cfg.maxMains * 10 - Baseload(cfg, s)) else isetBalanced;
    var b := if CircuitGuarded(cfg) then Min(a, cfg.maxCircuit * 10 - BaseloadEv(cfg, s)) else a;
    var d := if cfg.gridRelayOpen then Min(b, TruncDiv(cfg.gridRelayMax * 10, Phases(cfg, nrPhases))) else b;
    if cfg.mode != Normal then PerPhase(cfg, nrPhases, d) else d
  }

  /** evse_is_current_available, for n nodes: does one more charging node fit? */
  predicate Available(cfg: Config, nrPhases: nat, n: nat, s: Survey) {
    var wanted := Min(s.active + 1, n) * (cfg.minCurrent * 10);
    && !(cfg.mode != Normal && wanted + Baseload(cfg, s) > cfg.maxMains * 10)
    && !(CircuitGuarded(cfg) && wanted + BaseloadEv(cfg, s) > cfg.maxCircuit * 10)
    && !(cfg.mode != Normal && cfg.maxSumMains != 0
         && (if cfg.loadBl == 0 then Phases(cfg, nrPhases) else 1) * wanted + cfg.isum > cfg.maxSumMains * 10)
    && !(cfg.loadBl == 0 && cfg.ocppLimit.Some? && cfg.ocppLimit.value < cfg.minCurrent * 10)
  }

  // ------------------------------------------------------------------ regulation

  /** (w * x + (d - w) * e) / d in C arithmetic. */
  function Mean(w: nat, d: nat, e: int, x: int): int
    requires d > 0
  {
    TruncDiv(w * x + (d - w) * e, d)
  }

  function FilterWeight(cfg: Config): nat { Max(1, Min(cfg.idiffWeight, 4)) }

  /** Lines 735-754: a change of sign counts up, everything else down. */
  function Oscillation(cfg: Config, count: nat, before: int, now: int): nat {
    if before == 0 || now == 0 then count
    else if (before > 0) != (now > 0) then if count < cfg.boostMax then count + 1 else count
    else
      var decay := if cfg.loadBl == 0 then 2 else 1;
      if count > decay then count - decay else 0
  }

  /** Lines 732-780. */
  function Corrected(cfg: Config, r: Regulator): Regulator {
    var now := Headroom(cfg);
    var count := Oscillation(cfg, r.oscillation, r.idiffPrev, now);
    var filtered := Mean(FilterWeight(cfg), 4, r.idiffFiltered, now);
    var divisor := (if cfg.rampDivisor > 0 then cfg.rampDivisor else 1) + count;
    var isetBalanced := if (if filtered < 0 then -filtered else filtered) < cfg.deadBand then r.isetBalanced
                else r.isetBalanced + TruncDiv(filtered, divisor);
    r.(oscillation := count, idiffPrev := now, idiffFiltered := filtered,
       isetBalanced := isetBalanced, isetPrev := isetBalanced)
  }

  /** Lines 731-783: regulation of a running charge. */
  function Regulated(cfg: Config, r: Regulator): Regulator {
    var d := if r.updated then Corrected(cfg, r) else r;
    d.(isetBalanced := Max(0, Min(d.isetBalanced, HARD_LIMIT)))
  }

  /** Lines 673-828: the current before smoothing. */
  function Unsmoothed(cfg: Config, nrPhases: nat, r: Regulator, mod: bool, s: Survey): Regulator {
    var d :=
      if cfg.mode == Normal then
        r.(isetBalanced := if cfg.loadBl == 1 then cfg.maxCircuit * 10 - BaseloadEv(cfg, s) else r.chargeCurrent)
      else if !mod && r.settlingTimer == 0 then Regulated(cfg, r)
      else if mod && s.active > 0 then r.(isetBalanced := Joining(cfg, nrPhases, s))
      else r;
    d.(isetBalanced := Guarded(cfg, nrPhases, s, d.isetBalanced))
  }

  /** Lines 833-838. */
  function Smoothed(cfg: Config, r: Regulator): Regulator {
    if cfg.mode != Normal && r.updated then
      var ema := Mean(cfg.emaAlpha, 100, r.isetEma, r.isetBalanced);
      r.(isetEma := ema, isetBalanced := ema)
    else r
  }

  /** Lines 673-838. */
  function Target(cfg: Config, nrPhases: nat, r: Regulator, mod: bool, s: Survey): Regulator {
    Smoothed(cfg, Unsmoothed(cfg, nrPhases, r, mod, s))
  }

  // ------------------------------------------------------------------ both filters stay in range

  /** A weighted mean lies between the values it is taken of, also when division truncates. */
  lemma {:induction false} MeanBetween(w: nat, d: nat, e: int, x: int, lo: int, hi: int)
    requires w <= d && d > 0 && lo <= e <= hi && lo <= x <= hi
    ensures lo <= Mean(w, d, e, x) <= hi
  {
    hide TruncDiv;
    WeightedBetween(w, x, lo, hi);
    WeightedBetween(d - w, e, lo, hi);
    Split(lo, w, d);
    Split(hi, w, d);
    TruncDivBounds(w * x + (d - w) * e, d, lo, hi);
  }

  lemma WeightedBetween(w: nat, x: int, lo: int, hi: int)
    requires lo <= x <= hi
    ensures lo * w <= w * x <= hi * w
  {
  }

  lemma Split(a: int, w: int, d: int)
    ensures a * w + a * (d - w) == a * d
  {
  }

  /** Weights up to the whole are exactly those for which every mean stays between its values. */
  lemma {:induction false} MeanBetweenExactly(w: nat, d: nat)
    requires d > 0
    ensures (forall e, x :: Min(e, x) <= Mean(w, d, e, x) <= Max(e, x)) <==> w <= d
  {
    hide Mean;
    if w <= d {
      forall e, x
        ensures Min(e, x) <= Mean(w, d, e, x) <= Max(e, x)
      {
        MeanBetween(w, d, e, x, Min(e, x), Max(e, x));
      }
    } else {
      MeanOvershoots(w, d);
      assert Mean(w, d, 0, d) > Max(0, d);
    }
  }

  /** A weight above the whole takes the mean of 0 and d beyond d. */
  lemma MeanOvershoots(w: nat, d: nat)
    requires d > 0
    ensures Mean(w, d, 0, d) == w
  {
    assert (d - w) * 0 == 0;
    TruncDivExact(w, d);
  }

  /** One evaluation: the settings and measurements, the survey, and what changed since the last one. */
  datatype Cycle = Cycle(cfg: Config, nrPhases: nat, mod: bool, survey: Survey,
                         chargeCurrent: nat, settlingTimer: nat, updated: bool)

  function Prepared(r: Regulator, x: Cycle): Regulator {
    r.(chargeCurrent := x.chargeCurrent, settlingTimer := x.settlingTimer, updated := x.updated)
  }

  function Raw(r: Regulator, x: Cycle): Regulator {
    Unsmoothed(x.cfg, x.nrPhases, Prepared(r, x), x.mod, x.survey)
  }

  /** The regulation after a sequence of evaluations. */
  ghost function After(r: Regulator, cycles: seq<Cycle>): Regulator {
    if |cycles| == 0 then r
    else
      var x := cycles[|cycles| - 1];
      Smoothed(x.cfg, Raw(After(r, cycles[..|cycles| - 1]), x))
  }

  /** The filtered headroom never leaves the range of its first value and all headrooms measured. */
  lemma {:induction false} FilteredHeadroomInRange(r: Regulator, cycles: seq<Cycle>, lo: int, hi: int)
    requires lo <= r.idiffFiltered <= hi
    requires forall k :: 0 <= k < |cycles| ==> lo <= Headroom(cycles[k].cfg) <= hi
    ensures lo <= After(r, cycles).idiffFiltered <= hi
  {
    hide Mean, Headroom, Guarded, Joining, FilterWeight, Oscillation;
    if |cycles| > 0 {
      var before, x := cycles[..|cycles| - 1], cycles[|cycles| - 1];
      FilteredHeadroomInRange(r, before, lo, hi);
      FilteredOnce(x.cfg, After(r, before), lo, hi);
    }
  }

  lemma {:induction false} FilteredOnce(cfg: Config, r: Regulator, lo: int, hi: int)
    requires lo <= r.idiffFiltered <= hi && lo <= Headroom(cfg) <= hi
    ensures lo <= Mean(FilterWeight(cfg), 4, r.idiffFiltered, Headroom(cfg)) <= hi
  {
    MeanBetween(FilterWeight(cfg), 4, r.idiffFiltered, Headroom(cfg), lo, hi);
  }

  /** The smoothed current never leaves the range of its first value and all unsmoothed ones. */
  lemma {:induction false} SmoothedCurrentInRange(r: Regulator, cycles: seq<Cycle>, lo: int, hi: int)
    requires lo <= r.isetEma <= hi
    requires forall k :: 0 <= k < |cycles| ==> cycles[k].cfg.emaAlpha <= 100
    requires forall k :: 0 <= k < |cycles| ==> lo <= Raw(After(r, cycles[..k]), cycles[k]).isetBalanced <= hi
    ensures lo <= After(r, cycles).isetEma <= hi
  {
    hide Mean, Guarded, Joining, Regulated;
    if |cycles| > 0 {
      var n := |cycles| - 1;
      var before, x := cycles[..n], cycles[n];
      forall k | 0 <= k < n
        ensures lo <= Raw(After(r, before[..k]), before[k]).isetBalanced <= hi
      {
        assert before[..k] == cycles[..k];
      }
      SmoothedCurrentInRange(r, before, lo, hi);
      var raw := Raw(After(r, before), x);
      RawKeeps(After(r, before), x);
      MeanBetween(x.cfg.emaAlpha, 100, raw.isetEma, raw.isetBalanced, lo, hi);
    }
  }

  lemma RawKeeps(r: Regulator, x: Cycle)
    ensures Raw(r, x).isetEma == r.isetEma
  {
    hide Mean, Headroom, Guarded, Joining, FilterWeight, Oscillation;
  }

  /** Without smoothing the current is the guarded one. */
  lemma {:induction false} NoSmoothing(cfg: Config, r: Regulator)
    requires cfg.emaAlpha == 100
    ensures Smoothed(cfg, r).isetBalanced == r.isetBalanced
  {
    TruncDivExact(r.isetBalanced, 100);
  }

  // ------------------------------------------------------------------ steps of limited size

  /** Lines 976-987 for one node, with a step of 30, and lines 1000-1006 with the configured one.
      The program's guards against a negative result are never needed. */
  function Approach(step: nat, target: nat, before: nat): nat {
    if before == 0 then target
    else if target > before + step then before + step
    else if target + step < before then before - step
    else target
  }

  /** A step down starts above the step: the guards in lines 984 and 1005 are never needed. */
  lemma StepStaysPositive(step: nat, target: nat, before: nat)
    ensures target as int - before as int < -(step as int) ==> before > step && before - step > target
  {
  }

  /** The currents of a node over some cycles with these targets. */
  ghost function Currents(step: nat, start: nat, targets: seq<nat>): nat {
    if |targets| == 0 then start
    else Approach(step, targets[|targets| - 1], Currents(step, start, targets[..|targets| - 1]))
  }

  /** A cycle moves a charging node by at most the step, towards the target and not past it. */
  lemma ApproachesWithoutOvershoot(step: nat, target: nat, before: nat)
    requires before > 0
    ensures before - step <= Approach(step, target, before) <= before + step
    ensures before <= target ==> before <= Approach(step, target, before) <= target
    ensures before >= target ==> before >= Approach(step, target, before) >= target
  {
  }

  /** What a step leaves a node above its share, and what it keeps it below. */
  lemma StepBalance(step: nat, target: nat, before: nat)
    requires before > 0
    ensures Approach(step, target, before) + Max(0, target - before - step)
         == target + Max(0, before - step - target)
  {
  }

  /** A current within the node's maximum stays within it. */
  lemma {:induction false} CurrentsBounded(step: nat, start: nat, targets: seq<nat>, max: nat)
    requires start <= max && forall k :: 0 <= k < |targets| ==> targets[k] <= max
    ensures Currents(step, start, targets) <= max
  {
    if |targets| > 0 {
      CurrentsBounded(step, start, targets[..|targets| - 1], max);
    }
  }

  function Distance(a: nat, b: nat): nat { if a < b then b - a else a - b }

  lemma ApproachCloses(step: nat, target: nat, before: nat)
    requires before > 0 || target == 0
    ensures Distance(Approach(step, target, before), target) == Max(0, Distance(before, target) - step)
    ensures Approach(step, target, before) > 0 || target == 0
  {
  }

  /** The distance still to go to a constant target. */
  lemma {:induction false} DistanceShrinks(step: nat, start: nat, target: nat, n: nat)
    requires start > 0
    ensures var v := Currents(step, start, seq(n, _ => target));
            (v > 0 || target == 0) && Distance(v, target) == Max(0, Distance(start, target) - n * step)
  {
    if n > 0 {
      hide Approach, Distance;
      DistanceShrinks(step, start, target, n - 1);
      assert seq(n, _ => target)[..n - 1] == seq(n - 1, _ => target);
      ApproachCloses(step, target, Currents(step, start, seq(n - 1, _ => target)));
      OneMore(n, step);
    }
  }

  lemma OneMore(n: int, step: nat)
    ensures n * step == (n - 1) * step + step
  {
  }

  /** A constant target is reached after n cycles exactly if n steps cover the distance. */
  lemma {:induction false} ReachesTarget(step: nat, start: nat, target: nat, n: nat)
    requires start > 0
    ensures Currents(step, start, seq(n, _ => target)) == target <==> Distance(start, target) <= n * step
  {
    DistanceShrinks(step, start, target, n);
  }
}
