/** Which way, how far and up to where evse_calc_balanced_current moves the limit on the current. */
module EvseSteering {
  import opened CArithmetic
  import opened EvseTypes
  import opened EvseControl
  import opened EvseRegulation

  // ------------------------------------------------------------------ what the installation can carry

  /** v is at most x / p, truncated as C does. */
  predicate AtMostQuotient(v: int, x: int, p: int) {
    if x >= 0 then v * p <= x else v * p < x + p
  }

  lemma {:induction false} QuotientIsGreatest(v: int, x: int, p: int)
    requires p > 0
    ensures v <= TruncDiv(x, p) <==> AtMostQuotient(v, x, p)
  {
    var q := TruncDiv(x, p);
    hide TruncDiv;
    if v <= q {
      MultiplyOrder(v, q, p);
    } else {
      MultiplyOrder(q + 1, v, p);
    }
  }

  /** The installation can carry w more. */
  predicate Carries(cfg: Config, w: int) {
    && w + cfg.mainsMeasured <= 10 * cfg.maxMains
    && (cfg.loadBl in {0, 1} && cfg.evMeterType != 0 ==> w + cfg.evMeasured <= 10 * cfg.maxCircuit)
    && (cfg.maxSumMains != 0 ==> AtMostQuotient(w, 10 * cfg.maxSumMains - cfg.isum, 3))
    && (cfg.capacityHeadroom < 0x7fff ==> w <= cfg.capacityHeadroom)
    && (cfg.maxCircuitMains != 0 ==> w + cfg.circuitMeasured <= 10 * cfg.maxCircuitMains)
  }

  /** The headroom is the greatest increase that the installation can carry. */
  lemma {:induction false} HeadroomIsGreatest(cfg: Config, w: int)
    ensures w <= Headroom(cfg) <==> Carries(cfg, w)
  {
    QuotientIsGreatest(w, cfg.maxSumMains * 10 - cfg.isum, 3);
    hide TruncDiv, AtMostQuotient;
  }

  /** One phase is in use for good, or by the choice made for this charge. */
  predicate SinglePhase(cfg: Config, nrPhases: nat) {
    cfg.enableC2 == AlwaysOff || (cfg.enableC2 == Auto && nrPhases == 1)
  }

  function PhaseCount(cfg: Config, nrPhases: nat): int { if SinglePhase(cfg, nrPhases) then 1 else 3 }

  /** A limit v on all charging nodes together is within every guard rail. */
  predicate WithinRails(cfg: Config, nrPhases: nat, s: Survey, v: int) {
    && WithinLines(cfg, s, v)
    && (cfg.gridRelayOpen ==> AtMostQuotient(v, 10 * cfg.gridRelayMax, PhaseCount(cfg, nrPhases)))
    && (cfg.mode == Smart && cfg.capacityHeadroom < 0x7fff ==>
          AtMostQuotient(v, cfg.capacityHeadroom, PhaseCount(cfg, nrPhases)))
    && (cfg.mode == Smart && cfg.maxCircuitMains != 0 ==>
          AtMostQuotient(v, 10 * cfg.maxCircuitMains - cfg.circuitMeasured, PhaseCount(cfg, nrPhases)))
  }

  lemma {:induction false} PerPhaseIsGreatest(cfg: Config, nrPhases: nat, isetBalanced: int, v: int)
    ensures v <= PerPhase(cfg, nrPhases, isetBalanced)
       <==> v <= isetBalanced
            && (cfg.capacityHeadroom < 0x7fff ==> AtMostQuotient(v, cfg.capacityHeadroom, PhaseCount(cfg, nrPhases)))
            && (cfg.maxCircuitMains != 0 ==>
                  AtMostQuotient(v, 10 * cfg.maxCircuitMains - cfg.circuitMeasured, PhaseCount(cfg, nrPhases)))
  {
    var p := Phases(cfg, nrPhases);
    QuotientIsGreatest(v, cfg.capacityHeadroom, p);
    QuotientIsGreatest(v, cfg.maxCircuitMains * 10 - cfg.circuitMeasured, p);
    hide TruncDiv, AtMostQuotient;
  }

  /** Mains and circuit. */
  predicate WithinLines(cfg: Config, s: Survey, v: int) {
    && (cfg.mainsMeterType != 0 && cfg.mode == Smart ==> v + (cfg.mainsMeasured - s.total) <= 10 * cfg.maxMains)
    && (cfg.loadBl == 1 || (cfg.loadBl == 0 && cfg.evMeterType != 0 && cfg.mode == Smart) ==>
          v + Max(0, cfg.evMeasured - s.total) <= 10 * cfg.maxCircuit)
  }

  function Lined(cfg: Config, s: Survey, isetBalanced: int): int {
    var a := if MainsGuarded(cfg) then Min(isetBalanced, cfg.maxMains * 10 - Baseload(cfg, s)) else isetBalanced;
    if CircuitGuarded(cfg) then Min(a, cfg.maxCircuit * 10 - BaseloadEv(cfg, s)) else a
  }

  lemma LinesAreGreatest(cfg: Config, s: Survey, isetBalanced: int, v: int)
    ensures v <= Lined(cfg, s, isetBalanced) <==> v <= isetBalanced && WithinLines(cfg, s, v)
  {
  }

  function Relayed(cfg: Config, nrPhases: nat, b: int): int {
    if cfg.gridRelayOpen then Min(b, TruncDiv(cfg.gridRelayMax * 10, Phases(cfg, nrPhases))) else b
  }

  lemma RelayIsGreatest(cfg: Config, nrPhases: nat, b: int, v: int)
    ensures v <= Relayed(cfg, nrPhases, b)
       <==> v <= b && (cfg.gridRelayOpen ==> AtMostQuotient(v, 10 * cfg.gridRelayMax, PhaseCount(cfg, nrPhases)))
  {
    PhasesCounted(cfg, nrPhases);
    QuotientIsGreatest(v, cfg.gridRelayMax * 10, Phases(cfg, nrPhases));
    hide TruncDiv, AtMostQuotient, Phases, PhaseCount;
  }

  lemma RailByRail(cfg: Config, nrPhases: nat, s: Survey, isetBalanced: int)
    ensures var d := Relayed(cfg, nrPhases, Lined(cfg, s, isetBalanced));
            Guarded(cfg, nrPhases, s, isetBalanced) == if cfg.mode != Normal then PerPhase(cfg, nrPhases, d) else d
  {
    hide TruncDiv, PerPhase, Phases, Baseload, BaseloadEv, MainsGuarded, CircuitGuarded, Min;
  }

  /** The guard rails leave the greatest limit that is within them all and not above the one before. */
  lemma {:induction false} GuardedIsGreatest(cfg: Config, nrPhases: nat, s: Survey, isetBalanced: int, v: int)
    ensures v <= Guarded(cfg, nrPhases, s, isetBalanced) <==> v <= isetBalanced && WithinRails(cfg, nrPhases, s, v)
  {
    RailByRail(cfg, nrPhases, s, isetBalanced);
    var b := Lined(cfg, s, isetBalanced);
    LinesAreGreatest(cfg, s, isetBalanced, v);
    RelayIsGreatest(cfg, nrPhases, b, v);
    PerPhaseIsGreatest(cfg, nrPhases, Relayed(cfg, nrPhases, b), v);
    hide Guarded, Relayed, Lined, AtMostQuotient, PerPhase, PhaseCount, WithinLines;
  }

  lemma PhasesCounted(cfg: Config, nrPhases: nat)
    ensures Phases(cfg, nrPhases) == PhaseCount(cfg, nrPhases)
  {
  }

  /** u is the greatest limit that is not above `top` and within the guard rails. */
  ghost predicate GreatestWithin(cfg: Config, nrPhases: nat, s: Survey, top: int, u: int) {
    forall v :: v <= u <==> Within(cfg, nrPhases, s, top, v)
  }

  predicate Within(cfg: Config, nrPhases: nat, s: Survey, top: int, v: int) {
    v <= top && WithinRails(cfg, nrPhases, s, v)
  }

  lemma {:induction false} GuardedWithin(cfg: Config, nrPhases: nat, s: Survey, top: int)
    ensures GreatestWithin(cfg, nrPhases, s, top, Guarded(cfg, nrPhases, s, top))
  {
    hide Guarded, WithinRails;
    var u := Guarded(cfg, nrPhases, s, top);
    forall v
      ensures v <= u <==> Within(cfg, nrPhases, s, top, v)
    {
      GuardedIsGreatest(cfg, nrPhases, s, top, v);
    }
  }

  // ------------------------------------------------------------------ the filters

  /** q is w parts in d of the way from e to x, up to rounding. */
  predicate PartOfTheWay(q: int, w: int, d: int, e: int, x: int) {
    -d < d * (q - e) - w * (x - e) < d
  }

  lemma {:induction false} MeanPartOfTheWay(w: nat, d: nat, e: int, x: int)
    requires d > 0
    ensures PartOfTheWay(Mean(w, d, e, x), w, d, e, x)
  {
    var q := Mean(w, d, e, x);
    hide Mean;
    assert w * x + (d - w) * e == d * e + w * (x - e);
    assert q * d == d * (q - e) + d * e;
    assert (q + 1) * d == q * d + d && (q - 1) * d == q * d - d;
    TruncDivNear(w, d, e, x);
  }

  lemma TruncDivNear(w: nat, d: nat, e: int, x: int)
    requires d > 0
    ensures var a, q := w * x + (d - w) * e, Mean(w, d, e, x); (q - 1) * d < a < (q + 1) * d
  {
    var a, q := w * x + (d - w) * e, Mean(w, d, e, x);
    assert (q - 1) * d == q * d - d && (q + 1) * d == q * d + d;
  }

  // ------------------------------------------------------------------ current for one more

  /** A total of v for the charging nodes, of n in all, is under every limit that is asked before current is
      granted. */
  predicate Bearable(cfg: Config, nrPhases: nat, s: Survey, v: int) {
    && (cfg.mode == Smart ==> v + (cfg.mainsMeasured - s.total) <= 10 * cfg.maxMains)
    && (cfg.loadBl == 1 || (cfg.loadBl == 0 && cfg.evMeterType != 0 && cfg.mode == Smart) ==>
          v + Max(0, cfg.evMeasured - s.total) <= 10 * cfg.maxCircuit)
    && (cfg.mode == Smart && cfg.maxSumMains != 0 ==>
          (if cfg.loadBl == 0 && !SinglePhase(cfg, nrPhases) then 3 * v else v) + cfg.isum <= 10 * cfg.maxSumMains)
  }

  /** The charging nodes and one more, but no more than there are, can have the minimum current or more;
      and the limit of the central system, if it binds, is not below the minimum. */
  ghost predicate RoomForOneMore(cfg: Config, nrPhases: nat, n: nat, s: Survey) {
    && (exists v :: v >= 10 * cfg.minCurrent * Min(s.active + 1, n) && Bearable(cfg, nrPhases, s, v))
    && (cfg.loadBl == 0 && cfg.ocppLimit.Some? ==> cfg.ocppLimit.value >= 10 * cfg.minCurrent)
  }

  /** evse_is_current_available answers that question. */
  lemma {:induction false} AvailableMeans(cfg: Config, nrPhases: nat, n: nat, s: Survey)
    ensures Available(cfg, nrPhases, n, s) <==> RoomForOneMore(cfg, nrPhases, n, s)
  {
    var wanted := Min(s.active + 1, n) * (cfg.minCurrent * 10);
    assert 10 * cfg.minCurrent * Min(s.active + 1, n) == wanted;
    PhasesCounted(cfg, nrPhases);
    AvailableAt(cfg, nrPhases, n, s);
    hide Available, Bearable;
    if v :| v >= wanted && Bearable(cfg, nrPhases, s, v) {
      LessIsBearable(cfg, nrPhases, s, v, wanted);
    }
  }

  lemma AvailableAt(cfg: Config, nrPhases: nat, n: nat, s: Survey)
    ensures Available(cfg, nrPhases, n, s)
       <==> && Bearable(cfg, nrPhases, s, Min(s.active + 1, n) * (cfg.minCurrent * 10))
            && (cfg.loadBl == 0 && cfg.ocppLimit.Some? ==> cfg.ocppLimit.value >= 10 * cfg.minCurrent)
  {
  }

  lemma LessIsBearable(cfg: Config, nrPhases: nat, s: Survey, v: int, w: int)
    requires Bearable(cfg, nrPhases, s, v) && w <= v
    ensures Bearable(cfg, nrPhases, s, w)
  {
  }

  // ------------------------------------------------------------------ one evaluation

  /** The evaluation regulates: smart mode, no newcomer, fresh data, no settling. */
  predicate Regulates(cfg: Config, r: Regulator) {
    cfg.mode == Smart && r.updated && r.settlingTimer == 0
  }

  /** From limit a to limit b by a step for the filtered headroom f: none within the dead band, else in
      the direction of f, and the whole part of f in so many steps. */
  predicate StepFor(a: int, b: int, f: int, deadBand: int, divisor: int) {
    && (-deadBand < f < deadBand ==> b == a)
    && (f >= deadBand && f >= 0 ==> a <= b && (b - a) * divisor <= f < (b - a + 1) * divisor)
    && (f <= -deadBand && f <= 0 ==> b <= a && (a - b) * divisor <= -f < (a - b + 1) * divisor)
  }

  function Divisor(cfg: Config, q: Regulator): nat { Max(1, cfg.rampDivisor) + q.oscillation }

  function Clamped(v: int): int { Max(0, Min(v, 800)) }

  lemma {:induction false} CorrectedSteps(cfg: Config, r: Regulator)
    ensures var q := Corrected(cfg, r);
            && StepFor(r.isetBalanced, q.isetBalanced, q.idiffFiltered, cfg.deadBand, Divisor(cfg, q))
            && PartOfTheWay(q.idiffFiltered, Max(1, Min(cfg.idiffWeight, 4)), 4, r.idiffFiltered, Headroom(cfg))
            && q == r.(oscillation := q.oscillation, idiffPrev := Headroom(cfg), idiffFiltered := q.idiffFiltered,
                       isetBalanced := q.isetBalanced, isetPrev := q.isetBalanced)
            && q.oscillation == Oscillation(cfg, r.oscillation, r.idiffPrev, Headroom(cfg))
  {
    var f := Mean(FilterWeight(cfg), 4, r.idiffFiltered, Headroom(cfg));
    MeanPartOfTheWay(FilterWeight(cfg), 4, r.idiffFiltered, Headroom(cfg));
    hide Headroom, Oscillation, PartOfTheWay, Mean;
    var q := Corrected(cfg, r);
    QuotientStep(f, Divisor(cfg, q));
  }

  lemma QuotientStep(f: int, divisor: nat)
    requires divisor > 0
    ensures var m := TruncDiv(f, divisor);
            && (f >= 0 ==> 0 <= m && m * divisor <= f < (m + 1) * divisor)
            && (f <= 0 ==> m <= 0 && (-m) * divisor <= -f < (-m + 1) * divisor)
  {
    var m := TruncDiv(f, divisor);
    assert (-m) * divisor == -(m * divisor) && (m + 1) * divisor == m * divisor + divisor;
    assert (m - 1) * divisor == m * divisor - divisor && (-m + 1) * divisor == -(m * divisor) + divisor;
  }

  ghost predicate IsHeadroom(cfg: Config, h: int) {
    forall w :: w <= h <==> Carries(cfg, w)
  }

  lemma {:induction false} HeadroomOf(cfg: Config)
    ensures IsHeadroom(cfg, Headroom(cfg))
  {
    hide Headroom, Carries;
    forall w
      ensures w <= Headroom(cfg) <==> Carries(cfg, w)
    {
      HeadroomIsGreatest(cfg, w);
    }
  }

  /** Smoothing goes part of the way from the smoothed limit before to the new one u. */
  predicate SmoothedTo(cfg: Config, r: Regulator, u: int, q: Regulator) {
    if cfg.mode == Smart && r.updated then
      && PartOfTheWay(q.isetBalanced, cfg.emaAlpha, 100, r.isetEma, u) && q.isetEma == q.isetBalanced
      && (cfg.emaAlpha == 100 ==> q.isetBalanced == u)
    else q.isetBalanced == u && q.isetEma == r.isetEma
  }

  lemma {:induction false} SmoothedPart(cfg: Config, r: Regulator, v: Regulator)
    requires v.isetEma == r.isetEma && v.updated == r.updated
    ensures SmoothedTo(cfg, r, v.isetBalanced, Smoothed(cfg, v))
  {
    MeanPartOfTheWay(cfg.emaAlpha, 100, r.isetEma, v.isetBalanced);
    if cfg.emaAlpha == 100 {
      NoSmoothing(cfg, v);
    }
    hide Mean, PartOfTheWay;
  }

  /** Regulation moves the limit from that of r to `moved` by a step for the filtered headroom, which goes
      part of the way to the greatest increase that the installation can carry; the unsmoothed limit u
      is the greatest that is within 0..80 A and within the guard rails and not above `moved`. */
  lemma {:induction false} Steers(cfg: Config, nrPhases: nat, r: Regulator, s: Survey) returns (moved: int, u: int)
    requires Regulates(cfg, r)
    ensures var q := Target(cfg, nrPhases, r, false, s);
            && IsHeadroom(cfg, q.idiffPrev)
            && PartOfTheWay(q.idiffFiltered, Max(1, Min(cfg.idiffWeight, 4)), 4, r.idiffFiltered, q.idiffPrev)
            && StepFor(r.isetBalanced, moved, q.idiffFiltered, cfg.deadBand, Divisor(cfg, q))
            && q.oscillation == Oscillation(cfg, r.oscillation, r.idiffPrev, q.idiffPrev)
            && SmoothedTo(cfg, r, u, q)
    ensures GreatestWithin(cfg, nrPhases, s, Clamped(moved), u)
  {
    var c := Corrected(cfg, r);
    CorrectedSteps(cfg, r);
    HeadroomOf(cfg);
    moved := c.isetBalanced;
    u := Guarded(cfg, nrPhases, s, Clamped(moved));
    GuardedWithin(cfg, nrPhases, s, Clamped(moved));
    hide Corrected, Guarded, Joining, Mean, Headroom, PartOfTheWay, StepFor, IsHeadroom, GreatestWithin, Oscillation;
    SmoothedPart(cfg, r, Unsmoothed(cfg, nrPhases, r, false, s));
    hide SmoothedTo;
  }

  /** In normal mode the limit is the greatest within the guard rails, and not above the charge current
      unless this controller is the master of a group. */
  lemma {:induction false} NormalLimit(cfg: Config, nrPhases: nat, r: Regulator, mod: bool, s: Survey, v: int)
    requires cfg.mode == Normal
    ensures v <= Target(cfg, nrPhases, r, mod, s).isetBalanced
       <==> (cfg.loadBl != 1 ==> v <= r.chargeCurrent) && WithinRails(cfg, nrPhases, s, v)
  {
    var base := if cfg.loadBl == 1 then cfg.maxCircuit * 10 - BaseloadEv(cfg, s) else r.chargeCurrent;
    GuardedIsGreatest(cfg, nrPhases, s, base, v);
    hide Guarded, AtMostQuotient, PhaseCount;
  }

  /** For a newcomer in smart mode the unsmoothed limit is the greatest with which mains, circuit and the
      sum of the mains can be kept, within the guard rails. */
  lemma {:induction false} JoiningLimit(cfg: Config, nrPhases: nat, r: Regulator, s: Survey) returns (u: int)
    requires cfg.mode == Smart && s.active > 0
    ensures SmoothedTo(cfg, r, u, Target(cfg, nrPhases, r, true, s))
    ensures forall v :: v <= u <==> Joinable(cfg, s, v) && WithinRails(cfg, nrPhases, s, v)
  {
    var base := Joining(cfg, nrPhases, s);
    u := Guarded(cfg, nrPhases, s, base);
    hide Guarded, Joining, Mean, PartOfTheWay, WithinRails, Joinable;
    forall v
      ensures v <= u <==> Joinable(cfg, s, v) && WithinRails(cfg, nrPhases, s, v)
    {
      GuardedIsGreatest(cfg, nrPhases, s, base, v);
      JoiningIsGreatest(cfg, nrPhases, s, v);
    }
    SmoothedPart(cfg, r, Unsmoothed(cfg, nrPhases, r, true, s));
    hide SmoothedTo;
  }

  /** With v for all charging nodes together, mains, circuit and the sum of the mains can be kept. */
  predicate Joinable(cfg: Config, s: Survey, v: int) {
    && v + (cfg.mainsMeasured - s.total) <= 10 * cfg.maxMains
    && v + Max(0, cfg.evMeasured - s.total) <= 10 * cfg.maxCircuit
    && (cfg.maxSumMains != 0 ==> AtMostQuotient(v, 10 * cfg.maxSumMains - cfg.isum, 3))
  }

  lemma {:induction false} JoiningIsGreatest(cfg: Config, nrPhases: nat, s: Survey, v: int)
    requires cfg.mode == Smart
    ensures WithinRails(cfg, nrPhases, s, v) ==> (v <= Joining(cfg, nrPhases, s) <==> Joinable(cfg, s, v))
    ensures v <= Joining(cfg, nrPhases, s) ==> Joinable(cfg, s, v)
  {
    var a := Min(cfg.maxMains * 10 - Baseload(cfg, s), cfg.maxCircuit * 10 - BaseloadEv(cfg, s));
    var b := if cfg.maxSumMains != 0 then Min(a, TruncDiv(cfg.maxSumMains * 10 - cfg.isum, 3)) else a;
    QuotientIsGreatest(v, cfg.maxSumMains * 10 - cfg.isum, 3);
    PerPhaseIsGreatest(cfg, nrPhases, b, v);
    hide TruncDiv, AtMostQuotient, PerPhase, PhaseCount;
  }

  /** While the limit settles, or a newcomer finds nobody charging, only the guard rails act on it. */
  lemma {:induction false} SettledLimit(cfg: Config, nrPhases: nat, r: Regulator, mod: bool, s: Survey) returns (u: int)
    requires cfg.mode == Smart && if mod then s.active == 0 else r.settlingTimer > 0
    ensures SmoothedTo(cfg, r, u, Target(cfg, nrPhases, r, mod, s))
    ensures GreatestWithin(cfg, nrPhases, s, r.isetBalanced, u)
  {
    u := Guarded(cfg, nrPhases, s, r.isetBalanced);
    GuardedWithin(cfg, nrPhases, s, r.isetBalanced);
    hide Guarded, Mean, GreatestWithin;
    SmoothedPart(cfg, r, Unsmoothed(cfg, nrPhases, r, mod, s));
    hide SmoothedTo;
  }

  /** Smart mode without fresh data: the limit only comes back into 0..80 A and the guard rails. */
  lemma {:induction false} StaleLimit(cfg: Config, nrPhases: nat, r: Regulator, s: Survey)
    requires cfg.mode == Smart && r.settlingTimer == 0 && !r.updated
    ensures GreatestWithin(cfg, nrPhases, s, Clamped(r.isetBalanced), Target(cfg, nrPhases, r, false, s).isetBalanced)
  {
    GuardedWithin(cfg, nrPhases, s, Clamped(r.isetBalanced));
    hide Guarded, GreatestWithin;
  }

  // ------------------------------------------------------------------ oscillation

  /** The count of sign changes after some headrooms, the first of which is the one before. */
  ghost function CountAfter(cfg: Config, count: nat, hs: seq<int>): nat {
    if |hs| < 2 then count
    else Oscillation(cfg, CountAfter(cfg, count, hs[..|hs| - 1]), hs[|hs| - 2], hs[|hs| - 1])
  }

  predicate Flips(hs: seq<int>, k: int)
    requires 0 <= k < |hs| - 1
  {
    (hs[k] < 0 < hs[k + 1]) || (hs[k + 1] < 0 < hs[k])
  }

  /** Every change of sign slows the regulation by one, up to the maximum. */
  lemma {:induction false} SignChangesCount(cfg: Config, count: nat, hs: seq<int>)
    requires |hs| > 0 && count <= cfg.boostMax
    requires forall k :: 0 <= k < |hs| - 1 ==> Flips(hs, k)
    ensures CountAfter(cfg, count, hs) == Min(cfg.boostMax, count + |hs| - 1)
  {
    if |hs| > 1 {
      var front := hs[..|hs| - 1];
      forall k | 0 <= k < |front| - 1
        ensures Flips(front, k)
      {
        assert Flips(hs, k);
      }
      SignChangesCount(cfg, count, front);
      assert Flips(hs, |hs| - 2);
    }
  }

  /** Every headroom of the same sign speeds it up again, by two for a standalone charger. */
  lemma {:induction false} SameSignCalms(cfg: Config, count: nat, hs: seq<int>)
    requires |hs| > 0
    requires (forall k :: 0 <= k < |hs| ==> hs[k] > 0) || (forall k :: 0 <= k < |hs| ==> hs[k] < 0)
    ensures CountAfter(cfg, count, hs) == Max(0, count - (if cfg.loadBl == 0 then 2 else 1) * (|hs| - 1))
  {
    if |hs| > 1 {
      SameSignCalms(cfg, count, hs[..|hs| - 1]);
    }
  }

  // ------------------------------------------------------------------ room is used

  /** The same evaluation again and again: regulating, without smoothing of the limit. */
  predicate Steady(x: Cycle) {
    x.cfg.mode == Smart && !x.mod && x.updated && x.settlingTimer == 0 && x.cfg.emaAlpha == 100
  }

  ghost function Repeated(r: Regulator, x: Cycle, n: nat): Regulator { After(r, seq(n, _ => x)) }

  lemma {:induction false} OneMoreCycle(r: Regulator, x: Cycle, n: nat)
    requires Steady(x)
    ensures Repeated(r, x, n + 1)
         == Target(x.cfg, x.nrPhases, Prepared(Repeated(r, x, n), x), false, x.survey)
  {
    hide Unsmoothed, Smoothed;
    assert seq(n + 1, _ => x)[..n] == seq(n, _ => x);
  }

  lemma {:induction false} RepeatedAgain(r: Regulator, x: Cycle, m: nat, n: nat)
    ensures Repeated(Repeated(r, x, m), x, n) == Repeated(r, x, m + n)
  {
    hide Raw, Smoothed;
    if n > 0 {
      RepeatedAgain(r, x, m, n - 1);
      assert seq(n, _ => x)[..n - 1] == seq(n - 1, _ => x);
      assert seq(m + n, _ => x)[..m + n - 1] == seq(m + n - 1, _ => x);
    }
  }

  /** One cycle with headroom h, from regulation r to q: the filter closes in on h, the count grows at
      most once; and if the filtered headroom is enough for a step, the limit rises by a unit or more, up
      to the greatest limit within the rails. */
  lemma {:induction false} CycleRises(r: Regulator, x: Cycle, h: int, top: int, q: Regulator)
    requires Steady(x) && q == Target(x.cfg, x.nrPhases, Prepared(r, x), false, x.survey)
    requires IsHeadroom(x.cfg, h) && h > 0
    requires GreatestWithin(x.cfg, x.nrPhases, x.survey, 800, top)
    ensures q.idiffPrev == h && q.oscillation <= r.oscillation + (if r.idiffPrev < 0 then 1 else 0)
    ensures q.idiffFiltered >= Min(h - 3, r.idiffFiltered + 1)
    ensures r.idiffFiltered >= h - 3 ==> q.idiffFiltered >= h - 3
    ensures Min(top, 0) <= q.isetBalanced <= top
    ensures q.idiffFiltered >= x.cfg.deadBand && q.idiffFiltered >= Divisor(x.cfg, q) ==>
              q.isetBalanced >= Min(top, r.isetBalanced + 1)
  {
    hide Target;
    var moved, u := Steers(x.cfg, x.nrPhases, Prepared(r, x), x.survey);
    assert q.idiffPrev == h by {
      SameHeadroom(x.cfg, q.idiffPrev, h);
    }
    Closer(q.idiffFiltered, Max(1, Min(x.cfg.idiffWeight, 4)), r.idiffFiltered, h);
    hide IsHeadroom, PartOfTheWay;
    if q.idiffFiltered >= x.cfg.deadBand && q.idiffFiltered >= Divisor(x.cfg, q) {
      AtLeastOne(r.isetBalanced, moved, q.idiffFiltered, x.cfg.deadBand, Divisor(x.cfg, q));
      UpTo(x.cfg, x.nrPhases, x.survey, moved, u, top, r.isetBalanced + 1);
    }
    UpTo(x.cfg, x.nrPhases, x.survey, moved, u, top, Min(0, moved));
    hide StepFor, GreatestWithin;
  }

  lemma SameHeadroom(cfg: Config, a: int, b: int)
    requires IsHeadroom(cfg, a) && IsHeadroom(cfg, b)
    ensures a == b
  {
    hide Carries;
    assert Carries(cfg, a) && Carries(cfg, b);
  }

  lemma {:induction false} Closer(q: int, w: int, e: int, h: int)
    requires 1 <= w <= 4 && PartOfTheWay(q, w, 4, e, h)
    ensures q >= Min(h - 3, e + 1) && (e >= h - 3 ==> q >= h - 3)
  {
    if e <= h {
      assert w * (h - e) >= h - e;
    } else {
      assert w * (h - e) >= 4 * (h - e);
    }
  }

  lemma AtLeastOne(a: int, b: int, f: int, deadBand: nat, divisor: int)
    requires StepFor(a, b, f, deadBand, divisor) && f >= deadBand && f >= divisor > 0
    ensures b >= a + 1
  {
    MultiplyOrder(b - a + 1, 1, divisor);
  }

  lemma {:induction false} UpTo(cfg: Config, nrPhases: nat, s: Survey, moved: int, u: int, top: int, v: int)
    requires GreatestWithin(cfg, nrPhases, s, Clamped(moved), u) && GreatestWithin(cfg, nrPhases, s, 800, top)
    requires v <= moved
    ensures Min(top, v) <= u <= top && Min(top, 0) <= u
  {
    hide WithinRails;
    assert Within(cfg, nrPhases, s, 800, Min(top, v)) && Within(cfg, nrPhases, s, 800, Min(top, 0));
    assert Within(cfg, nrPhases, s, Clamped(moved), Min(top, v));
    assert Within(cfg, nrPhases, s, Clamped(moved), Min(top, 0));
    assert Within(cfg, nrPhases, s, Clamped(moved), u) && Within(cfg, nrPhases, s, 800, u);
  }

  /** While the filtered headroom stays at `lo`, which is enough for a step, or above it, n cycles raise the
      limit by n units at least, up to the greatest limit within the rails. */
  lemma {:induction false} RisesToRails(r: Regulator, x: Cycle, h: int, lo: int, top: int, n: nat)
    requires Steady(x) && IsHeadroom(x.cfg, h) && GreatestWithin(x.cfg, x.nrPhases, x.survey, 800, top)
    requires lo <= h - 3 && lo <= r.idiffFiltered
    requires lo >= x.cfg.deadBand && lo >= Max(1, x.cfg.rampDivisor) + r.oscillation + 1
    requires n > 0
    ensures var q := Repeated(r, x, n);
            && q.idiffPrev == h && q.oscillation <= r.oscillation + 1 && q.idiffFiltered >= lo
            && Min(top, r.isetBalanced + n) <= q.isetBalanced <= top
  {
    hide GreatestWithin, IsHeadroom, Target;
    OneMoreCycle(r, x, n - 1);
    if n > 1 {
      RisesToRails(r, x, h, lo, top, n - 1);
    } else {
      assert Repeated(r, x, 0) == r;
    }
    CycleRises(Repeated(r, x, n - 1), x, h, top, Repeated(r, x, n));
  }

  lemma {:induction false} FilterCloses(r: Regulator, x: Cycle, h: int, top: int, n: nat)
    requires Steady(x) && IsHeadroom(x.cfg, h) && h > 0 && n > 0
    requires GreatestWithin(x.cfg, x.nrPhases, x.survey, 800, top)
    ensures var q := Repeated(r, x, n);
            && q.idiffPrev == h && q.oscillation <= r.oscillation + 1
            && q.idiffFiltered >= Min(h - 3, r.idiffFiltered + n) && Min(top, 0) <= q.isetBalanced <= top
  {
    hide GreatestWithin, IsHeadroom, Target;
    OneMoreCycle(r, x, n - 1);
    if n > 1 {
      FilterCloses(r, x, h, top, n - 1);
    } else {
      assert Repeated(r, x, 0) == r;
    }
    CycleRises(Repeated(r, x, n - 1), x, h, top, Repeated(r, x, n));
  }

  /** Room is used: with a constant headroom that is enough for a step, whatever the regulation comes from,
      the limit ends at the greatest one within 80 A and the guard rails, after as many cycles as the
      filter needs and 801 more, and stays there. */
  lemma {:induction false} RoomIsUsed(r: Regulator, x: Cycle, h: int, top: int, n: nat)
    requires Steady(x) && IsHeadroom(x.cfg, h) && GreatestWithin(x.cfg, x.nrPhases, x.survey, 800, top)
    requires h - 3 >= x.cfg.deadBand && h - 3 >= Max(1, x.cfg.rampDivisor) + r.oscillation + 2
    requires n >= Max(1, h - r.idiffFiltered) + 801
    ensures Repeated(r, x, n).isetBalanced == top
  {
    hide IsHeadroom, Target, WithinRails;
    var m := Max(1, h - r.idiffFiltered);
    FilterCloses(r, x, h, top, m);
    RisesToRails(Repeated(r, x, m), x, h, h - 3, top, n - m);
    RepeatedAgain(r, x, m, n - m);
    assert Within(x.cfg, x.nrPhases, x.survey, 800, top);
  }
}
