/** Sequences of evaluations: the current of a node from one to the next. */
module EvseEvaluations {
  import opened CArithmetic
  import opened EvseTypes
  import opened EvseControl
  import opened EvseRegulation
  import opened EvseJudgement
  import opened EvseAllocation
  import opened EvseLimits
  import Shortage
  import Distribution

  /** One evaluation without a newcomer, by the controller of a group. */
  datatype Evaluation = Evaluation(cfg: Config, c: Control, r: Regulator, f: Fleet, d: Control, q: Regulator, g: Fleet,
                                   h: Fleet, how: Account)

  /** The nodes and the regulation when the distribution begins. */
  ghost function Entered(e: Evaluation): (f: Fleet)
    requires Sized(e.f)
    ensures Sized(f) && f.states == e.f.states && f.prev == e.f.prev && f.balanced == e.f.balanced
  {
    Limited0(e.cfg, e.r, e.f).1
  }

  ghost function Aimed(e: Evaluation): Regulator
    requires Sized(e.f)
  {
    Target(e.cfg, e.c.nrPhases, Limited0(e.cfg, e.r, e.f).0, false, SurveyOf(Entered(e)))
  }

  /** Node i is charging; whether current is distributed depends on the data being fresh. */
  ghost predicate TakesPart(e: Evaluation, i: nat) {
    && Evaluated(e.cfg, false, e.c, e.r, e.f, e.d, e.q, e.g, e.h, e.how) && e.cfg.loadBl == 1
    && i < |e.f.states| && e.f.states[i] == C
  }

  ghost predicate Distributes(e: Evaluation)
    requires Sized(e.f)
  {
    Distributing(e.cfg, Aimed(e), SurveyOf(Entered(e)))
  }

  /** A distribution moves the node a step; without one nothing moves. */
  lemma {:induction false} EvaluationSteps(e: Evaluation, i: nat)
    requires TakesPart(e, i)
    ensures Sized(e.f) && i < |e.g.balanced| == |e.g.prev| == |e.h.balanced| == |e.f.prev| == |e.f.states|
    ensures if Distributes(e) then e.g.prev[i] == e.g.balanced[i] == Approach(MAX_DELTA, e.h.balanced[i], e.f.prev[i])
            else e.g.prev[i] == e.f.prev[i] && e.g.balanced[i] == e.f.balanced[i]
    ensures Distributes(e) ==> Distributed(e.cfg, Aimed(e).isetBalanced, Entered(e), e.h, e.how)
  {
    hide Distributed, Distributing, Judged, Target, Spent, RampedRegulator, Approach, SurveyOf;
    if Distributes(e) {
      DistributedStates(e.cfg, Aimed(e).isetBalanced, Entered(e), e.h, e.how);
    }
  }

  /** A charging node that had a current moves at most 3 A, towards what the distribution wants and
      not past it. */
  lemma {:induction false} EvaluationMovesGently(e: Evaluation, i: nat)
    requires TakesPart(e, i) && Sized(e.f) && Distributes(e) && e.f.prev[i] > 0
    ensures i < |e.g.balanced| && e.f.prev[i] - MAX_DELTA <= e.g.balanced[i] <= e.f.prev[i] + MAX_DELTA
    ensures i < |e.h.balanced|
    ensures Min(e.h.balanced[i], e.f.prev[i]) <= e.g.balanced[i] <= Max(e.h.balanced[i], e.f.prev[i])
  {
    hide TakesPart, Distributes;
    EvaluationSteps(e, i);
    ApproachesWithoutOvershoot(MAX_DELTA, e.h.balanced[i], e.f.prev[i]);
  }

  // ------------------------------------------------------------------ the total after the steps

  /** What the steps leave the charging nodes above their shares h. */
  ghost function Above(f: Fleet, h: Fleet): (s: seq<nat>)
    requires Sized(f) && Sized(h) && |f.states| == |h.states|
    ensures |s| == |f.states|
  {
    seq(|f.states|, i requires 0 <= i < |f.states| =>
      if f.states[i] == C && f.prev[i] > 0 then Max(0, f.prev[i] - MAX_DELTA - h.balanced[i]) else 0)
  }

  /** What the steps keep them below. */
  ghost function Below(f: Fleet, h: Fleet): (s: seq<nat>)
    requires Sized(f) && Sized(h) && |f.states| == |h.states|
    ensures |s| == |f.states|
  {
    seq(|f.states|, i requires 0 <= i < |f.states| =>
      if f.states[i] == C && f.prev[i] > 0 then Max(0, h.balanced[i] - f.prev[i] - MAX_DELTA) else 0)
  }

  /** The charging nodes together exceed what was distributed exactly if the nodes that come from above
      their shares have further to go than the others: beyond one step each. */
  lemma {:induction false} StepsTotal(e: Evaluation, i: nat)
    requires TakesPart(e, i) && Sized(e.f) && Distributes(e)
    ensures Sized(e.h) && |e.f.states| == |e.h.states| == |e.g.balanced|
    ensures Shortage.Total(e.f.states, e.g.balanced) + Shortage.Sum(Below(e.f, e.h))
         == Shortage.Total(e.f.states, e.h.balanced) + Shortage.Sum(Above(e.f, e.h))
    ensures Shortage.Total(e.f.states, e.g.balanced) > Shortage.Total(e.f.states, e.h.balanced)
       <==> Shortage.Sum(Above(e.f, e.h)) > Shortage.Sum(Below(e.f, e.h))
  {
    SharesSized(e, i);
    hide TakesPart, Distributes, Sized, Shortage.Total, Shortage.Sum, Above, Below, Approach;
    forall k: nat | k < |e.f.states| && e.f.states[k] == C
      ensures e.g.balanced[k] == Approach(MAX_DELTA, e.h.balanced[k], e.f.prev[k])
    {
      AllTakePart(e, i, k);
      EvaluationSteps(e, k);
    }
    TotalsBalance(e.f, e.h, e.g.balanced);
  }

  lemma {:induction false} TotalsBalance(f: Fleet, h: Fleet, b: seq<nat>)
    requires Sized(f) && Sized(h) && |f.states| == |h.states| == |b|
    requires forall k: nat :: k < |b| && f.states[k] == C ==> b[k] == Approach(MAX_DELTA, h.balanced[k], f.prev[k])
    ensures Shortage.Total(f.states, b) + Shortage.Sum(Below(f, h))
         == Shortage.Total(f.states, h.balanced) + Shortage.Sum(Above(f, h))
  {
    hide Shortage.Sum, Above, Below, Approach;
    var x, y := Shortage.Drawn(f.states, b), Shortage.Drawn(f.states, h.balanced);
    forall k: nat | k < |b|
      ensures x[k] + Below(f, h)[k] == y[k] + Above(f, h)[k]
    {
      NodeSteps(f, h, b, k);
    }
    Shortage.SumsAgree(x, Below(f, h), y, Above(f, h));
  }

  lemma {:induction false} SharesSized(e: Evaluation, i: nat)
    requires TakesPart(e, i) && Sized(e.f) && Distributes(e)
    ensures Sized(e.h) && |e.f.states| == |e.h.states| == |e.g.balanced|
  {
    hide Evaluated, Distributing, Distributed, Aimed, SurveyOf;
    EvaluationSteps(e, i);
    DistributedStates(e.cfg, Aimed(e).isetBalanced, Entered(e), e.h, e.how);
  }

  lemma {:induction false} NodeSteps(f: Fleet, h: Fleet, b: seq<nat>, k: nat)
    requires Sized(f) && Sized(h) && k < |f.states| == |h.states| == |b|
    requires f.states[k] == C ==> b[k] == Approach(MAX_DELTA, h.balanced[k], f.prev[k])
    ensures Shortage.Drawn(f.states, b)[k] + Below(f, h)[k]
         == Shortage.Drawn(f.states, h.balanced)[k] + Above(f, h)[k]
  {
    hide Approach;
    if f.states[k] == C {
      if f.prev[k] > 0 {
        StepBalance(MAX_DELTA, h.balanced[k], f.prev[k]);
      } else {
        FirstStep(MAX_DELTA, h.balanced[k]);
      }
    }
  }

  lemma AllTakePart(e: Evaluation, i: nat, k: nat)
    requires TakesPart(e, i) && k < |e.f.states| && e.f.states[k] == C
    ensures TakesPart(e, k)
  {
    hide Evaluated;
  }

  lemma FirstStep(step: nat, target: nat)
    ensures Approach(step, target, 0) == target
  {
  }

  /** One node at 20 A, another 10 A in the house, and mains of 25 A. */
  ghost predicate SteepSettings(cfg: Config) {
    && cfg.mode == Smart && cfg.loadBl == 1 && cfg.maxMains == 25 && cfg.maxCircuit == 32 && cfg.minCurrent == 6
    && cfg.mainsMeasured == 300 && cfg.evMeasured == 200 && cfg.mainsMeterType != 0 && cfg.evMeterType == 0
    && cfg.maxSumMains == 0 && cfg.maxCircuitMains == 0 && cfg.capacityHeadroom == NO_LIMIT && !cfg.gridRelayOpen
    && cfg.idiffWeight == 4 && cfg.rampDivisor == 1 && cfg.deadBand <= 50 && cfg.emaAlpha == 100
    && cfg.maxCurrent == 32 && cfg.maxCapacity == 32 && cfg.overrideCurrent == 0
  }

  ghost function SteepFleet(): Fleet { Fleet([C], [200], [320], [200], [Active], [0], [0], [0]) }

  /** The distribution gives the node the 15 A that are left for it; the step leaves it at 17 A, and the
      mains are exceeded. */
  lemma {:induction false} StepsAboveMains(cfg: Config, c: Control, r: Regulator) returns (e: Evaluation)
    requires SteepSettings(cfg)
    requires r.updated && r.settlingTimer == 0 && r.isetBalanced == 200 && r.idiffPrev == 0 && r.oscillation == 0
    ensures e.cfg == cfg && e.c == c && e.r == r && e.f == SteepFleet()
    ensures TakesPart(e, 0) && Distributes(e) && Baseload(cfg, SurveyOf(Entered(e))) == 100
    ensures e.h.balanced == [150] && e.g.balanced == [170]
    ensures Shortage.Total([C], e.g.balanced) + 100 > 10 * cfg.maxMains
  {
    hide Shortage.Sum, Target, TakesPart;
    var f := SteepFleet();
    var (r0, f0) := Limited0(cfg, r, f);
    assert f0.max == [320];
    SingleTotal([320]);
    SingleTotal([200]);
    SingleTotal([150]);
    SingleTotal([170]);
    SingleTotal(Distribution.Ones(1));
    var s := Survey(1, 320, 200);
    assert SurveyOf(f0) == s;
    SteepTarget(cfg, c.nrPhases, r0, s);
    var h, how := f0.(balanced := [150], errors := [Shortage.WithoutLess6A(0)]), ByLevel(150);
    SteepDistributed(cfg, f0, h);
    hide Distributed, SurveyOf, Shortage.Total, ChargeCurrent, Approach;
    var d, q, g := Outcome(cfg, false, c, r, f, h, how);
    e := Evaluation(cfg, c, r, f, d, q, g, h, how);
    SteepTakesPart(e);
    EvaluationSteps(e, 0);
    assert g.balanced == [170] by {
      SteepStep();
    }
  }

  lemma SteepStep()
    ensures Approach(MAX_DELTA, 150, 200) == 170
  {
  }

  lemma SteepTakesPart(e: Evaluation)
    requires Evaluated(e.cfg, false, e.c, e.r, e.f, e.d, e.q, e.g, e.h, e.how) && e.cfg.loadBl == 1
    requires e.f == SteepFleet()
    ensures TakesPart(e, 0)
  {
    hide Evaluated;
  }

  lemma SteepTarget(cfg: Config, nrPhases: nat, r: Regulator, s: Survey)
    requires SteepSettings(cfg) && s == Survey(1, 320, 200)
    requires r.updated && r.settlingTimer == 0 && r.isetBalanced == 200 && r.idiffPrev == 0 && r.oscillation == 0
    ensures Target(cfg, nrPhases, r, false, s).isetBalanced == 150 && Target(cfg, nrPhases, r, false, s).updated
  {
    SteepCorrected(cfg, r);
    hide Mean, Corrected;
    NoSmoothing(cfg, Unsmoothed(cfg, nrPhases, r, false, s));
  }

  lemma SteepCorrected(cfg: Config, r: Regulator)
    requires SteepSettings(cfg)
    requires r.updated && r.isetBalanced == 200 && r.idiffPrev == 0 && r.oscillation == 0
    ensures Corrected(cfg, r).isetBalanced == 150 && Corrected(cfg, r).updated
  {
    assert Headroom(cfg) == -50;
    assert Mean(4, 4, r.idiffFiltered, -50) == -50 by {
      TruncDivExact(-50, 4);
    }
    hide Mean, Headroom;
  }

  lemma SteepDistributed(cfg: Config, f: Fleet, h: Fleet)
    requires SteepSettings(cfg) && f == SteepFleet() && SurveyOf(f) == Survey(1, 320, 200)
    requires h == f.(balanced := [150], errors := [Shortage.WithoutLess6A(0)])
    ensures Distributed(cfg, 150, f, h, ByLevel(150))
  {
    hide Shortage.Sum, Shortage.WithoutLess6A;
    SingleTotal([150]);
  }

  /** Node i is charging in all of them, and each starts from the currents remembered by the one
      before. */
  ghost predicate Successive(es: seq<Evaluation>, i: nat) {
    && (forall k: nat :: k < |es| ==> TakesPart(es[k], i))
    && (forall k: nat :: k + 1 < |es| ==> Continues(es, k))
  }

  ghost predicate Continues(es: seq<Evaluation>, k: nat)
    requires k + 1 < |es|
  {
    es[k + 1].f.prev == es[k].g.prev
  }

  /** What the distributions wanted for node i. */
  ghost function Wanted(es: seq<Evaluation>, i: nat): seq<nat>
    requires forall k: nat :: k < |es| ==> Sized(es[k].f) && i < |es[k].h.balanced|
  {
    if |es| == 0 then []
    else
      var e := es[|es| - 1];
      Wanted(es[..|es| - 1], i) + if Distributes(e) then [e.h.balanced[i]] else []
  }

  lemma SuccessiveFront(es: seq<Evaluation>, i: nat)
    requires |es| > 0 && Successive(es, i)
    ensures Successive(es[..|es| - 1], i) && TakesPart(es[|es| - 1], i)
    ensures |es| > 1 ==> es[|es| - 1].f.prev == es[|es| - 2].g.prev
  {
    hide TakesPart;
    var before := es[..|es| - 1];
    forall k: nat | k + 1 < |before|
      ensures Continues(before, k)
    {
      assert Continues(es, k);
    }
    if |es| > 1 {
      assert Continues(es, |es| - 2);
    }
  }

  lemma SuccessiveSizes(es: seq<Evaluation>, i: nat)
    requires Successive(es, i)
    ensures forall k: nat :: k < |es| ==>
              Sized(es[k].f) && i < |es[k].f.prev| && i < |es[k].h.balanced| && i < |es[k].g.prev|
    ensures forall k: nat :: k < |es| ==> i < |es[k].g.balanced|
  {
    hide TakesPart, Distributes, Sized;
    forall k: nat | k < |es|
      ensures Sized(es[k].f) && i < |es[k].f.prev| && i < |es[k].h.balanced| && i < |es[k].g.prev|
              && i < |es[k].g.balanced|
    {
      assert TakesPart(es[k], i);
      EvaluationSteps(es[k], i);
    }
  }

  /** Over any number of evaluations the remembered current of a charging node approaches, step by
      step, what the distributions want, and rests while there is none: what is proved of Currents
      holds of it.  It is the current of the node when the last evaluation distributed. */
  lemma {:induction false} CurrentsOfNode(es: seq<Evaluation>, i: nat)
    requires |es| > 0 && Successive(es, i)
    ensures forall k: nat :: k < |es| ==>
              Sized(es[k].f) && i < |es[k].f.prev| && i < |es[k].h.balanced| && i < |es[k].g.prev|
    ensures es[|es| - 1].g.prev[i] == Currents(MAX_DELTA, es[0].f.prev[i], Wanted(es, i))
    ensures i < |es[|es| - 1].g.balanced|
    ensures Distributes(es[|es| - 1]) ==> es[|es| - 1].g.balanced[i] == es[|es| - 1].g.prev[i]
  {
    hide TakesPart, Approach, Distributes, Sized, Successive;
    SuccessiveSizes(es, i);
    SuccessiveFront(es, i);
    var n := |es| - 1;
    EvaluationSteps(es[n], i);
    if n > 0 {
      CurrentsOfNode(es[..n], i);
    }
    var w, wanted := Wanted(es[..n], i), es[n].h.balanced[i];
    assert Currents(MAX_DELTA, es[0].f.prev[i], w) == es[n].f.prev[i];
    if Distributes(es[n]) {
      assert Wanted(es, i) == w + [wanted] && (w + [wanted])[..|w|] == w;
    } else {
      assert Wanted(es, i) == w;
    }
  }

  /** Whenever current is distributed, the maximum of node i is at most `limit`, and priority
      scheduling does not raise the node above it. */
  ghost predicate Capped(e: Evaluation, i: nat, limit: nat)
    requires Sized(e.f) && i < |e.f.states|
  {
    Distributes(e) ==> Entered(e).max[i] <= limit && !Raised(e.cfg, Aimed(e).isetBalanced, Entered(e), e.how, i)
  }

  /** A node that starts within its maximum stays within it, over any number of evaluations in none
      of which priority scheduling raises it to a minimum above its maximum. */
  lemma {:induction false} CurrentsWithinMaximum(es: seq<Evaluation>, i: nat, limit: nat)
    requires |es| > 0 && Successive(es, i)
    requires forall k: nat :: k < |es| ==> Sized(es[k].f) && i < |es[k].f.states| && Capped(es[k], i, limit)
    requires i < |es[0].f.prev| && es[0].f.prev[i] <= limit
    ensures i < |es[|es| - 1].g.prev| && es[|es| - 1].g.prev[i] <= limit
    ensures i < |es[|es| - 1].g.balanced| && (Distributes(es[|es| - 1]) ==> es[|es| - 1].g.balanced[i] <= limit)
  {
    hide TakesPart, Approach, Distributes, Sized, Successive, Capped;
    SuccessiveSizes(es, i);
    WantedWithinMaximum(es, i, limit);
    CurrentsOfNode(es, i);
    CurrentsBounded(MAX_DELTA, es[0].f.prev[i], Wanted(es, i), limit);
  }

  lemma {:induction false} WantedWithinMaximum(es: seq<Evaluation>, i: nat, limit: nat)
    requires Successive(es, i)
    requires forall k: nat :: k < |es| ==>
               Sized(es[k].f) && i < |es[k].f.states| && i < |es[k].h.balanced| && Capped(es[k], i, limit)
    ensures forall m :: 0 <= m < |Wanted(es, i)| ==> Wanted(es, i)[m] <= limit
  {
    hide TakesPart, Distributes, Sized, Successive, Capped;
    if |es| > 0 {
      var n := |es| - 1;
      SuccessiveFront(es, i);
      WantedWithinMaximum(es[..n], i, limit);
      WantedOnce(es[n], i, limit);
    }
  }

  lemma {:induction false} WantedOnce(e: Evaluation, i: nat, limit: nat)
    requires TakesPart(e, i) && Sized(e.f) && Capped(e, i, limit)
    ensures i < |e.h.balanced| && (Distributes(e) ==> e.h.balanced[i] <= limit)
  {
    hide Evaluated, Distributing, Distributed, Raised, Limited0, Aimed, SurveyOf;
    EvaluationSteps(e, i);
    if Distributes(e) {
      MaximumKept(e.cfg, Aimed(e).isetBalanced, Entered(e), e.h, e.how, i);
    }
  }

  /** The condition is exact: a node without a current gets more than its maximum in the next
      distribution exactly if it is raised. */
  lemma {:induction false} FirstCurrentWithinMaximum(e: Evaluation, i: nat)
    requires TakesPart(e, i) && Sized(e.f) && Distributes(e) && e.f.prev[i] == 0
    ensures i < |e.g.balanced|
    ensures e.g.balanced[i] <= Entered(e).max[i] <==> !Raised(e.cfg, Aimed(e).isetBalanced, Entered(e), e.how, i)
  {
    hide Evaluated, Distributing, Distributed, Raised, Limited0, Aimed, SurveyOf;
    EvaluationSteps(e, i);
    MaximumKept(e.cfg, Aimed(e).isetBalanced, Entered(e), e.h, e.how, i);
  }
}
