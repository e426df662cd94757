/** Properties of every run of the charging state machine. */
module EvseRuns {
  import opened CArithmetic
  import opened EvseTypes
  import opened EvseControl
  import opened EvseSteps
  import opened EvseInvariant

  predicate Unplugs(e: Event) { e.Tick10? && e.pilot == V12 }

  predicate ReadsDiode(e: Event) { e.Tick10? && e.pilot == Diode }

  /** Authorization was not withdrawn while a request was pending, in the first k steps. */
  ghost predicate KeptUntil(r: Run, k: nat)
    requires |r.states| == |r.events| + 1 && k <= |r.events|
  {
    forall i: nat :: i < k ==> !Withdrawn(r.states[i], r.events[i])
  }

  lemma {:induction false} SafeRun(kept: bool, r: Run, k: nat)
    requires Follows(r) && Initial(r.states[0]) && k <= |r.events| && (kept ==> KeptUntil(r, k))
    ensures Safe(kept, r.settings[0].loadBl, r.states[k]) && r.settings[k].loadBl == r.settings[0].loadBl
  {
    hide Safe, Initial, Withdrawn;
    if k == 0 {
      SafeInitially(kept, r.settings[0].loadBl, r.states[0]);
    } else {
      SafeRun(kept, r, k - 1);
      assert StepAt(r, k - 1);
      SafeStep(kept, r.settings[k - 1], r.states[k - 1], r.events[k - 1], r.settings[k], r.states[k]);
    }
  }

  /** Over every run the contactors follow the state. */
  lemma ContactorsFollow(r: Run, k: nat)
    requires Follows(r) && Initial(r.states[0]) && k <= |r.events|
    ensures Contactors(r.states[k])
  {
    SafeRun(false, r, k);
  }

  // ------------------------------------------------------------------ authorization

  /** Over every run without a master above the controller, or in which authorization is not
      withdrawn while a request is pending, it charges only with permission. */
  lemma {:induction false} ChargesPermitted(r: Run, k: nat)
    requires Follows(r) && Initial(r.states[0]) && k <= |r.events|
    requires r.settings[0].loadBl < 2 || KeptUntil(r, k)
    ensures r.states[k].state == C ==> Permitted(r.states[k])
  {
    if r.settings[0].loadBl < 2 {
      forall i: nat | i < k
        ensures !Withdrawn(r.states[i], r.events[i])
      {
        SafeRun(false, r, i);
      }
    }
    SafeRun(true, r, k);
  }

  /** The condition is exact: withdrawing authorization while a request is pending is the one step
      that leaves a request without permission. */
  lemma {:induction false} WithdrawnExactly(cfg: Config, c: Control, e: Event, cfg': Config, d: Control)
    requires Step(cfg, c, e, cfg', d) && Safe(true, cfg.loadBl, c)
    ensures Authorized(true, cfg.loadBl, d) <==> !Withdrawn(c, e)
  {
    if !Withdrawn(c, e) {
      SafeStep(true, cfg, c, e, cfg', d);
    }
  }

  /** During a 10 ms tick: no grant is pending, and a charge is permitted. */
  predicate Clean(c: Control) {
    c.state != CommCOk && (c.state == C ==> Permitted(c))
  }

  lemma CleanBeforeB(cfg: Config, c: Control, pilot: Pilot, available: bool)
    requires Clean(c)
    ensures Clean(HandleA(cfg, c, pilot, available)) && Clean(HandleCommBOk(cfg, c))
  {
    hide SetState;
  }

  lemma CleanB(cfg: Config, c: Control, pilot: Pilot, available: bool, after: Control)
    requires Clean(c) && Balanced(Counted(c), after)
    ensures Clean(HandleB(cfg, c, pilot, available, after))
  {
    hide SetState;
  }

  lemma CleanAfterB(cfg: Config, c: Control, pilot: Pilot)
    requires Clean(c)
    ensures Clean(HandleC1(cfg, c, pilot)) && Clean(HandleActStart(cfg, c))
    ensures Clean(HandleCommCOk(cfg, c)) && Clean(HandleC(cfg, c, pilot))
  {
    hide SetState;
  }

  lemma CleanTick10(cfg: Config, c: Control, pilot: Pilot, available: bool, after: Control)
    requires Balanced(Requesting(cfg, c, pilot, available), after) && Clean(c)
    ensures Clean(Tick10ms(cfg, c, pilot, available, after))
  {
    hide Clean, HandleA, HandleCommBOk, HandleB, HandleC1, HandleActStart, HandleCommCOk, HandleC, Balanced;
    CleanBeforeB(cfg, c, pilot, available);
    CleanBeforeB(cfg, HandleA(cfg, c, pilot, available), pilot, available);
    var d := HandleB(cfg, BeforeB(cfg, c, pilot, available), pilot, available, after);
    CleanB(cfg, BeforeB(cfg, c, pilot, available), pilot, available, after);
    CleanAfterB(cfg, d, pilot);
    var d1 := HandleC1(cfg, d, pilot);
    CleanAfterB(cfg, d1, pilot);
    var d2 := HandleActStart(cfg, d1);
    CleanAfterB(cfg, d2, pilot);
    CleanAfterB(cfg, HandleCommCOk(cfg, d2), pilot);
  }

  /** From a granted request the tick goes straight to C, and out of it again if the pilot says so. */
  lemma GrantedTick10(cfg: Config, c: Control, pilot: Pilot, available: bool, after: Control)
    requires c.state == CommCOk
    ensures Tick10ms(cfg, c, pilot, available, after) == HandleC(cfg, HandleCommCOk(cfg, c), pilot)
  {
    hide SetState;
  }

  lemma GrantedPermission(cfg: Config, c: Control, pilot: Pilot)
    requires c.state == CommCOk
    ensures var x := HandleCommCOk(cfg, c);
            && x.state == C && Permitted(x) == Permitted(c) && !x.diodeCheck
            && (HandleC(cfg, x, pilot).state == C ==> Permitted(HandleC(cfg, x, pilot)) == Permitted(x))
            && !HandleC(cfg, x, pilot).diodeCheck
  {
    hide SetState;
  }

  /** Charging begins with permission, except exactly when a granted request has lost it. */
  lemma {:induction false} EntryPermitted(cfg: Config, c: Control, e: Event, cfg': Config, d: Control)
    requires Step(cfg, c, e, cfg', d) && c.state != C && d.state == C
    ensures Permitted(d) <==> (c.state == CommCOk ==> Permitted(c))
  {
    hide Tick10ms, TickTimers, TickErrors, SetState, Requesting, HandleC, HandleCommCOk;
    match e
    case Tick10(pilot, available) =>
      var after :|
        Balanced(Requesting(cfg, c, pilot, available), after) && d == Tick10ms(cfg, c, pilot, available, after);
      if c.state == CommCOk {
        GrantedTick10(cfg, c, pilot, available, after);
        GrantedPermission(cfg, c, pilot);
      } else {
        CleanTick10(cfg, c, pilot, available, after);
      }
    case Tick1(available) =>
      DiodeTimers(cfg, c);
      StopsErrors(cfg, TickTimers(cfg, c), available);
    case _ =>
  }

  ghost predicate ChargesUnpermitted(r: Run, k: nat)
    requires k < |r.states|
  {
    r.states[k].state == C && !Permitted(r.states[k])
  }

  /** The reading at which a granted request starts to charge: no unplugged or waiting car, and no
      short circuit that has lasted too long. */
  predicate StartsCharge(c: Control, e: Event) {
    e.Tick10? && e.pilot !in {V12, V9} && !(e.pilot == Short && ToUint8(c.stateTimer + 1) > 50)
  }

  /** From a granted request C is entered exactly at such a reading. */
  lemma {:induction false} GrantedEnters(cfg: Config, c: Control, e: Event, cfg': Config, d: Control)
    requires Step(cfg, c, e, cfg', d) && c.state == CommCOk
    ensures d.state == C <==> StartsCharge(c, e)
  {
    hide Tick10ms, TickTimers, TickErrors, SetState, Requesting, HandleC, HandleCommCOk;
    match e
    case Tick10(pilot, available) =>
      var after :|
        Balanced(Requesting(cfg, c, pilot, available), after) && d == Tick10ms(cfg, c, pilot, available, after);
      GrantedTick10(cfg, c, pilot, available, after);
      GrantedReading(cfg, c, pilot, available);
    case Tick1(available) =>
      DiodeTimers(cfg, c);
      StopsErrors(cfg, TickTimers(cfg, c), available);
    case _ =>
  }

  lemma GrantedReading(cfg: Config, c: Control, pilot: Pilot, available: bool)
    requires c.state == CommCOk
    ensures HandleC(cfg, HandleCommCOk(cfg, c), pilot).state == C <==> StartsCharge(c, Tick10(pilot, available))
  {
  }

  /** At step j a granted request that has no permission starts to charge. */
  ghost predicate EntersUnpermitted(r: Run, j: nat)
    requires j < |r.states| && j < |r.events|
  {
    r.states[j].state == CommCOk && !Permitted(r.states[j]) && StartsCharge(r.states[j], r.events[j])
  }

  /** Where a charge without permission began. */
  lemma {:induction false} UnpermittedOrigin(r: Run, k: nat) returns (j: nat)
    requires Follows(r) && Initial(r.states[0]) && k <= |r.events| && ChargesUnpermitted(r, k)
    ensures j < k && EntersUnpermitted(r, j)
    ensures forall m: nat :: j < m <= k ==> ChargesUnpermitted(r, m)
  {
    hide Step, Safe, Permitted;
    SafeRun(false, r, 0);
    assert k > 0 by {
      assert r.states[0].state == A;
    }
    SafeRun(false, r, k - 1);
    assert StepAt(r, k - 1);
    var c, d := r.states[k - 1], r.states[k];
    if c.state == C {
      if Permitted(c) {
        ChargingSafe(r.settings[0].loadBl, c);
        SafeStep(true, r.settings[k - 1], c, r.events[k - 1], r.settings[k], d);
        SafePermits(r.settings[k].loadBl, d);
      }
      j := UnpermittedOrigin(r, k - 1);
    } else {
      EntryPermitted(r.settings[k - 1], c, r.events[k - 1], r.settings[k], d);
      GrantedEnters(r.settings[k - 1], c, r.events[k - 1], r.settings[k], d);
      j := k - 1;
    }
  }

  lemma ChargingSafe(loadBl: nat, c: Control)
    requires Safe(false, loadBl, c) && c.state == C && Permitted(c)
    ensures Safe(true, loadBl, c) && forall e :: !Withdrawn(c, e)
  {
  }

  lemma SafePermits(loadBl: nat, c: Control)
    requires Safe(true, loadBl, c) && c.state == C
    ensures Permitted(c)
  {
  }

  /** Over every run: somewhere it charges without permission exactly if somewhere a granted request that
      has lost permission meets a reading that starts the charge. */
  lemma {:induction false} UnpermittedExactly(r: Run)
    requires Follows(r) && Initial(r.states[0])
    ensures (exists k: nat :: k <= |r.events| && ChargesUnpermitted(r, k))
       <==> (exists j: nat :: j < |r.events| && EntersUnpermitted(r, j))
  {
    hide Step, Permitted;
    if k: nat :| k <= |r.events| && ChargesUnpermitted(r, k) {
      var j := UnpermittedOrigin(r, k);
    }
    if j: nat :| j < |r.events| && EntersUnpermitted(r, j) {
      assert StepAt(r, j);
      GrantedEnters(r.settings[j], r.states[j], r.events[j], r.settings[j + 1], r.states[j + 1]);
      EntryPermitted(r.settings[j], r.states[j], r.events[j], r.settings[j + 1], r.states[j + 1]);
      assert ChargesUnpermitted(r, j + 1);
    }
  }

  /** A tick of one second never leaves the controller charging with LESS_6A set. */
  lemma {:induction false} TickStopsShortage(cfg: Config, c: Control, available: bool, cfg': Config, d: Control)
    requires Step(cfg, c, Tick1(available), cfg', d)
    ensures d.errors.less6A ==> Cooling(d, CHARGE_DELAY)
  {
    hide TickTimers, TickRecovery, TickMainsMeter, TickEvMeter, TickMeterRecovery, TickTemperature;
    CoolingStarts(cfg, TickTemperature(cfg, TickMeterRecovery(TickEvMeter(cfg, TickMainsMeter(cfg,
      TickRecovery(cfg, TickTimers(cfg, c), available))))));
  }

  // ------------------------------------------------------------------ errors only stop

  predicate NoEntry(c: Control, d: Control) {
    d.diodeCheck == c.diodeCheck && (c.state != C ==> d.state != C)
  }

  /** Does not begin to charge, and leaves a controller alone that is not charging or winding down. */
  predicate Stops(c: Control, d: Control) {
    && NoEntry(c, d)
    && (c.state in {A, B1, C1} ==>
          d.state == c.state && d.c1Timer == c.c1Timer && d.contactor1 == c.contactor1 && d.contactor2 == c.contactor2)
    && (c.state in {A, B1, C1} ==> d.chargeDelay == c.chargeDelay || d.chargeDelay == CHARGE_DELAY)
  }

  lemma StopsMeters(cfg: Config, c: Control)
    ensures Stops(c, TickMainsMeter(cfg, c)) && Stops(c, TickEvMeter(cfg, c))
  {
    hide SetState;
  }

  lemma StopsRecovery(cfg: Config, c: Control, available: bool)
    ensures Stops(c, TickRecovery(cfg, c, available)) && Stops(c, TickMeterRecovery(c))
  {
  }

  lemma StopsChecks(cfg: Config, c: Control)
    ensures Stops(c, TickTemperature(cfg, c)) && Stops(c, TickLess6A(cfg, c))
  {
    hide SetState;
  }

  lemma StopsErrors(cfg: Config, c: Control, available: bool)
    ensures Stops(c, TickErrors(cfg, c, available))
  {
    hide TickRecovery, TickMainsMeter, TickEvMeter, TickMeterRecovery, TickTemperature, TickLess6A;
    StopsRecovery(cfg, c, available);
    var d := TickRecovery(cfg, c, available);
    StopsMeters(cfg, d);
    StopsMeters(cfg, TickMainsMeter(cfg, d));
    var e := TickEvMeter(cfg, TickMainsMeter(cfg, d));
    StopsRecovery(cfg, e, available);
    StopsChecks(cfg, TickMeterRecovery(e));
    StopsChecks(cfg, TickTemperature(cfg, TickMeterRecovery(e)));
  }

  // ------------------------------------------------------------------ the pause after a shortage

  /** Not charging, and no request can be granted for n more seconds. */
  predicate Cooling(c: Control, n: int) {
    c.state in {A, B1, C1} && c.chargeDelay >= n
  }

  lemma CoolingStarts(cfg: Config, c: Control)
    ensures var d := TickLess6A(cfg, c); d.errors.less6A ==> Cooling(d, CHARGE_DELAY)
  {
    hide SetState;
  }

  lemma CoolingTick10(cfg: Config, c: Control, pilot: Pilot, available: bool, after: Control, n: int)
    requires Cooling(c, n) && n > 0 && pilot != V12
    ensures Cooling(Tick10ms(cfg, c, pilot, available, after), n)
  {
    hide SetState;
    CoolingA(cfg, c, pilot, available, n);
    hide HandleA;
  }

  lemma CoolingA(cfg: Config, c: Control, pilot: Pilot, available: bool, n: int)
    requires Cooling(c, n) && n > 0 && pilot != V12
    ensures Cooling(HandleA(cfg, c, pilot, available), n)
  {
    hide SetState;
  }

  lemma CoolingModem(cfg: Config, c: Control)
    requires c.state in {A, B1, C1}
    ensures TickModem(cfg, TickActivation(c)) == TickActivation(c)
  {
  }

  lemma CoolingTimer(cfg: Config, c: Control, n: int)
    requires Cooling(c, n)
    ensures Cooling(TickC1(cfg, c), n) && Cooling(TickSumMains(cfg, c), n) && Cooling(TickAccess(cfg, c), n - 1)
  {
    hide SetState;
  }

  lemma CoolingTimers(cfg: Config, c: Control, n: int)
    requires Cooling(c, n)
    ensures Cooling(TickTimers(cfg, c), n - 1)
  {
    hide TickModem, TickC1, TickSumMains, TickAccess;
    CoolingModem(cfg, c);
    var d := TickActivation(c);
    CoolingTimer(cfg, d, n);
    CoolingTimer(cfg, TickC1(cfg, d), n);
    CoolingTimer(cfg, TickSumMains(cfg, TickC1(cfg, d)), n);
  }

  lemma {:induction false} CoolingStep(cfg: Config, c: Control, e: Event, cfg': Config, d: Control, n: int)
    requires Step(cfg, c, e, cfg', d) && Cooling(c, n) && 0 < n <= CHARGE_DELAY && !Unplugs(e)
    ensures Cooling(d, if e.Tick1? then n - 1 else n)
  {
    hide Tick10ms, TickTimers, TickErrors, SetState, Requesting;
    match e
    case Tick10(pilot, available) =>
      var after :|
        Balanced(Requesting(cfg, c, pilot, available), after) && d == Tick10ms(cfg, c, pilot, available, after);
      CoolingTick10(cfg, c, pilot, available, after, n);
    case Tick1(available) =>
      CoolingTimers(cfg, c, n);
      StopsErrors(cfg, TickTimers(cfg, c), available);
    case _ =>
  }

  /** The number of one-second ticks among the steps i to j. */
  ghost function Seconds(events: seq<Event>, i: nat, j: nat): nat
    requires i <= j <= |events|
  {
    if i == j then 0 else Seconds(events, i, j - 1) + if events[j - 1].Tick1? then 1 else 0
  }

  /** Once a tick ends with LESS_6A set, the controller does not charge before 60 more seconds
      have passed, whatever else happens, unless the car is unplugged. */
  lemma {:induction false} NoCycling(r: Run, i: nat, j: nat)
    requires Follows(r) && i < j <= |r.events|
    requires r.events[i].Tick1? && r.states[i + 1].errors.less6A
    requires forall k :: i < k < j ==> !Unplugs(r.events[k])
    requires Seconds(r.events, i + 1, j) < CHARGE_DELAY
    ensures r.states[j].state in {A, B1, C1}
    ensures Cooling(r.states[j], CHARGE_DELAY - Seconds(r.events, i + 1, j))
  {
    hide Cooling, Step;
    if j == i + 1 {
      assert StepAt(r, i);
      TickStopsShortage(r.settings[i], r.states[i], r.events[i].available, r.settings[i + 1], r.states[i + 1]);
    } else {
      NoCycling(r, i, j - 1);
      assert StepAt(r, j - 1);
      CoolingStep(r.settings[j - 1], r.states[j - 1], r.events[j - 1], r.settings[j], r.states[j],
                  CHARGE_DELAY - Seconds(r.events, i + 1, j - 1));
    }
    CoolingState(r.states[j], CHARGE_DELAY - Seconds(r.events, i + 1, j));
  }

  lemma CoolingState(c: Control, n: int)
    ensures Cooling(c, n) ==> c.state in {A, B1, C1}
  {
  }

  // ------------------------------------------------------------------ the shutdown

  predicate Stopped(c: Control) {
    c.state in {A, B1} && !c.contactor1 && !c.contactor2
  }

  /** From C1 the way leads only to A or B1 with open contactors, and time does not stand still. */
  predicate WindsDown(c: Control, e: Event, d: Control) {
    || Stopped(d)
    || (d.state == C1 && d.c1Timer <= c.c1Timer && (e.Tick1? ==> d.c1Timer < c.c1Timer))
  }

  lemma WindDownTick10(cfg: Config, c: Control, pilot: Pilot, available: bool, after: Control)
    requires c.state == C1
    ensures WindsDown(c, Tick10(pilot, available), Tick10ms(cfg, c, pilot, available, after))
  {
    hide SetState;
  }

  lemma WindDownTimers(cfg: Config, c: Control, available: bool)
    requires c.state == C1
    ensures WindsDown(c, Tick1(available), TickTimers(cfg, c))
  {
    hide SetState;
  }

  lemma {:induction false} WindDownStep(cfg: Config, c: Control, e: Event, cfg': Config, d: Control)
    requires Step(cfg, c, e, cfg', d) && c.state == C1
    ensures WindsDown(c, e, d)
  {
    hide Tick10ms, TickTimers, TickErrors, SetState, Requesting;
    match e
    case Tick10(pilot, available) =>
      var after :|
        Balanced(Requesting(cfg, c, pilot, available), after) && d == Tick10ms(cfg, c, pilot, available, after);
      WindDownTick10(cfg, c, pilot, available, after);
    case Tick1(available) =>
      WindDownTimers(cfg, c, available);
      StopsErrors(cfg, TickTimers(cfg, c), available);
    case _ =>
  }

  /** As long as the controller stays in C1 its timer loses one unit a second. */
  lemma {:induction false} TimerRuns(r: Run, i: nat, j: nat)
    requires Follows(r) && i <= j <= |r.events| && forall k :: i <= k <= j ==> r.states[k].state == C1
    ensures r.states[j].c1Timer + Seconds(r.events, i, j) <= r.states[i].c1Timer
  {
    hide Step;
    if i < j {
      TimerRuns(r, i, j - 1);
      assert StepAt(r, j - 1);
      assert r.states[j].state == C1;
      WindDownStep(r.settings[j - 1], r.states[j - 1], r.events[j - 1], r.settings[j], r.states[j]);
    }
  }

  /** Once C1 is entered both contactors are open within seven seconds, whatever else happens, and
      the way there does not lead back to charging. */
  lemma {:induction false} ShutdownBounded(r: Run, i: nat, j: nat) returns (m: nat)
    requires Follows(r) && Initial(r.states[0]) && i <= j <= |r.events|
    requires r.states[i].state == C1 && Seconds(r.events, i, j) >= 7
    ensures i < m <= j && Stopped(r.states[m])
    ensures forall k :: i <= k < m ==> r.states[k].state == C1
  {
    hide Step, Stopped;
    SafeRun(false, r, i);
    m := i;
    while m < j && r.states[m].state == C1
      invariant i <= m <= j && forall k :: i <= k < m ==> r.states[k].state == C1
    {
      m := m + 1;
    }
    if r.states[m].state == C1 {
      TimerRuns(r, i, j);
    }
    assert StepAt(r, m - 1);
    WindDownStep(r.settings[m - 1], r.states[m - 1], r.events[m - 1], r.settings[m], r.states[m]);
  }

  // ------------------------------------------------------------------ the diode

  /** During a 10 ms tick the diode is known only if it was before (`seen`) or is read now, and a
      charge or a request for one is only there if it was before or the diode was known. */
  predicate Traced(seen: bool, charging: bool, pilot: Pilot, c: Control) {
    && (c.diodeCheck ==> seen || pilot == Diode)
    && (c.state in {C, CommC, CommCOk} ==> seen || charging)
  }

  lemma TracedBeforeB(cfg: Config, c: Control, pilot: Pilot, available: bool, seen: bool, charging: bool)
    requires Traced(seen, charging, pilot, c)
    ensures Traced(seen, charging, pilot, HandleA(cfg, c, pilot, available))
    ensures Traced(seen, charging, pilot, HandleCommBOk(cfg, c))
  {
    hide SetState;
  }

  lemma TracedB(cfg: Config, c: Control, pilot: Pilot, available: bool, after: Control, seen: bool, charging: bool)
    requires Traced(seen, charging, pilot, c) && Balanced(Counted(c), after)
    ensures Traced(seen, charging, pilot, HandleB(cfg, c, pilot, available, after))
  {
    hide SetState;
  }

  lemma TracedAfterB(cfg: Config, c: Control, pilot: Pilot, seen: bool, charging: bool)
    requires Traced(seen, charging, pilot, c)
    ensures Traced(seen, charging, pilot, HandleC1(cfg, c, pilot))
    ensures Traced(seen, charging, pilot, HandleActStart(cfg, c))
    ensures Traced(seen, charging, pilot, HandleCommCOk(cfg, c))
    ensures Traced(seen, charging, pilot, HandleC(cfg, c, pilot))
  {
    hide SetState;
  }

  lemma TracedTick10(cfg: Config, c: Control, pilot: Pilot, available: bool, after: Control, seen: bool, charging: bool)
    requires Balanced(Requesting(cfg, c, pilot, available), after) && Traced(seen, charging, pilot, c)
    ensures Traced(seen, charging, pilot, Tick10ms(cfg, c, pilot, available, after))
  {
    hide Traced, HandleA, HandleCommBOk, HandleB, HandleC1, HandleActStart, HandleCommCOk, HandleC, Balanced;
    TracedBeforeB(cfg, c, pilot, available, seen, charging);
    TracedBeforeB(cfg, HandleA(cfg, c, pilot, available), pilot, available, seen, charging);
    var d := HandleB(cfg, BeforeB(cfg, c, pilot, available), pilot, available, after);
    TracedB(cfg, BeforeB(cfg, c, pilot, available), pilot, available, after, seen, charging);
    TracedAfterB(cfg, d, pilot, seen, charging);
    var d1 := HandleC1(cfg, d, pilot);
    TracedAfterB(cfg, d1, pilot, seen, charging);
    var d2 := HandleActStart(cfg, d1);
    TracedAfterB(cfg, d2, pilot, seen, charging);
    TracedAfterB(cfg, HandleCommCOk(cfg, d2), pilot, seen, charging);
  }

  lemma DiodeModem(cfg: Config, c: Control)
    ensures NoEntry(c, TickModemRequest(cfg, c)) && NoEntry(c, TickModemWait(cfg, c))
    ensures NoEntry(c, TickModemDone(cfg, c)) && NoEntry(c, TickModemDenied(cfg, c))
  {
    hide SetState;
  }

  lemma DiodeModemTick(cfg: Config, c: Control)
    ensures NoEntry(c, TickModem(cfg, c))
  {
    hide TickModemRequest, TickModemWait, TickModemDone, TickModemDenied;
    DiodeModem(cfg, c);
    DiodeModem(cfg, TickModemRequest(cfg, c));
    DiodeModem(cfg, TickModemWait(cfg, TickModemRequest(cfg, c)));
    DiodeModem(cfg, TickModemDone(cfg, TickModemWait(cfg, TickModemRequest(cfg, c))));
  }

  lemma DiodeTimer(cfg: Config, c: Control)
    ensures NoEntry(c, TickActivation(c)) && NoEntry(c, TickC1(cfg, c))
    ensures NoEntry(c, TickSumMains(cfg, c)) && NoEntry(c, TickAccess(cfg, c))
  {
    hide SetState;
  }

  lemma DiodeTimers(cfg: Config, c: Control)
    ensures NoEntry(c, TickTimers(cfg, c))
  {
    hide TickModem, TickActivation, TickC1, TickSumMains, TickAccess;
    var d := TickModem(cfg, TickActivation(c));
    DiodeTimer(cfg, c);
    DiodeModemTick(cfg, TickActivation(c));
    DiodeTimer(cfg, d);
    DiodeTimer(cfg, TickC1(cfg, d));
    DiodeTimer(cfg, TickSumMains(cfg, TickC1(cfg, d)));
  }

  /** The diode becomes known only by a reading of it, and charging begins only when it is known. */
  lemma {:induction false} DiodeStep(cfg: Config, c: Control, e: Event, cfg': Config, d: Control)
    requires Step(cfg, c, e, cfg', d) && DiodeKnown(c)
    ensures d.diodeCheck ==> c.diodeCheck || ReadsDiode(e)
    ensures c.state != C && d.state == C ==> c.diodeCheck
  {
    hide Tick10ms, TickTimers, TickErrors, SetState, Requesting;
    match e
    case Tick10(pilot, available) =>
      var after :|
        Balanced(Requesting(cfg, c, pilot, available), after) && d == Tick10ms(cfg, c, pilot, available, after);
      TracedTick10(cfg, c, pilot, available, after, c.diodeCheck, c.state == C);
    case Tick1(available) =>
      DiodeTimers(cfg, c);
      StopsErrors(cfg, TickTimers(cfg, c), available);
    case _ =>
  }

  /** C is entered by the step: it is the state afterwards, or it was passed through in a 10 ms tick. */
  predicate Begins(c: Control, e: Event, d: Control) {
    c.state != C && (d.state == C || (c.state == CommCOk && e.Tick10?))
  }

  /** The state just before the last handler of a 10 ms tick, which is the only one that leaves C. */
  function BeforeC(cfg: Config, c: Control, pilot: Pilot, available: bool, after: Control): Control {
    var b := BeforeB(cfg, c, pilot, available);
    HandleCommCOk(cfg, HandleActStart(cfg, HandleC1(cfg, HandleB(cfg, b, pilot, available, after), pilot)))
  }

  /** C is reached within the tick exactly if it is there at the end or a granted request is served;
      and whenever it is reached the diode is forgotten. */
  lemma {:induction false} BeginsExactly(cfg: Config, c: Control, pilot: Pilot, available: bool, after: Control)
    requires c.state != C && Balanced(Requesting(cfg, c, pilot, available), after)
    ensures BeforeC(cfg, c, pilot, available, after).state == C
       <==> Begins(c, Tick10(pilot, available), Tick10ms(cfg, c, pilot, available, after))
    ensures BeforeC(cfg, c, pilot, available, after).state == C ==>
              !Tick10ms(cfg, c, pilot, available, after).diodeCheck
  {
    hide HandleB, BeforeB, HandleC1, HandleActStart, HandleCommCOk, HandleC;
    if c.state == CommCOk {
      GrantedBeforeC(cfg, c, pilot, available, after);
      GrantedPermission(cfg, c, pilot);
    } else {
      PassesB(cfg, c, pilot, available, after);
      PassesAfterB(cfg, HandleB(cfg, BeforeB(cfg, c, pilot, available), pilot, available, after), pilot);
    }
    LeavesC(cfg, BeforeC(cfg, c, pilot, available, after), pilot);
  }

  lemma GrantedBeforeC(cfg: Config, c: Control, pilot: Pilot, available: bool, after: Control)
    requires c.state == CommCOk
    ensures BeforeC(cfg, c, pilot, available, after) == HandleCommCOk(cfg, c)
  {
    hide SetState, HandleCommCOk;
  }

  lemma PassesB(cfg: Config, c: Control, pilot: Pilot, available: bool, after: Control)
    requires c.state !in {C, CommCOk} && Balanced(Requesting(cfg, c, pilot, available), after)
    ensures var d := HandleB(cfg, BeforeB(cfg, c, pilot, available), pilot, available, after);
            d.state != CommCOk && (d.state == C ==> pilot == V6 && !d.diodeCheck)
  {
    hide SetState;
    var b := BeforeB(cfg, c, pilot, available);
    assert b.state !in {C, CommCOk};
    hide BeforeB;
  }

  lemma PassesAfterB(cfg: Config, c: Control, pilot: Pilot)
    requires c.state != CommCOk
    ensures var d := HandleCommCOk(cfg, HandleActStart(cfg, HandleC1(cfg, c, pilot)));
            (d.state == C <==> c.state == C) && (c.state == C ==> d == c)
  {
    hide SetState;
  }

  lemma LeavesC(cfg: Config, c: Control, pilot: Pilot)
    ensures HandleC(cfg, c, pilot).state == C ==> c.state == C
    ensures c.state == C && pilot == V6 ==> HandleC(cfg, c, pilot).state == C
    ensures c.state == C && !c.diodeCheck ==> !HandleC(cfg, c, pilot).diodeCheck
  {
    hide SetState;
  }

  /** A known diode was read at some step i, and it has been known, and the controller has not been
      charging, since. */
  lemma {:induction false} DiodeRead(r: Run, j: nat) returns (i: nat)
    requires Follows(r) && Initial(r.states[0]) && j <= |r.events| && r.states[j].diodeCheck
    ensures i < j && ReadsDiode(r.events[i])
    ensures forall k :: i < k <= j ==> r.states[k].state != C && r.states[k].diodeCheck
  {
    hide Step;
    SafeRun(false, r, j);
    assert j > 0;
    SafeRun(false, r, j - 1);
    assert StepAt(r, j - 1);
    DiodeStep(r.settings[j - 1], r.states[j - 1], r.events[j - 1], r.settings[j], r.states[j]);
    if r.states[j - 1].diodeCheck {
      i := DiodeRead(r, j - 1);
    } else {
      i := j - 1;
    }
  }

  /** Every entry into C, also one that is left within the same tick, is preceded by a reading of the
      diode that is newer than the previous entry: since then the diode has been known, which no tick
      that reaches C leaves so. */
  lemma {:induction false} DiodeBeforeCharging(r: Run, j: nat) returns (i: nat)
    requires Follows(r) && Initial(r.states[0]) && j < |r.events|
    requires Begins(r.states[j], r.events[j], r.states[j + 1])
    ensures i < j && ReadsDiode(r.events[i])
    ensures forall k :: i < k <= j ==> r.states[k].state != C && r.states[k].diodeCheck
  {
    hide Step;
    SafeRun(false, r, j);
    assert StepAt(r, j);
    DiodeStep(r.settings[j], r.states[j], r.events[j], r.settings[j + 1], r.states[j + 1]);
    i := DiodeRead(r, j);
  }
}
