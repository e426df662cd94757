/** What every step of the charging state machine keeps. */
module EvseInvariant {
  import opened EvseTypes
  import opened EvseControl
  import opened EvseSteps

  /** Contactor 1 is closed exactly in C and C1, contactor 2 only with it, and while charging
      contactor 2 tells the number of phases. */
  predicate Contactors(c: Control) {
    && (c.contactor1 <==> c.state == C || c.state == C1)
    && (c.contactor2 ==> c.contactor1)
    && (c.state == C ==> (c.contactor2 <==> c.nrPhases == 3))
  }

  /** Without a master the controller never asks one.  A request for current, its grant and the
      charge itself are only there with authorization and without an error that stops charging,
      as long as authorization is `kept` while the request is pending. */
  predicate Authorized(kept: bool, loadBl: nat, c: Control) {
    && (loadBl < 2 ==> c.state !in {CommB, CommBOk, CommC, CommCOk})
    && (kept && c.state in {CommC, CommCOk, C} ==> Permitted(c))
  }

  predicate Permitted(c: Control) {
    c.access == On && !c.errors.ctNoComm && !c.errors.evNoComm && !c.errors.tempHigh
  }

  /** Authorization is withdrawn while a request is pending: evse_set_access does not act on it. */
  predicate Withdrawn(c: Control, e: Event) {
    c.state in {CommC, CommCOk} && e.Authorize? && e.access != On
  }

  /** The diode of the car is known before charging, and forgotten when charging begins. */
  predicate DiodeKnown(c: Control) {
    && (c.state in {CommC, CommCOk} ==> c.diodeCheck)
    && (c.state == C ==> !c.diodeCheck)
  }

  predicate Safe(kept: bool, loadBl: nat, c: Control) {
    Contactors(c) && Authorized(kept, loadBl, c) && DiodeKnown(c) && c.c1Timer <= 6
  }

  lemma SafeInitially(kept: bool, loadBl: nat, c: Control)
    requires Initial(c)
    ensures Safe(kept, loadBl, c)
  {
  }

  // ------------------------------------------------------------------ the 10 ms tick

  lemma SafeA(kept: bool, cfg: Config, c: Control, pilot: Pilot, available: bool)
    requires Safe(kept, cfg.loadBl, c)
    ensures Safe(kept, cfg.loadBl, HandleA(cfg, c, pilot, available))
  {
    hide SetState;
  }

  lemma SafeCommBOk(kept: bool, cfg: Config, c: Control)
    requires Safe(kept, cfg.loadBl, c)
    ensures Safe(kept, cfg.loadBl, HandleCommBOk(cfg, c))
  {
    hide SetState;
  }

  lemma SafeB(kept: bool, cfg: Config, c: Control, pilot: Pilot, available: bool, after: Control)
    requires Safe(kept, cfg.loadBl, c) && Balanced(Counted(c), after)
    ensures Safe(kept, cfg.loadBl, HandleB(cfg, c, pilot, available, after))
  {
    hide SetState;
  }

  lemma SafeC1(kept: bool, cfg: Config, c: Control, pilot: Pilot)
    requires Safe(kept, cfg.loadBl, c)
    ensures Safe(kept, cfg.loadBl, HandleC1(cfg, c, pilot))
  {
    hide SetState;
  }

  lemma SafeActStart(kept: bool, cfg: Config, c: Control)
    requires Safe(kept, cfg.loadBl, c)
    ensures Safe(kept, cfg.loadBl, HandleActStart(cfg, c))
  {
    hide SetState;
  }

  lemma SafeCommCOk(kept: bool, cfg: Config, c: Control)
    requires Safe(kept, cfg.loadBl, c)
    ensures Safe(kept, cfg.loadBl, HandleCommCOk(cfg, c))
  {
    hide SetState;
  }

  lemma SafeC(kept: bool, cfg: Config, c: Control, pilot: Pilot)
    requires Safe(kept, cfg.loadBl, c)
    ensures Safe(kept, cfg.loadBl, HandleC(cfg, c, pilot))
  {
    hide SetState;
  }

  lemma SafeTick10(kept: bool, cfg: Config, c: Control, pilot: Pilot, available: bool, after: Control)
    requires Safe(kept, cfg.loadBl, c) && Balanced(Requesting(cfg, c, pilot, available), after)
    ensures Safe(kept, cfg.loadBl, Tick10ms(cfg, c, pilot, available, after))
  {
    hide Safe, HandleA, HandleCommBOk, HandleB, HandleC1, HandleActStart, HandleCommCOk, HandleC, Balanced;
    SafeA(kept, cfg, c, pilot, available);
    SafeCommBOk(kept, cfg, HandleA(cfg, c, pilot, available));
    var d := HandleB(cfg, BeforeB(cfg, c, pilot, available), pilot, available, after);
    SafeB(kept, cfg, BeforeB(cfg, c, pilot, available), pilot, available, after);
    SafeC1(kept, cfg, d, pilot);
    SafeActStart(kept, cfg, HandleC1(cfg, d, pilot));
    SafeCommCOk(kept, cfg, HandleActStart(cfg, HandleC1(cfg, d, pilot)));
    SafeC(kept, cfg, HandleCommCOk(cfg, HandleActStart(cfg, HandleC1(cfg, d, pilot))), pilot);
  }

  // ------------------------------------------------------------------ commands

  lemma SafePowerLost(kept: bool, cfg: Config, c: Control)
    requires Safe(kept, cfg.loadBl, c)
    ensures Safe(kept, cfg.loadBl, SetPowerUnavailable(cfg, c))
  {
    hide SetState;
  }

  lemma SafeAccess(kept: bool, cfg: Config, c: Control, access: Access)
    requires Safe(kept, cfg.loadBl, c) && (kept ==> !Withdrawn(c, Authorize(access)))
    ensures Safe(kept, cfg.loadBl, SetAccess(cfg, c, access))
  {
    hide SetState;
  }

  lemma SafeGranted(kept: bool, cfg: Config, c: Control)
    requires Safe(kept, cfg.loadBl, c)
    ensures Safe(kept, cfg.loadBl, Granted(cfg, c))
  {
    hide SetState;
  }

  lemma SafeCheckPhases(kept: bool, cfg: Config, c: Control)
    requires Safe(kept, cfg.loadBl, c)
    ensures Safe(kept, cfg.loadBl, CheckSwitchingPhases(cfg, c))
  {
    hide CheckSwitchingPhases;
  }

  // ------------------------------------------------------------------ the 1 s tick

  lemma SafeModemBegin(kept: bool, cfg: Config, c: Control)
    requires Safe(kept, cfg.loadBl, c)
    ensures Safe(kept, cfg.loadBl, TickModemRequest(cfg, c)) && Safe(kept, cfg.loadBl, TickModemWait(cfg, c))
  {
    hide SetState;
  }

  lemma SafeModemEnd(kept: bool, cfg: Config, c: Control)
    requires Safe(kept, cfg.loadBl, c)
    ensures Safe(kept, cfg.loadBl, TickModemDone(cfg, c)) && Safe(kept, cfg.loadBl, TickModemDenied(cfg, c))
  {
    hide SetState;
  }

  lemma SafeModem(kept: bool, cfg: Config, c: Control)
    requires Safe(kept, cfg.loadBl, c)
    ensures Safe(kept, cfg.loadBl, TickModem(cfg, c))
  {
    hide Safe, TickModemRequest, TickModemWait, TickModemDone, TickModemDenied;
    SafeModemBegin(kept, cfg, c);
    SafeModemBegin(kept, cfg, TickModemRequest(cfg, c));
    SafeModemEnd(kept, cfg, TickModemWait(cfg, TickModemRequest(cfg, c)));
    SafeModemEnd(kept, cfg, TickModemDone(cfg, TickModemWait(cfg, TickModemRequest(cfg, c))));
  }

  lemma SafeTickC1(kept: bool, cfg: Config, c: Control)
    requires Safe(kept, cfg.loadBl, c)
    ensures Safe(kept, cfg.loadBl, TickC1(cfg, c))
  {
    hide SetState;
  }

  lemma SafeSumMains(kept: bool, cfg: Config, c: Control)
    requires Safe(kept, cfg.loadBl, c)
    ensures Safe(kept, cfg.loadBl, TickSumMains(cfg, c))
  {
    hide SetState;
  }

  lemma SafeTickAccess(kept: bool, cfg: Config, c: Control)
    requires Safe(kept, cfg.loadBl, c)
    ensures Safe(kept, cfg.loadBl, TickAccess(cfg, c))
  {
    hide SetState;
  }

  lemma SafeTimers(kept: bool, cfg: Config, c: Control)
    requires Safe(kept, cfg.loadBl, c)
    ensures Safe(kept, cfg.loadBl, TickTimers(cfg, c))
  {
    var d := TickActivation(c);
    assert Safe(kept, cfg.loadBl, d);
    hide Safe, TickModem, TickC1, TickSumMains, TickAccess;
    SafeModem(kept, cfg, d);
    SafeTickC1(kept, cfg, TickModem(cfg, d));
    SafeSumMains(kept, cfg, TickC1(cfg, TickModem(cfg, d)));
    SafeTickAccess(kept, cfg, TickSumMains(cfg, TickC1(cfg, TickModem(cfg, d))));
  }

  /** An error that stops charging is raised together with the loss of power. */
  lemma SafeStop(kept: bool, cfg: Config, c: Control, errors: Errors)
    requires Safe(kept, cfg.loadBl, c)
    ensures Safe(kept, cfg.loadBl, SetPowerUnavailable(cfg, c.(errors := errors)))
  {
    hide SetState;
  }

  lemma SafeMainsMeter(kept: bool, cfg: Config, c: Control)
    requires Safe(kept, cfg.loadBl, c)
    ensures Safe(kept, cfg.loadBl, TickMainsMeter(cfg, c))
  {
    hide SetPowerUnavailable;
    SafeStop(kept, cfg, c, c.errors.(ctNoComm := true));
  }

  lemma SafeEvMeter(kept: bool, cfg: Config, c: Control)
    requires Safe(kept, cfg.loadBl, c)
    ensures Safe(kept, cfg.loadBl, TickEvMeter(cfg, c))
  {
    hide SetPowerUnavailable;
    SafeStop(kept, cfg, c, c.errors.(evNoComm := true));
  }

  lemma SafeRecovery(kept: bool, cfg: Config, c: Control, available: bool)
    requires Safe(kept, cfg.loadBl, c)
    ensures Safe(kept, cfg.loadBl, TickRecovery(cfg, c, available)) && Safe(kept, cfg.loadBl, TickMeterRecovery(c))
  {
  }

  lemma SafeChecks(kept: bool, cfg: Config, c: Control)
    requires Safe(kept, cfg.loadBl, c)
    ensures Safe(kept, cfg.loadBl, TickTemperature(cfg, c)) && Safe(kept, cfg.loadBl, TickLess6A(cfg, c))
  {
    hide SetPowerUnavailable;
    SafeStop(kept, cfg, c, c.errors.(tempHigh := true));
    SafePowerLost(kept, cfg, c);
  }

  lemma SafeErrors(kept: bool, cfg: Config, c: Control, available: bool)
    requires Safe(kept, cfg.loadBl, c)
    ensures Safe(kept, cfg.loadBl, TickErrors(cfg, c, available))
  {
    hide Safe, TickRecovery, TickMainsMeter, TickEvMeter, TickMeterRecovery, TickTemperature, TickLess6A;
    SafeRecovery(kept, cfg, c, available);
    var d := TickRecovery(cfg, c, available);
    SafeMainsMeter(kept, cfg, d);
    SafeEvMeter(kept, cfg, TickMainsMeter(cfg, d));
    var e := TickEvMeter(cfg, TickMainsMeter(cfg, d));
    SafeRecovery(kept, cfg, e, available);
    SafeChecks(kept, cfg, TickMeterRecovery(e));
    SafeChecks(kept, cfg, TickTemperature(cfg, TickMeterRecovery(e)));
  }

  // ------------------------------------------------------------------ every step

  lemma SafeStep(kept: bool, cfg: Config, c: Control, e: Event, cfg': Config, d: Control)
    requires Step(cfg, c, e, cfg', d) && Safe(kept, cfg.loadBl, c) && (kept ==> !Withdrawn(c, e))
    ensures Safe(kept, cfg'.loadBl, d)
  {
    hide Tick10ms, TickTimers, TickErrors, SetAccess, SetPowerUnavailable, CheckSwitchingPhases, Granted, Requesting;
    match e
    case Tick10(pilot, available) =>
      var after :|
        Balanced(Requesting(cfg, c, pilot, available), after) && d == Tick10ms(cfg, c, pilot, available, after);
      SafeTick10(kept, cfg, c, pilot, available, after);
    case Tick1(available) =>
      SafeTimers(kept, cfg, c);
      SafeErrors(kept, cfg, TickTimers(cfg, c), available);
    case Authorize(access) => SafeAccess(kept, cfg, c, access);
    case PowerLost => SafePowerLost(kept, cfg, c);
    case Balance =>
    case CheckPhases => SafeCheckPhases(kept, cfg, c);
    case Outside =>
    case MasterGrants => SafeGranted(kept, cfg, c);
  }

  /** What a caller relies on: the invariant is kept, with authorization too unless it is withdrawn
      while a request is pending. */
  ghost predicate Preserved(loadBl: nat, c: Control, e: Event, d: Control) {
    && (Safe(false, loadBl, c) ==> Safe(false, loadBl, d))
    && (Safe(true, loadBl, c) && !Withdrawn(c, e) ==> Safe(true, loadBl, d))
  }

  lemma StepPreserves(cfg: Config, c: Control, e: Event, d: Control)
    requires Step(cfg, c, e, cfg, d)
    ensures Preserved(cfg.loadBl, c, e, d)
  {
    hide Step, Safe, Withdrawn;
    if Safe(false, cfg.loadBl, c) {
      SafeStep(false, cfg, c, e, cfg, d);
    }
    if Safe(true, cfg.loadBl, c) && !Withdrawn(c, e) {
      SafeStep(true, cfg, c, e, cfg, d);
    }
  }
}
