/** The steps of a controller and its runs: ticks, commands, the meters and settings changing
    outside, and the answers of the master. */
module EvseSteps {
  import opened EvseTypes
  import opened EvseControl

  datatype Event =
    | Tick10(pilot: Pilot, available: bool)    // with the answer of evse_is_current_available
    | Tick1(available: bool)
    | Authorize(access: Access)
    | PowerLost
    | Balance
    | CheckPhases
    | Outside            // new settings or measurements
    | MasterGrants       // the master answers a request of this node

  /** What evse_calc_balanced_current may do to the control state. */
  ghost predicate Balanced(c: Control, d: Control) {
    && d == c.(errors := d.errors, noCurrent := d.noCurrent,
               maxSumMainsTimer := d.maxSumMainsTimer, switching := d.switching)
    && d.errors == c.errors.(less6A := d.errors.less6A) && (c.errors.less6A ==> d.errors.less6A)
  }

  /** The state in which evse_calc_balanced_current is called during a 10 ms tick. */
  function Requesting(cfg: Config, c: Control, pilot: Pilot, available: bool): Control {
    Counted(BeforeB(cfg, c, pilot, available))
  }

  ghost predicate TickOf10(cfg: Config, c: Control, pilot: Pilot, available: bool, d: Control) {
    exists after ::
      Balanced(Requesting(cfg, c, pilot, available), after) && d == Tick10ms(cfg, c, pilot, available, after)
  }

  /** The rest of the firmware changes settings, readings, the meters' timeouts and the modem's
      counter; it raises and clears errors, but raises a loss of the mains meter only in the tick. */
  ghost predicate Changed(c: Control, d: Control) {
    && d == c.(mainsTimeout := d.mainsTimeout, evTimeout := d.evTimeout,
               disconnectCounter := d.disconnectCounter, errors := d.errors)
    && d.errors == c.errors.(less6A := d.errors.less6A, ctNoComm := d.errors.ctNoComm, others := d.errors.others)
    && (d.errors.ctNoComm ==> c.errors.ctNoComm)
  }

  function Granted(cfg: Config, c: Control): Control {
    if c.state == CommB then SetState(cfg, c, CommBOk)
    else if c.state == CommC then SetState(cfg, c, CommCOk)
    else c
  }

  /** One step of the controller's control state under any circumstances. */
  ghost predicate Step(cfg: Config, c: Control, e: Event, cfg': Config, d: Control) {
    && cfg'.loadBl == cfg.loadBl && (e != Outside ==> cfg' == cfg)
    && match e
       case Tick10(pilot, available) => TickOf10(cfg, c, pilot, available, d)
       case Tick1(available) => d == Tick1s(cfg, c, available)
       case Authorize(access) => d == SetAccess(cfg, c, access)
       case PowerLost => d == SetPowerUnavailable(cfg, c)
       case Balance => Balanced(c, d)
       case CheckPhases => d == CheckSwitchingPhases(cfg, c)
       case Outside => Changed(c, d)
       case MasterGrants => d == Granted(cfg, c)
  }

  /** A run: one more settings and state than events. */
  datatype Run = Run(settings: seq<Config>, states: seq<Control>, events: seq<Event>)

  ghost predicate Follows(r: Run) {
    && |r.settings| == |r.states| == |r.events| + 1
    && forall k :: 0 <= k < |r.events| ==> StepAt(r, k)
  }

  ghost predicate StepAt(r: Run, k: nat)
    requires |r.settings| == |r.states| == |r.events| + 1 && k < |r.events|
  {
    Step(r.settings[k], r.states[k], r.events[k], r.settings[k + 1], r.states[k + 1])
  }

  ghost function Last(r: Run): Control
    requires |r.states| > 0
  {
    r.states[|r.states| - 1]
  }

  ghost function Then(r: Run, e: Event, cfg: Config, c: Control): Run {
    Run(r.settings + [cfg], r.states + [c], r.events + [e])
  }

  /** Whoever makes one more step, as every public method of the controller does, extends the run. */
  lemma {:induction false} RunExtends(r: Run, e: Event, cfg: Config, c: Control)
    requires Follows(r) && Step(r.settings[|r.events|], Last(r), e, cfg, c)
    ensures Follows(Then(r, e, cfg, c)) && Last(Then(r, e, cfg, c)) == c
  {
    hide Step;
    var t := Then(r, e, cfg, c);
    forall k: nat | k < |t.events|
      ensures StepAt(t, k)
    {
      if k < |r.events| {
        assert StepAt(r, k);
      }
    }
  }

  /** evse_init, with the settings still open: the car is unplugged, both contactors are open. */
  ghost predicate Initial(c: Control) {
    && c.state == A && c.access == Off && NoError(c.errors) && c.chargeDelay == 0 && c.c1Timer == 0
    && !c.diodeCheck && !c.contactor1 && !c.contactor2
    && c.stateTimer == 0 && !c.pilotDisconnected && c.activationMode == DISABLED
  }
}
