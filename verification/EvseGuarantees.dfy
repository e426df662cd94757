/** What the driver, the installation and the car can rely on: when a charge starts, and what ends it. */
module EvseGuarantees {
  import opened EvseTypes
  import opened EvseControl
  import opened EvseSteps
  import opened EvseInvariant
  import opened EvseDiagram
  import EvseRegulation
  import EvseSeconds
  import EvseSteering
  import Runs = EvseRuns

  // ------------------------------------------------------------------ the start of a charge

  /** Everything but current is there: a connected car asks for it for more than 500 ms, its diode is
      known, no error stands, no delay runs, and it is authorized. */
  predicate Asks(c: Control, pilot: Pilot) {
    && c.state == B && pilot == V6 && (c.stateTimer + 1) % 256 > 50
    && c.diodeCheck && c.errors == Errors(false, false, false, false, false) && c.chargeDelay == 0 && c.access == On
  }

  /** A car can be connected but for current. */
  predicate Arrives(c: Control, pilot: Pilot) {
    && c.state in {A, B1} && !c.pilotDisconnected && pilot == V9
    && c.errors == Errors(false, false, false, false, false) && c.chargeDelay == 0 && c.access == On
  }

  lemma TickDrawn(cfg: Config, c: Control, pilot: Pilot, available: bool, cfg': Config, d: Control)
      returns (after: Control)
    requires Step(cfg, c, Tick10(pilot, available), cfg', d)
    ensures Drawn(cfg, c, pilot, available, after, d)
  {
    hide Tick10ms, Requesting, Balanced, Drawn;
    after :| Balanced(Requesting(cfg, c, pilot, available), after) && d == Tick10ms(cfg, c, pilot, available, after);
    TenMilliseconds(cfg, c, pilot, available, after);
  }

  /** A controller without a master starts a charge exactly when it is asked for and there is current for
      one more; without current it stays connected and reports LESS_6A. */
  lemma {:induction false} StartsExactly(cfg: Config, c: Control, pilot: Pilot, available: bool, cfg': Config,
                                          d: Control)
    requires Step(cfg, c, Tick10(pilot, available), cfg', d) && cfg.loadBl < 2
    requires Authorized(false, cfg.loadBl, c) && c.state != C
    ensures d.state == C <==> Asks(c, pilot) && available
    ensures Asks(c, pilot) && !available ==> d.state == B && d.errors.less6A
  {
    hide Step;
    var after := TickDrawn(cfg, c, pilot, available, cfg', d);
    hide Access10, Diode10;
  }

  /** The tick that begins a charge at this node is the one that apportions current to it. */
  lemma {:induction false} StartsIsEntry(cfg: Config, c: Control, pilot: Pilot, available: bool, after: Control)
    requires c.state in {B, CommC} && Balanced(Requesting(cfg, c, pilot, available), after)
    ensures Starts(cfg, c, pilot, available) <==> HandleB(cfg, c, pilot, available, after).state == C
    ensures Starts(cfg, c, pilot, available) && c.state == B ==> Asks(c, pilot) && available
  {
    hide CheckSwitchingPhases, EnterA, EnterC, Balanced, Requesting;
  }

  /** It connects a car exactly when it arrives and there is current for one more; without current it stays
      where it is and reports LESS_6A. */
  lemma {:induction false} ConnectsExactly(cfg: Config, c: Control, pilot: Pilot, available: bool, cfg': Config,
                                           d: Control)
    requires Step(cfg, c, Tick10(pilot, available), cfg', d) && cfg.loadBl < 2 && c.state in {A, B1}
    ensures d.state in {B, ModemRequest} <==> Arrives(c, pilot) && available
    ensures d.state == ModemRequest ==> cfg.modemEnabled && c.modemStage == 0
    ensures Arrives(c, pilot) && !available ==> d.state == c.state && d.errors.less6A
  {
    hide Step;
    var after := TickDrawn(cfg, c, pilot, available, cfg', d);
    hide Access10, Diode10;
  }

  /** Nothing but a 10 ms tick starts a charge. */
  lemma {:induction false} OnlyTickStarts(cfg: Config, c: Control, e: Event, cfg': Config, d: Control)
    requires Step(cfg, c, e, cfg', d) && c.state != C && d.state == C
    ensures e.Tick10?
  {
    hide TickOf10, Tick1s, SetState;
    match e
    case Tick10(pilot, available) =>
    case Tick1(available) => EvseSeconds.OneSecond(cfg, c, available);
    case _ =>
  }

  /** The ticks of a run are answered by what the nodes draw: `loads` is the survey of n nodes at each step. */
  ghost predicate Answered(r: Run, n: nat, loads: seq<EvseRegulation.Survey>) {
    && |r.settings| == |r.states| == |r.events| + 1 == |loads|
    && forall k :: 0 <= k < |r.events| && r.events[k].Tick10? ==>
         r.events[k].available
           == EvseRegulation.Available(r.settings[k], r.states[k].nrPhases, n, loads[k])
  }

  /** Over every run without a master above: a charge that begins was asked for, and one more node with the
      minimum current fitted under every limit. */
  lemma {:induction false} BeginsWithRoom(r: Run, n: nat, loads: seq<EvseRegulation.Survey>, k: nat)
    requires Follows(r) && Initial(r.states[0]) && r.settings[0].loadBl < 2 && Answered(r, n, loads)
    requires k < |r.events| && r.states[k].state != C && r.states[k + 1].state == C
    ensures r.events[k].Tick10? && Asks(r.states[k], r.events[k].pilot)
    ensures EvseSteering.RoomForOneMore(r.settings[k], r.states[k].nrPhases, n, loads[k])
  {
    hide Step, Initial, Asks, EvseRegulation.Available, Safe;
    Runs.SafeRun(false, r, k);
    assert StepAt(r, k);
    assert Authorized(false, r.settings[k].loadBl, r.states[k]) by {
      SafeAuthorized(r.settings[k].loadBl, r.states[k]);
    }
    var c, e, d := r.states[k], r.events[k], r.states[k + 1];
    OnlyTickStarts(r.settings[k], c, e, r.settings[k + 1], d);
    StartsExactly(r.settings[k], c, e.pilot, e.available, r.settings[k + 1], d);
    EvseSteering.AvailableMeans(r.settings[k], c.nrPhases, n, loads[k]);
  }

  lemma SafeAuthorized(loadBl: nat, c: Control)
    requires Safe(false, loadBl, c)
    ensures Authorized(false, loadBl, c)
  {
  }

  // ------------------------------------------------------------------ what ends a charge

  /** TEMP_HIGH stands after a one-second tick exactly if it is too hot, or was and is not yet 10 degrees
      cooler; and when it comes up no charge goes on. */
  lemma {:induction false} TemperatureExactly(cfg: Config, c: Control, available: bool, cfg': Config, d: Control)
    requires Step(cfg, c, Tick1(available), cfg', d)
    ensures d.errors.tempHigh
       <==> cfg.tempEvse > cfg.maxTemp || (c.errors.tempHigh && cfg.tempEvse >= cfg.maxTemp - 10)
    ensures cfg.tempEvse > cfg.maxTemp && !c.errors.tempHigh ==> d.state in {A, B1, C1}
  {
    EvseSeconds.OneSecond(cfg, c, available);
    hide Tick1s, EvseSeconds.AfterTimers;
  }

  /** The silence of a meter stands after a one-second tick exactly if it has lasted and lasts on; and when
      it is found no charge goes on. */
  lemma {:induction false} SilenceExactly(cfg: Config, c: Control, available: bool, cfg': Config, d: Control)
    requires Step(cfg, c, Tick1(available), cfg', d)
    ensures d.errors.ctNoComm
       <==> && (c.errors.ctNoComm || EvseSeconds.LosesMains(cfg, c))
            && c.mainsTimeout <= 1 && (cfg.loadBl >= 2 || cfg.mainsMeterType != 0)
    ensures d.errors.evNoComm
       <==> (c.errors.evNoComm || EvseSeconds.LosesEv(cfg, c)) && c.evTimeout <= 1 && cfg.evMeterType != 0
    ensures EvseSeconds.LosesMains(cfg, c) || EvseSeconds.LosesEv(cfg, c) ==> d.state in {A, B1, C1}
  {
    EvseSeconds.OneSecond(cfg, c, available);
    hide Tick1s, EvseSeconds.AfterTimers;
  }

  /** In smart mode, without a master above, the mains meter is silent. */
  predicate MainsSilent(cfg: Config, c: Control) {
    && cfg.mode == Smart && c.mainsTimeout == 0 && cfg.mainsMeterType != 0
    && (cfg.mainsMeterType != 9 || cfg.apiTimeout == 0)
  }

  predicate EvSilent(cfg: Config, c: Control) {
    cfg.mode == Smart && c.evTimeout == 0 && cfg.evMeterType != 0
  }

  /** Over every run without a master above: no one-second tick ends in a charge while it is too hot, or
      while a meter in use is silent. */
  lemma {:induction false} NoChargeInDanger(r: Run, k: nat)
    requires Follows(r) && Initial(r.states[0]) && r.settings[0].loadBl < 2
    requires k < |r.events| && r.events[k].Tick1?
    requires var cfg, c := r.settings[k], r.states[k];
             cfg.tempEvse > cfg.maxTemp || MainsSilent(cfg, c) || EvSilent(cfg, c)
    ensures r.states[k + 1].state != C
  {
    hide Initial, Permitted;
    assert StepAt(r, k);
    Runs.SafeRun(false, r, k);
    Runs.ChargesPermitted(r, k + 1);
    hide Follows;
    var cfg, c, d := r.settings[k], r.states[k], r.states[k + 1];
    TemperatureExactly(cfg, c, r.events[k].available, r.settings[k + 1], d);
    SilenceExactly(cfg, c, r.events[k].available, r.settings[k + 1], d);
    hide Step, Safe;
    assert Permitted(d) ==> !d.errors.tempHigh && !d.errors.ctNoComm && !d.errors.evNoComm by {
      PermittedMeans(d);
    }
  }

  lemma PermittedMeans(c: Control)
    ensures Permitted(c) ==> !c.errors.tempHigh && !c.errors.ctNoComm && !c.errors.evNoComm
  {
  }

  // ------------------------------------------------------------------ commands

  /** Withdrawn authorization ends a charge by way of C1 and a connection by way of B1, at once; only a
      request to a master and what follows from it go on. */
  lemma AuthorizationExactly(cfg: Config, c: Control, access: Access)
    ensures var d := SetAccess(cfg, c, access);
            && d.access == access
            && d.state == if access == On then c.state
                          else match c.state
                          case C => C1
                          case B | ModemRequest | ModemWait | ModemDone | ModemDenied => B1
                          case _ => c.state
  {
  }

  /** So does a loss of power, in every state with a car. */
  lemma PowerLossExactly(cfg: Config, c: Control)
    ensures SetPowerUnavailable(cfg, c).state
         == match c.state
            case A => A
            case C | C1 => C1
            case _ => B1
  {
  }

  // ------------------------------------------------------------------ phases

  /** A charge begins on one phase exactly if the second contactor is never used, or is used by choice and
      one phase is chosen: by a pending switch, or without one as before.  Then no switch is pending. */
  lemma ChargePhases(cfg: Config, c: Control)
    ensures var d := SetState(cfg, c, C);
            && d.nrPhases in {1, 3} && d.switching == NoSwitch && d.contactor1 && (d.contactor2 <==> d.nrPhases == 3)
            && (d.nrPhases == 1 <==>
                  cfg.enableC2 == AlwaysOff
                  || (cfg.enableC2 == Auto && (c.switching == To1P || (c.switching == NoSwitch && c.nrPhases == 1))))
  {
  }

  /** A check of the phases makes the next charge use what the setting says; with the second contactor by
      choice, three phases in smart mode, and what was chosen before in normal mode. */
  lemma CheckedPhases(cfg: Config, c: Control)
    requires c.nrPhases in {1, 3}
    ensures var d := SetState(cfg, CheckSwitchingPhases(cfg, c), C);
            match cfg.enableC2
            case AlwaysOff => d.nrPhases == 1
            case Auto => if cfg.mode == Smart then d.nrPhases == 3 else d.nrPhases == SetState(cfg, c, C).nrPhases
            case _ => d.nrPhases == 3
  {
  }

  /** The phases of the next charge by what is pending. */
  function NextPhases(c: Control): nat {
    match c.switching case To1P => 1 case To3P => 3 case NoSwitch => c.nrPhases
  }

  /** While a car is there a check leaves the phases in use and plans what the setting says; a switch is
      pending exactly if that differs from what is in use.  Without a car, what the setting says is in use
      at once. */
  lemma PlannedPhases(cfg: Config, c: Control)
    requires cfg.enableC2 == Auto ==> cfg.mode == Smart && c.state != A
    ensures var d, wanted := CheckSwitchingPhases(cfg, c), if cfg.enableC2 == AlwaysOff then 1 else 3;
            if c.state == A then d.nrPhases == wanted
            else && d.nrPhases == c.nrPhases && NextPhases(d) == wanted
                 && (d.switching != NoSwitch <==> NextPhases(d) != c.nrPhases)
  {
  }
}
