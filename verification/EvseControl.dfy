/** The charging state machine: what each operation of the controller does to its control state.
    Lines and names are those of evse_state_machine.c. */
module EvseControl {
  import opened Options
  import opened CArithmetic
  import opened EvseTypes

  const CHARGE_DELAY := 60
  const RFID_LOCK_TIME := 60
  const COMM_TIMEOUT := 11
  const COMM_EV_TIMEOUT := 64
  const API_METER := 9
  const NO_LIMIT := 0x7fff
  const DISABLED := 255

  /** Settings and measurements: written only from outside.  Currents of meters are in tenths of
      an ampere, settings in amperes. */
  datatype Config = Config(
    mode: Mode, loadBl: nat, fixedCable: bool, rfidReader: nat, ocppLimit: Option<nat>,
    maxMains: nat, maxCurrent: nat, minCurrent: nat, maxCircuit: nat, maxCapacity: nat,
    maxCircuitMains: nat, circuitMeasured: int,
    maxSumMains: nat, maxSumMainsTime: nat, gridRelayMax: nat, gridRelayOpen: bool, overrideCurrent: nat,
    isum: int, mainsMeasured: int, evMeasured: int, mainsMeterType: nat, evMeterType: nat, apiTimeout: nat,
    noCurrentThreshold: nat, enableC2: EnableC2, capacityHeadroom: int,
    modemEnabled: bool, evccidAccepted: bool,
    settlingWindow: nat, maxRampRate: nat, emaAlpha: nat, deadBand: nat, rampDivisor: nat, boostMax: nat,
    idiffWeight: nat, tempEvse: int, maxTemp: int,
    strategy: Strategy, rotationInterval: nat, idleTimeout: nat)

  /** ErrorFlags, bit by bit; `others` stands for the flags that this module only reads. */
  datatype Errors = Errors(less6A: bool, ctNoComm: bool, tempHigh: bool, evNoComm: bool, others: bool)

  predicate NoError(e: Errors) {
    !e.less6A && !e.ctNoComm && !e.tempHigh && !e.evNoComm && !e.others
  }

  /** The control state, with the two contactors as they were last commanded. */
  datatype Control = Control(
    state: State, access: Access, errors: Errors,
    chargeDelay: nat, noCurrent: nat, maxSumMainsTimer: nat, stateTimer: nat, accessTimer: nat, c1Timer: nat,
    nrPhases: nat, switching: PhaseSwitch,
    modemStage: nat, toModemWait: nat, toModemDone: nat, leaveModemDone: nat, leaveModemDenied: nat,
    disconnectCounter: int,
    diodeCheck: bool, pilotDisconnected: bool, pilotDisconnectTime: nat,
    activationMode: nat, activationTimer: nat,
    mainsTimeout: nat, evTimeout: nat,
    contactor1: bool, contactor2: bool)

  // ------------------------------------------------------------------ phases

  predicate ForceSinglePhase(cfg: Config, nrPhases: nat) {
    match cfg.enableC2
    case NotPresent => false
    case AlwaysOff => true
    case Reserved => false
    case Auto => nrPhases == 1
    case AlwaysOn => false
  }

  /** check_switching_phases. */
  function CheckSwitchingPhases(cfg: Config, c: Control): (d: Control)
    ensures d == c.(switching := d.switching, nrPhases := d.nrPhases)
    ensures c.state != A ==> d.nrPhases == c.nrPhases
  {
    if cfg.enableC2 != Auto then
      var wanted := if ForceSinglePhase(cfg, c.nrPhases) then 1 else 3;
      if c.nrPhases == wanted then c.(switching := NoSwitch)
      else if c.state != A then c.(switching := if wanted == 1 then To1P else To3P)
      else c.(nrPhases := wanted)
    else if cfg.mode == Smart then
      c.(switching := if c.nrPhases != 3 then To3P else NoSwitch)
    else c
  }

  // ------------------------------------------------------------------ transitions

  function EnterA(cfg: Config, c: Control): Control {
    var left := c.state == C || c.state == C1 || c.state == B || c.state == B1;
    c.(modemStage := 0,
       disconnectCounter := if cfg.modemEnabled && c.disconnectCounter == -1 then 0 else c.disconnectCounter,
       errors := c.errors.(less6A := false),
       chargeDelay := 0,
       access := if left then Off else c.access,
       accessTimer := if left then 0 else c.accessTimer,
       contactor1 := false, contactor2 := false)
  }

  function EnterB1(c: Control): Control {
    var float := c.state != B1 && !c.pilotDisconnected && c.access == On;
    c.(chargeDelay := if c.chargeDelay == 0 then 3 else c.chargeDelay,
       pilotDisconnected := c.pilotDisconnected || float,
       pilotDisconnectTime := if float then 5 else c.pilotDisconnectTime,
       contactor1 := false, contactor2 := false)
  }

  function EnterB(cfg: Config, c: Control): Control {
    var d := CheckSwitchingPhases(cfg, c);
    d.(disconnectCounter := if cfg.modemEnabled then -1 else d.disconnectCounter,
       contactor1 := false, contactor2 := false)
  }

  function EnterC(cfg: Config, c: Control): Control {
    var phases := match c.switching case To1P => 1 case To3P => 3 case NoSwitch => c.nrPhases;
    var single := ForceSinglePhase(cfg, phases);
    c.(activationMode := DISABLED,
       nrPhases := if single then 1 else 3,
       contactor1 := true, contactor2 := !single,
       maxSumMainsTimer := 0,
       switching := NoSwitch)
  }

  /** evse_set_state. */
  function SetState(cfg: Config, c: Control, s: State): (d: Control)
    ensures d.state == s && d.diodeCheck == c.diodeCheck
    ensures d.c1Timer == if s == C1 then 6 else c.c1Timer
    ensures d.errors == if s == A then c.errors.(less6A := false) else c.errors
    ensures d.access == c.access || (s == A && d.access == Off)
    ensures s == B1 ==> d.chargeDelay == if c.chargeDelay == 0 then 3 else c.chargeDelay
    ensures s in {A, B, B1, ModemRequest} ==> !d.contactor1 && !d.contactor2
    ensures s == C ==> d.contactor1 && (d.contactor2 <==> d.nrPhases == 3)
    ensures s !in {A, B, B1, ModemRequest, C} ==> d.contactor1 == c.contactor1 && d.contactor2 == c.contactor2
  {
    var d :=
      match s
      case B1 => EnterB1(c)
      case A => EnterA(cfg, c)
      case ModemRequest => c.(toModemWait := 0, disconnectCounter := -1, contactor1 := false, contactor2 := false)
      case ModemWait => c.(toModemDone := 60)
      case ModemDone => c.(disconnectCounter := -1, leaveModemDone := 5)
      case B => EnterB(cfg, c)
      case C => EnterC(cfg, c)
      case C1 => c.(c1Timer := 6, chargeDelay := 15)
      case _ => c;
    d.(state := s)
  }

  /** evse_set_power_unavailable. */
  function SetPowerUnavailable(cfg: Config, c: Control): Control {
    if c.state == A then c
    else if c.state == C then SetState(cfg, c, C1)
    else if c.state != C1 && c.state != B1 then SetState(cfg, c, B1)
    else c
  }

  /** evse_set_access. */
  function SetAccess(cfg: Config, c: Control, access: Access): Control {
    var d := c.(access := access);
    if access == On then d
    else if d.state == C then SetState(cfg, d, C1)
    else if d.state in {B, ModemRequest, ModemWait, ModemDone, ModemDenied} then SetState(cfg, d, B1)
    else d
  }

  // ------------------------------------------------------------------ the 10 ms tick

  /** Lines 1211-1213: everything allows the move from A or B1 to B. */
  predicate MayConnect(c: Control, pilot: Pilot) {
    c.state in {A, B1} && !c.pilotDisconnected && pilot == V9
    && NoError(c.errors) && c.chargeDelay == 0 && c.access == On
  }

  /** Lines 1203-1210. */
  function Unplugged(cfg: Config, c: Control): Control {
    var d := if (cfg.rfidReader == 2 || cfg.rfidReader == 1) && c.accessTimer == 0 && c.access == On
             then c.(accessTimer := RFID_LOCK_TIME) else c;
    (if d.state != A then SetState(cfg, d, A) else d).(chargeDelay := 0)
  }

  /** Lines 1214-1242; `available` is the answer of evse_is_current_available. */
  function PluggedIn(cfg: Config, c: Control, available: bool): Control {
    var d := c.(diodeCheck := false);
    if cfg.loadBl > 1 then SetState(cfg, d, CommB)
    else if available then
      SetState(cfg, d, if cfg.modemEnabled && d.modemStage == 0 then ModemRequest else B)
        .(activationMode := 30, accessTimer := 0)
    else d.(errors := d.errors.(less6A := true))
  }

  /** Lines 1194-1248. */
  function HandleA(cfg: Config, c: Control, pilot: Pilot, available: bool): Control {
    if !(c.state in {A, CommB, B1}) then c
    else if c.pilotDisconnected then
      if c.pilotDisconnectTime == 0 then c.(pilotDisconnected := false) else c
    else if pilot == V12 then Unplugged(cfg, c)
    else if MayConnect(c, pilot) then PluggedIn(cfg, c, available)
    else if pilot == V9 && c.state == A && c.access == On then SetState(cfg, c, B1)
    else c
  }

  function HandleCommBOk(cfg: Config, c: Control): Control {
    if c.state != CommBOk then c
    else SetState(cfg, c, B).(activationMode := 30, accessTimer := 0)
  }

  /** Lines 1263-1267: the debounced request for current is granted. */
  predicate MayCharge(c: Control, pilot: Pilot) {
    c.state in {B, CommC} && pilot == V6 && ToUint8(c.stateTimer + 1) > 50
    && c.diodeCheck && NoError(c.errors) && c.chargeDelay == 0 && c.access == On
  }

  /** One more reading of the debounce. */
  function Counted(c: Control): Control { c.(stateTimer := ToUint8(c.stateTimer + 1)) }

  /** The charge begins: lines 1275-1280. */
  predicate Starts(cfg: Config, c: Control, pilot: Pilot, available: bool) {
    MayCharge(c, pilot) && cfg.loadBl <= 1 && available
  }

  /** Lines 1258-1300; `after` is what evse_calc_balanced_current makes of the control state. */
  function HandleB(cfg: Config, c: Control, pilot: Pilot, available: bool, after: Control): Control {
    if !(c.state in {B, CommC}) then c
    else if pilot == V12 then SetState(cfg, c, A)
    else if pilot == V6 then
      var d := Counted(c);
      if !MayCharge(c, pilot) then d
      else if cfg.loadBl > 1 then if d.state != CommC then SetState(cfg, d, CommC) else d
      else if available then SetState(cfg, after.(diodeCheck := false), C)
      else d.(errors := d.errors.(less6A := true))
    else if pilot == V9 then
      var d := c.(stateTimer := 0);
      if d.activationMode == 0 then SetState(cfg, d, ActStart).(activationTimer := 3) else d
    else if pilot == Diode then c.(diodeCheck := true)
    else c
  }

  function HandleC1(cfg: Config, c: Control, pilot: Pilot): Control {
    if c.state != C1 then c
    else if pilot == V12 then SetState(cfg, c, A)
    else if pilot == V9 then SetState(cfg, c, B1)
    else c
  }

  function HandleActStart(cfg: Config, c: Control): Control {
    if c.state == ActStart && c.activationTimer == 0 then SetState(cfg, c, B).(activationMode := DISABLED) else c
  }

  function HandleCommCOk(cfg: Config, c: Control): Control {
    if c.state == CommCOk then SetState(cfg, c.(diodeCheck := false), C) else c
  }

  function HandleC(cfg: Config, c: Control, pilot: Pilot): Control {
    if c.state != C then c
    else if pilot == V12 then SetState(cfg, c, A)
    else if pilot == V9 then SetState(cfg, c, B).(diodeCheck := false)
    else if pilot == Short then
      var timer := ToUint8(c.stateTimer + 1);
      if timer > 50 then SetState(cfg, c.(stateTimer := 0), B).(diodeCheck := false)
      else c.(stateTimer := timer)
    else c.(stateTimer := 0)
  }

  /** The handlers before the one that may start charging. */
  function BeforeB(cfg: Config, c: Control, pilot: Pilot, available: bool): Control {
    HandleCommBOk(cfg, HandleA(cfg, c, pilot, available))
  }

  /** The handlers after it. */
  function AfterB(cfg: Config, c: Control, pilot: Pilot): Control {
    HandleC(cfg, HandleCommCOk(cfg, HandleActStart(cfg, HandleC1(cfg, c, pilot))), pilot)
  }

  /** evse_tick_10ms. */
  function Tick10ms(cfg: Config, c: Control, pilot: Pilot, available: bool, after: Control): Control {
    AfterB(cfg, HandleB(cfg, BeforeB(cfg, c, pilot, available), pilot, available, after), pilot)
  }

  // ------------------------------------------------------------------ the 1 s tick

  function Down(timer: nat): nat { if timer > 0 then timer - 1 else 0 }

  /** Lines 1351-1356. */
  function TickActivation(c: Control): Control {
    c.(activationMode := if c.activationMode != DISABLED then Down(c.activationMode) else c.activationMode,
       activationTimer := Down(c.activationTimer))
  }

  /** Lines 1359-1399: a state entered by one step is handled by the next. */
  function TickModemRequest(cfg: Config, c: Control): Control {
    if c.state != ModemRequest then c
    else if c.toModemWait > 0 then c.(toModemWait := c.toModemWait - 1)
    else SetState(cfg, c, ModemWait)
  }

  function TickModemWait(cfg: Config, c: Control): Control {
    if c.state != ModemWait then c
    else if c.toModemDone > 0 then c.(toModemDone := c.toModemDone - 1)
    else SetState(cfg, c, ModemDone)
  }

  function TickModemDone(cfg: Config, c: Control): Control {
    if c.state != ModemDone then c
    else if c.leaveModemDone > 0 then c.(leaveModemDone := c.leaveModemDone - 1)
    else if cfg.evccidAccepted then SetState(cfg, c.(modemStage := 1), B)
    else SetState(cfg, c.(modemStage := 0, leaveModemDenied := 60), ModemDenied)
  }

  function TickModemDenied(cfg: Config, c: Control): Control {
    if c.state != ModemDenied then c
    else if c.leaveModemDenied > 0 then c.(leaveModemDenied := c.leaveModemDenied - 1)
    else SetState(cfg, c, A)
  }

  function TickModem(cfg: Config, c: Control): Control {
    if !cfg.modemEnabled then c
    else TickModemDenied(cfg, TickModemDone(cfg, TickModemWait(cfg, TickModemRequest(cfg, c))))
  }

  /** Lines 1407-1413. */
  function TickC1(cfg: Config, c: Control): Control {
    if c.state != C1 then c
    else if c.c1Timer > 0 then c.(c1Timer := c.c1Timer - 1)
    else SetState(cfg, c, B1)
  }

  /** Lines 1423-1444: the pilot and the time limit on the sum of the mains. */
  function TickSumMains(cfg: Config, c: Control): Control {
    var d := c.(pilotDisconnectTime := Down(c.pilotDisconnectTime), maxSumMainsTimer := Down(c.maxSumMainsTimer));
    if c.maxSumMainsTimer == 1 then
      var e := if d.state == C then SetState(cfg, d, C1) else d;
      e.(errors := e.errors.(less6A := true))
    else d
  }

  /** Lines 1447-1457. */
  function TickAccess(cfg: Config, c: Control): Control {
    var d := c.(chargeDelay := Down(c.chargeDelay));
    if d.accessTimer > 0 && d.state == A then
      var e := d.(accessTimer := d.accessTimer - 1);
      if e.accessTimer == 0 then SetAccess(cfg, e, Off) else e
    else if d.state != A then d.(accessTimer := 0)
    else d
  }

  /** Lines 1460-1467: errors that clear by themselves. */
  function TickRecovery(cfg: Config, c: Control, available: bool): Control {
    var d := if cfg.tempEvse < cfg.maxTemp - 10 then c.(errors := c.errors.(tempHigh := false)) else c;
    if d.errors.less6A && cfg.loadBl < 2 && available then d.(errors := d.errors.(less6A := false)) else d
  }

  function LoseMains(cfg: Config, c: Control): Control {
    SetPowerUnavailable(cfg, c.(errors := c.errors.(ctNoComm := true)))
  }

  /** Lines 1470-1492. */
  function TickMainsMeter(cfg: Config, c: Control): Control {
    if cfg.mainsMeterType != 0 && cfg.loadBl < 2 then
      if c.mainsTimeout == 0 && !c.errors.ctNoComm && cfg.mode != Normal then
        if cfg.mainsMeterType == API_METER && cfg.apiTimeout > 0 then c else LoseMains(cfg, c)
      else c.(mainsTimeout := Down(c.mainsTimeout))
    else if cfg.loadBl > 1 then
      if c.mainsTimeout == 0 && !c.errors.ctNoComm then LoseMains(cfg, c)
      else c.(mainsTimeout := Down(c.mainsTimeout))
    else c.(mainsTimeout := COMM_TIMEOUT)
  }

  /** Lines 1495-1504. */
  function TickEvMeter(cfg: Config, c: Control): Control {
    if cfg.evMeterType != 0 then
      if c.evTimeout == 0 && !c.errors.evNoComm && cfg.mode != Normal then
        SetPowerUnavailable(cfg, c.(errors := c.errors.(evNoComm := true)))
      else c.(evTimeout := Down(c.evTimeout))
    else c.(evTimeout := COMM_EV_TIMEOUT)
  }

  /** Lines 1507-1515. */
  function TickMeterRecovery(c: Control): Control {
    c.(errors := c.errors.(ctNoComm := c.errors.ctNoComm && c.mainsTimeout == 0,
                           evNoComm := c.errors.evNoComm && c.evTimeout == 0))
  }

  /** Lines 1543-1552. */
  function TickTemperature(cfg: Config, c: Control): Control {
    if cfg.tempEvse > cfg.maxTemp && !c.errors.tempHigh then
      SetPowerUnavailable(cfg, c.(errors := c.errors.(tempHigh := true)))
    else c
  }

  function TickLess6A(cfg: Config, c: Control): Control {
    if c.errors.less6A then SetPowerUnavailable(cfg, c).(chargeDelay := CHARGE_DELAY) else c
  }

  /** The first half of the tick, up to the question whether current is available. */
  function TickTimers(cfg: Config, c: Control): Control {
    TickAccess(cfg, TickSumMains(cfg, TickC1(cfg, TickModem(cfg, TickActivation(c)))))
  }

  /** The second half. */
  function TickErrors(cfg: Config, c: Control, available: bool): Control {
    TickLess6A(cfg, TickTemperature(cfg, TickMeterRecovery(
      TickEvMeter(cfg, TickMainsMeter(cfg, TickRecovery(cfg, c, available))))))
  }

  /** evse_tick_1s without the scheduler tick; `available` is the answer of
      evse_is_current_available at the time it is asked. */
  function Tick1s(cfg: Config, c: Control, available: bool): Control {
    TickErrors(cfg, TickTimers(cfg, c), available)
  }
}
