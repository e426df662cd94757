/** The one-second tick as a whole: where it leads, and which errors stand after it, written out from the
    state, the timers and the measurements before it. */
module EvseSeconds {
  import opened CArithmetic
  import opened EvseTypes
  import opened EvseControl

  // ------------------------------------------------------------------ the timers

  /** Where the dialogue with the modem leads. */
  function AfterModem(cfg: Config, c: Control): State {
    if !cfg.modemEnabled then c.state
    else
      match c.state
      case ModemRequest => if c.toModemWait == 0 then ModemWait else ModemRequest
      case ModemWait => if c.toModemDone == 0 then ModemDone else ModemWait
      case ModemDone => if c.leaveModemDone > 0 then ModemDone else if cfg.evccidAccepted then B else ModemDenied
      case ModemDenied => if c.leaveModemDenied == 0 then A else ModemDenied
      case _ => c.state
  }

  /** Where the timers lead: the end of the shutdown, and of the time above the limit on the sum of the
      mains. */
  function AfterTimers(cfg: Config, c: Control): State {
    var m := AfterModem(cfg, c);
    if m == C1 && c.c1Timer == 0 then B1 else if m == C && c.maxSumMainsTimer == 1 then C1 else m
  }

  /** Where a loss of power leads. */
  function WithoutPower(s: State): State {
    match s
    case A => A
    case C | C1 => C1
    case _ => B1
  }

  // ------------------------------------------------------------------ the errors

  /** The mains meter, or the master, has been silent for too long; a meter that is fed from outside may
      be silent while its values are fresh. */
  predicate LosesMains(cfg: Config, c: Control) {
    && c.mainsTimeout == 0 && !c.errors.ctNoComm
    && (cfg.loadBl > 1
        || (cfg.mainsMeterType != 0 && cfg.mode == Smart && (cfg.mainsMeterType != 9 || cfg.apiTimeout == 0)))
  }

  predicate LosesEv(cfg: Config, c: Control) {
    c.evTimeout == 0 && !c.errors.evNoComm && cfg.evMeterType != 0 && cfg.mode == Smart
  }

  function MainsTimeout(cfg: Config, c: Control): int {
    if cfg.loadBl < 2 && cfg.mainsMeterType == 0 then 11 else Max(0, c.mainsTimeout - 1)
  }

  function EvTimeout(cfg: Config, c: Control): int {
    if cfg.evMeterType == 0 then 64 else Max(0, c.evTimeout - 1)
  }

  /** A shortage stands until there is current for one more, unless the car leaves; the end of the time
      above the limit on the sum of the mains is one. */
  predicate ShortAfter(cfg: Config, c: Control, available: bool) {
    && (c.maxSumMainsTimer == 1 || (c.errors.less6A && (c.state == A || AfterModem(cfg, c) != A)))
    && !(cfg.loadBl < 2 && available)
  }

  /** Too hot: above the limit, or not yet 10 degrees below it. */
  predicate HotAfter(cfg: Config, c: Control) {
    cfg.tempEvse > cfg.maxTemp || (c.errors.tempHigh && cfg.tempEvse >= cfg.maxTemp - 10)
  }

  /** The errors after the tick. */
  function ErrorsAfter(cfg: Config, c: Control, available: bool): Errors {
    Errors(ShortAfter(cfg, c, available),
           (c.errors.ctNoComm || LosesMains(cfg, c)) && MainsTimeout(cfg, c) == 0,
           HotAfter(cfg, c),
           (c.errors.evNoComm || LosesEv(cfg, c)) && EvTimeout(cfg, c) == 0,
           c.errors.others)
  }

  /** What stops a charge. */
  predicate Stops(cfg: Config, c: Control, available: bool) {
    || LosesMains(cfg, c) || LosesEv(cfg, c)
    || (cfg.tempEvse > cfg.maxTemp && !c.errors.tempHigh)
    || ShortAfter(cfg, c, available)
  }

  /** The state after the tick. */
  function StateAfter(cfg: Config, c: Control, available: bool): State {
    if Stops(cfg, c, available) then WithoutPower(AfterTimers(cfg, c)) else AfterTimers(cfg, c)
  }

  // ------------------------------------------------------------------ the first half

  /** What no transition but that to A touches, apart from the state. */
  predicate Spared(c: Control, d: Control) {
    && d.errors == (if d.state == A && c.state != A then c.errors.(less6A := false) else c.errors)
    && d.mainsTimeout == c.mainsTimeout && d.evTimeout == c.evTimeout && d.maxSumMainsTimer == c.maxSumMainsTimer
  }

  lemma Moves(cfg: Config, c: Control, s: State)
    requires s != C && (s == A ==> c.state != A)
    ensures SetState(cfg, c, s).state == s && Spared(c, SetState(cfg, c, s))
  {
    hide EnterB1, CheckSwitchingPhases;
    assert EnterB1(c).mainsTimeout == c.mainsTimeout && EnterB1(c).evTimeout == c.evTimeout
        && EnterB1(c).maxSumMainsTimer == c.maxSumMainsTimer by {
      B1Keeps(c);
    }
  }

  lemma B1Keeps(c: Control)
    ensures EnterB1(c).mainsTimeout == c.mainsTimeout && EnterB1(c).evTimeout == c.evTimeout
    ensures EnterB1(c).maxSumMainsTimer == c.maxSumMainsTimer
  {
  }

  lemma ModemRequested(cfg: Config, c: Control)
    requires c.state == ModemRequest
    ensures var d := TickModemDenied(cfg, TickModemDone(cfg, TickModemWait(cfg, TickModemRequest(cfg, c))));
            d.state == (if c.toModemWait == 0 then ModemWait else ModemRequest) && Spared(c, d)
  {
    Moves(cfg, c, ModemWait);
    assert SetState(cfg, c, ModemWait).toModemDone == 60;
    hide SetState;
  }

  lemma ModemWaited(cfg: Config, c: Control)
    requires c.state == ModemWait
    ensures var d := TickModemDenied(cfg, TickModemDone(cfg, TickModemWait(cfg, TickModemRequest(cfg, c))));
            d.state == (if c.toModemDone == 0 then ModemDone else ModemWait) && Spared(c, d)
  {
    Moves(cfg, c, ModemDone);
    assert SetState(cfg, c, ModemDone).leaveModemDone == 5;
    hide SetState;
  }

  lemma ModemAnswered(cfg: Config, c: Control)
    requires c.state == ModemDone
    ensures var d := TickModemDenied(cfg, TickModemDone(cfg, TickModemWait(cfg, TickModemRequest(cfg, c))));
            && d.state == (if c.leaveModemDone > 0 then ModemDone else if cfg.evccidAccepted then B else ModemDenied)
            && Spared(c, d)
  {
    Moves(cfg, c.(modemStage := 1), B);
    var e := c.(modemStage := 0, leaveModemDenied := 60);
    Moves(cfg, e, ModemDenied);
    assert SetState(cfg, e, ModemDenied).leaveModemDenied == 60;
    hide SetState;
  }

  lemma ModemRefused(cfg: Config, c: Control)
    requires c.state == ModemDenied
    ensures var d := TickModemDenied(cfg, TickModemDone(cfg, TickModemWait(cfg, TickModemRequest(cfg, c))));
            d.state == (if c.leaveModemDenied == 0 then A else ModemDenied) && Spared(c, d)
  {
    Moves(cfg, c, A);
    hide SetState;
  }

  lemma Modem(cfg: Config, c: Control)
    ensures TickModem(cfg, c).state == AfterModem(cfg, c) && Spared(c, TickModem(cfg, c))
    ensures AfterModem(cfg, c) == C1 ==> TickModem(cfg, c) == c
  {
    hide SetState;
    if cfg.modemEnabled {
      match c.state
      case ModemRequest => ModemRequested(cfg, c);
      case ModemWait => ModemWaited(cfg, c);
      case ModemDone => ModemAnswered(cfg, c);
      case ModemDenied => ModemRefused(cfg, c);
      case _ => assert TickModem(cfg, c) == c;
    }
    hide TickModemRequest, TickModemWait, TickModemDone, TickModemDenied;
  }

  lemma ShutdownTimer(cfg: Config, c: Control)
    ensures var d := TickC1(cfg, c);
            && d.state == (if c.state == C1 && c.c1Timer == 0 then B1 else c.state) && Spared(c, d)
  {
    if c.state == C1 {
      Moves(cfg, c, B1);
    }
    hide SetState;
  }

  /** The time above the limit on the sum of the mains ends in a shortage. */
  lemma SumTimer(cfg: Config, c: Control)
    ensures var d := TickSumMains(cfg, c);
            && d.state == (if c.state == C && c.maxSumMainsTimer == 1 then C1 else c.state)
            && d.errors == (if c.maxSumMainsTimer == 1 then c.errors.(less6A := true) else c.errors)
            && d.mainsTimeout == c.mainsTimeout && d.evTimeout == c.evTimeout
  {
    var d := c.(pilotDisconnectTime := Down(c.pilotDisconnectTime), maxSumMainsTimer := Down(c.maxSumMainsTimer));
    Moves(cfg, d, C1);
    hide SetState;
  }

  lemma AccessTimer(cfg: Config, c: Control)
    ensures var d := TickAccess(cfg, c);
            && d.state == c.state && d.errors == c.errors
            && d.mainsTimeout == c.mainsTimeout && d.evTimeout == c.evTimeout
  {
    hide SetState;
  }

  lemma FirstHalf(cfg: Config, c: Control)
    ensures var d := TickTimers(cfg, c);
            && d.state == AfterTimers(cfg, c)
            && d.errors == c.errors.(less6A := c.maxSumMainsTimer == 1
                                               || (c.errors.less6A && (c.state == A || AfterModem(cfg, c) != A)))
            && d.mainsTimeout == c.mainsTimeout && d.evTimeout == c.evTimeout
  {
    var a := TickActivation(c);
    ActivationSpares(cfg, c);
    hide TickModem, TickC1, TickSumMains, TickAccess, TickActivation, AfterModem;
    var m := TickModem(cfg, a);
    Modem(cfg, a);
    ShutdownTimer(cfg, m);
    SumTimer(cfg, TickC1(cfg, m));
    AccessTimer(cfg, TickSumMains(cfg, TickC1(cfg, m)));
  }

  lemma ActivationSpares(cfg: Config, c: Control)
    ensures var a := TickActivation(c);
            && AfterModem(cfg, a) == AfterModem(cfg, c) && Spared(c, a) && a.state == c.state && a.c1Timer == c.c1Timer
  {
  }

  // ------------------------------------------------------------------ the second half

  lemma PowerLost(cfg: Config, c: Control)
    ensures var d := SetPowerUnavailable(cfg, c);
            && d.state == WithoutPower(c.state) && d.errors == c.errors
            && d.mainsTimeout == c.mainsTimeout && d.evTimeout == c.evTimeout
  {
    Moves(cfg, c, C1);
    Moves(cfg, c, B1);
    hide SetState;
  }

  lemma Recovery(cfg: Config, c: Control, available: bool)
    ensures var d := TickRecovery(cfg, c, available);
            d == c.(errors := c.errors.(tempHigh := c.errors.tempHigh && cfg.tempEvse >= cfg.maxTemp - 10,
                                        less6A := c.errors.less6A && !(cfg.loadBl < 2 && available)))
  {
  }

  lemma MainsMeter(cfg: Config, c: Control)
    ensures var d := TickMainsMeter(cfg, c);
            && d.state == (if LosesMains(cfg, c) then WithoutPower(c.state) else c.state)
            && d.errors == (if LosesMains(cfg, c) then c.errors.(ctNoComm := true) else c.errors)
            && d.mainsTimeout == MainsTimeout(cfg, c) && d.evTimeout == c.evTimeout
  {
    var lost := c.(errors := c.errors.(ctNoComm := true));
    PowerLost(cfg, lost);
    hide SetPowerUnavailable, WithoutPower;
    if LosesMains(cfg, c) {
      assert TickMainsMeter(cfg, c) == SetPowerUnavailable(cfg, lost);
      hide TickMainsMeter;
    } else {
      assert TickMainsMeter(cfg, c) == c.(mainsTimeout := MainsTimeout(cfg, c));
      hide TickMainsMeter;
    }
  }

  lemma EvMeter(cfg: Config, c: Control)
    ensures var d := TickEvMeter(cfg, c);
            && d.state == (if LosesEv(cfg, c) then WithoutPower(c.state) else c.state)
            && d.errors == (if LosesEv(cfg, c) then c.errors.(evNoComm := true) else c.errors)
            && d.evTimeout == EvTimeout(cfg, c) && d.mainsTimeout == c.mainsTimeout
  {
    PowerLost(cfg, c.(errors := c.errors.(evNoComm := true)));
    hide SetPowerUnavailable, WithoutPower;
  }

  lemma Temperature(cfg: Config, c: Control)
    ensures var d, hot := TickTemperature(cfg, c), cfg.tempEvse > cfg.maxTemp && !c.errors.tempHigh;
            && d.state == (if hot then WithoutPower(c.state) else c.state)
            && d.errors == (if hot then c.errors.(tempHigh := true) else c.errors)
  {
    PowerLost(cfg, c.(errors := c.errors.(tempHigh := true)));
    hide SetPowerUnavailable, WithoutPower;
  }

  lemma Less6A(cfg: Config, c: Control)
    ensures var d := TickLess6A(cfg, c);
            d.errors == c.errors && d.state == if c.errors.less6A then WithoutPower(c.state) else c.state
  {
    PowerLost(cfg, c);
    hide SetPowerUnavailable, WithoutPower;
  }

  /** A second loss of power changes nothing. */
  lemma WithoutPowerTwice(s: State)
    ensures WithoutPower(WithoutPower(s)) == WithoutPower(s)
  {
  }

  /** The two handlers of the meters. */
  lemma {:induction false} MetersRaise(cfg: Config, r: Control)
    ensures var v := TickEvMeter(cfg, TickMainsMeter(cfg, r));
            && v.errors == r.errors.(ctNoComm := r.errors.ctNoComm || LosesMains(cfg, r),
                                     evNoComm := r.errors.evNoComm || LosesEv(cfg, r))
            && v.mainsTimeout == MainsTimeout(cfg, r) && v.evTimeout == EvTimeout(cfg, r)
            && v.state == if LosesMains(cfg, r) || LosesEv(cfg, r) then WithoutPower(r.state) else r.state
  {
    hide TickMainsMeter, TickEvMeter, LosesMains, LosesEv, MainsTimeout, EvTimeout, WithoutPower;
    var m := TickMainsMeter(cfg, r);
    MainsMeter(cfg, r);
    EvMeter(cfg, m);
    SameEv(cfg, m, r);
    WithoutPowerTwice(r.state);
  }

  /** The handlers of the meters, and what clears by itself. */
  lemma {:induction false} Meters(cfg: Config, t: Control, available: bool)
    ensures var n := TickMeterRecovery(TickEvMeter(cfg, TickMainsMeter(cfg, TickRecovery(cfg, t, available))));
            && n.errors == Errors(t.errors.less6A && !(cfg.loadBl < 2 && available),
                                  (t.errors.ctNoComm || LosesMains(cfg, t)) && MainsTimeout(cfg, t) == 0,
                                  t.errors.tempHigh && cfg.tempEvse >= cfg.maxTemp - 10,
                                  (t.errors.evNoComm || LosesEv(cfg, t)) && EvTimeout(cfg, t) == 0,
                                  t.errors.others)
            && n.state == if LosesMains(cfg, t) || LosesEv(cfg, t) then WithoutPower(t.state) else t.state
  {
    hide TickRecovery, TickMainsMeter, TickEvMeter, LosesMains, LosesEv, MainsTimeout, EvTimeout, WithoutPower;
    var r := TickRecovery(cfg, t, available);
    Recovery(cfg, t, available);
    MetersRaise(cfg, r);
    SameMains(cfg, r, t);
    SameEv(cfg, r, t);
  }

  lemma SameMains(cfg: Config, a: Control, b: Control)
    requires a.mainsTimeout == b.mainsTimeout && a.errors.ctNoComm == b.errors.ctNoComm
    ensures LosesMains(cfg, a) == LosesMains(cfg, b) && MainsTimeout(cfg, a) == MainsTimeout(cfg, b)
  {
  }

  lemma SameEv(cfg: Config, a: Control, b: Control)
    requires a.evTimeout == b.evTimeout && a.errors.evNoComm == b.errors.evNoComm
    ensures LosesEv(cfg, a) == LosesEv(cfg, b) && EvTimeout(cfg, a) == EvTimeout(cfg, b)
  {
  }

  /** The second half, from the state t. */
  lemma {:induction false} SecondHalf(cfg: Config, t: Control, available: bool)
    ensures var d, ends := TickErrors(cfg, t, available), t.errors.less6A && !(cfg.loadBl < 2 && available);
            && d.errors == Errors(ends,
                                  (t.errors.ctNoComm || LosesMains(cfg, t)) && MainsTimeout(cfg, t) == 0,
                                  HotAfter(cfg, t),
                                  (t.errors.evNoComm || LosesEv(cfg, t)) && EvTimeout(cfg, t) == 0,
                                  t.errors.others)
            && d.state == (if LosesMains(cfg, t) || LosesEv(cfg, t)
                              || (cfg.tempEvse > cfg.maxTemp && !t.errors.tempHigh) || ends
                           then WithoutPower(t.state) else t.state)
  {
    Meters(cfg, t, available);
    var n := TickMeterRecovery(TickEvMeter(cfg, TickMainsMeter(cfg, TickRecovery(cfg, t, available))));
    hide TickRecovery, TickMainsMeter, TickEvMeter, TickMeterRecovery, LosesMains, LosesEv, MainsTimeout, EvTimeout;
    Temperature(cfg, n);
    Less6A(cfg, TickTemperature(cfg, n));
    hide TickTemperature, TickLess6A;
    WithoutPowerTwice(t.state);
    hide WithoutPower;
  }

  /** The whole one-second tick. */
  lemma {:induction false} OneSecond(cfg: Config, c: Control, available: bool)
    ensures Tick1s(cfg, c, available).state == StateAfter(cfg, c, available)
    ensures Tick1s(cfg, c, available).errors == ErrorsAfter(cfg, c, available)
  {
    var t := TickTimers(cfg, c);
    FirstHalf(cfg, c);
    SecondHalf(cfg, t, available);
    hide TickTimers, TickErrors, AfterTimers, AfterModem, WithoutPower, LosesMains, LosesEv, MainsTimeout, EvTimeout;
    SameMains(cfg, t, c);
    SameEv(cfg, t, c);
  }
}
