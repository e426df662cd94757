/** Every countdown of the controller over a whole one-second tick. */
module EvseCountdowns {
  import opened CArithmetic
  import opened EvseTypes
  import opened EvseControl
  import opened EvseSeconds
  import opened EvseTimers

  function Less(timer: int): int { Max(0, timer - 1) }

  // ------------------------------------------------------------------ the first half

  /** The dialogue with the modem: a countdown that a step starts is counted by the next step. */
  function Dialogue(cfg: Config, s: State, k: Clocks): Clocks {
    if !cfg.modemEnabled then k
    else
      match s
      case ModemRequest => if k.request == 0 then k.(answer := 59) else k.(request := k.request - 1)
      case ModemWait => if k.answer == 0 then k.(leave := 4) else k.(answer := k.answer - 1)
      case ModemDone =>
        if k.leave > 0 then k.(leave := k.leave - 1)
        else if cfg.evccidAccepted then k.(stage := 1)
        else k.(stage := 0, refusal := 59)
      case ModemDenied => if k.refusal == 0 then k.(stage := 0, delay := 0) else k.(refusal := k.refusal - 1)
      case _ => k
  }

  lemma DialogueRequest(cfg: Config, c: Control)
    requires c.state == ModemRequest && cfg.modemEnabled
    ensures ClocksOf(TickModemDenied(cfg, TickModemDone(cfg, TickModemWait(cfg, TickModemRequest(cfg, c)))))
         == Dialogue(cfg, c.state, ClocksOf(c))
  {
    Enters(cfg, c, ModemWait);
    var d := TickModemWait(cfg, TickModemRequest(cfg, c));
    assert d.state in {ModemRequest, ModemWait} && ClocksOf(d) == Dialogue(cfg, c.state, ClocksOf(c)) by {
      assert SetState(cfg, c, ModemWait).toModemDone == 60;
      hide SetState;
    }
    hide TickModemRequest, TickModemWait, SetState;
  }

  lemma DialogueWait(cfg: Config, c: Control)
    requires c.state == ModemWait && cfg.modemEnabled
    ensures ClocksOf(TickModemDenied(cfg, TickModemDone(cfg, TickModemWait(cfg, TickModemRequest(cfg, c)))))
         == Dialogue(cfg, c.state, ClocksOf(c))
  {
    assert TickModemRequest(cfg, c) == c;
    Enters(cfg, c, ModemDone);
    var d := TickModemDone(cfg, TickModemWait(cfg, c));
    assert d.state in {ModemWait, ModemDone} && ClocksOf(d) == Dialogue(cfg, c.state, ClocksOf(c)) by {
      assert SetState(cfg, c, ModemDone).leaveModemDone == 5;
      hide SetState, TickModemRequest;
    }
    hide TickModemRequest, TickModemWait, TickModemDone, SetState;
  }

  /** The answer itself, before the refusal is counted. */
  lemma DialogueAnswered(cfg: Config, c: Control)
    requires c.state == ModemDone
    ensures var d := TickModemDone(cfg, c);
            && (d.state == ModemDenied <==> c.leaveModemDone == 0 && !cfg.evccidAccepted)
            && ClocksOf(d) == if c.leaveModemDone > 0 then ClocksOf(c).(leave := c.leaveModemDone - 1)
                              else if cfg.evccidAccepted then ClocksOf(c).(stage := 1)
                              else ClocksOf(c).(stage := 0, refusal := 60)
  {
    AcceptedClocks(cfg, c);
    DeniedClocks(cfg, c);
    hide SetState, ClocksOf;
    if c.leaveModemDone > 0 {
      assert TickModemDone(cfg, c) == c.(leaveModemDone := c.leaveModemDone - 1);
      CountedLeave(c);
    }
  }

  lemma CountedLeave(c: Control)
    requires c.leaveModemDone > 0
    ensures ClocksOf(c.(leaveModemDone := c.leaveModemDone - 1)) == ClocksOf(c).(leave := c.leaveModemDone - 1)
  {
  }

  lemma AcceptedClocks(cfg: Config, c: Control)
    requires c.state == ModemDone
    ensures ClocksOf(SetState(cfg, c.(modemStage := 1), B)) == ClocksOf(c).(stage := 1)
  {
    Enters(cfg, c.(modemStage := 1), B);
    hide SetState;
  }

  lemma DeniedClocks(cfg: Config, c: Control)
    requires c.state == ModemDone
    ensures ClocksOf(SetState(cfg, c.(modemStage := 0, leaveModemDenied := 60), ModemDenied))
         == ClocksOf(c).(stage := 0, refusal := 60)
  {
    Enters(cfg, c.(modemStage := 0, leaveModemDenied := 60), ModemDenied);
    hide SetState;
  }

  lemma RefusalCounts(cfg: Config, d: Control)
    ensures TickModemDenied(cfg, d).state in {d.state, A}
    ensures d.state != ModemDenied ==> TickModemDenied(cfg, d) == d
    ensures d.state == ModemDenied && d.leaveModemDenied > 0 ==>
              ClocksOf(TickModemDenied(cfg, d)) == ClocksOf(d).(refusal := d.leaveModemDenied - 1)
  {
    hide SetState;
  }

  lemma DialogueDone(cfg: Config, c: Control)
    requires c.state == ModemDone && cfg.modemEnabled
    ensures ClocksOf(TickModemDenied(cfg, TickModemDone(cfg, TickModemWait(cfg, TickModemRequest(cfg, c)))))
         == Dialogue(cfg, c.state, ClocksOf(c))
  {
    assert TickModemWait(cfg, TickModemRequest(cfg, c)) == c;
    hide TickModemWait, TickModemRequest, TickModemDone, TickModemDenied;
    DialogueAnswered(cfg, c);
    RefusalCounts(cfg, TickModemDone(cfg, c));
  }

  lemma DialogueDenied(cfg: Config, c: Control)
    requires c.state == ModemDenied && cfg.modemEnabled
    ensures ClocksOf(TickModemDenied(cfg, TickModemDone(cfg, TickModemWait(cfg, TickModemRequest(cfg, c)))))
         == Dialogue(cfg, c.state, ClocksOf(c))
  {
    Enters(cfg, c, A);
    hide SetState;
  }

  lemma DialogueCounts(cfg: Config, c: Control)
    ensures ClocksOf(TickModem(cfg, c)) == Dialogue(cfg, c.state, ClocksOf(c))
  {
    if cfg.modemEnabled {
      match c.state
      case ModemRequest => DialogueRequest(cfg, c);
      case ModemWait => DialogueWait(cfg, c);
      case ModemDone => DialogueDone(cfg, c);
      case ModemDenied => DialogueDenied(cfg, c);
      case _ => assert TickModem(cfg, c) == c;
    }
    hide TickModemRequest, TickModemWait, TickModemDone, TickModemDenied, ClocksOf;
  }

  /** From state s: the shutdown, the pilot, the time above the limit on the sum of the mains, the lock. */
  function Shutdown(s: State, k: Clocks): Clocks {
    if s != C1 then k else if k.shutdown == 0 then Entered(C1, B1, k) else k.(shutdown := k.shutdown - 1)
  }

  function Excess(s: State, k: Clocks): Clocks {
    var d := k.(release := Less(k.release), sumMains := Less(k.sumMains));
    if s == C && k.sumMains == 1 then Entered(C, C1, d) else d
  }

  function Lock(s: State, k: Clocks): Clocks {
    var d := k.(delay := Less(k.delay));
    if s != A then d.(accessTimer := 0)
    else d.(accessTimer := Less(k.accessTimer), access := if k.accessTimer == 1 then Off else k.access)
  }

  lemma ShutdownCounts(cfg: Config, c: Control)
    ensures ClocksOf(TickC1(cfg, c)) == Shutdown(c.state, ClocksOf(c))
  {
    if c.state == C1 {
      Enters(cfg, c, B1);
    }
    hide SetState;
  }

  lemma ExcessCounts(cfg: Config, c: Control)
    ensures ClocksOf(TickSumMains(cfg, c)) == Excess(c.state, ClocksOf(c))
  {
    var d := c.(pilotDisconnectTime := Down(c.pilotDisconnectTime), maxSumMainsTimer := Down(c.maxSumMainsTimer));
    if c.state == C {
      Enters(cfg, d, C1);
    }
    hide SetState;
  }

  lemma LockCounts(cfg: Config, c: Control)
    ensures ClocksOf(TickAccess(cfg, c)) == Lock(c.state, ClocksOf(c))
  {
    var d := c.(chargeDelay := Down(c.chargeDelay));
    var e := d.(accessTimer := Down(d.accessTimer));
    if c.state == A {
      assert SetAccess(cfg, e, Off) == e.(access := Off);
      hide SetAccess;
      assert TickAccess(cfg, c) == if d.accessTimer == 1 then SetAccess(cfg, e, Off) else e;
    } else {
      assert TickAccess(cfg, c) == d.(accessTimer := 0);
    }
    hide TickAccess, SetAccess;
  }

  function Activated(c: Control): Clocks {
    ClocksOf(c).(activationMode := if c.activationMode == 255 then 255 else Less(c.activationMode),
                 activation := Less(c.activationTimer))
  }

  /** The clocks after the first half, from state s; m is the state after the dialogue, t that before the
      lock. */
  function ClocksAfterTimers(cfg: Config, c: Control): Clocks {
    var m := AfterModem(cfg, c);
    var shut := Shutdown(m, Dialogue(cfg, c.state, Activated(c)));
    Lock(AfterTimers(cfg, c), Excess(if m == C1 && c.c1Timer == 0 then B1 else m, shut))
  }

  lemma {:induction false} FirstHalfCounts(cfg: Config, c: Control)
    ensures ClocksOf(TickTimers(cfg, c)) == ClocksAfterTimers(cfg, c)
  {
    var a := TickActivation(c);
    ActivationCounts(cfg, c);
    hide TickModem, TickC1, TickSumMains, TickAccess, TickActivation, AfterModem, Dialogue, Shutdown, Excess, Lock,
         ClocksOf;
    var m := TickModem(cfg, a);
    Modem(cfg, a);
    DialogueCounts(cfg, a);
    ShutdownTimer(cfg, m);
    ShutdownCounts(cfg, m);
    SumTimer(cfg, TickC1(cfg, m));
    ExcessCounts(cfg, TickC1(cfg, m));
    LockCounts(cfg, TickSumMains(cfg, TickC1(cfg, m)));
  }

  lemma ActivationCounts(cfg: Config, c: Control)
    ensures var a := TickActivation(c);
            && AfterModem(cfg, a) == AfterModem(cfg, c) && Spared(c, a) && a.state == c.state && a.c1Timer == c.c1Timer
            && ClocksOf(a) == Activated(c)
  {
  }

  // ------------------------------------------------------------------ the second half

  /** What a loss of power in state s does. */
  function Cut(s: State, k: Clocks): Clocks {
    if s in {A, B1, C1} then k else Entered(s, WithoutPower(s), k)
  }

  /** From state s and clocks k to d power is lost once or more, or not. */
  predicate Cuts(lost: bool, s: State, k: Clocks, d: Control) {
    d.state == (if lost then WithoutPower(s) else s) && ClocksOf(d) == if lost then Cut(s, k) else k
  }

  lemma CutOnce(cfg: Config, c: Control)
    ensures Cuts(true, c.state, ClocksOf(c), SetPowerUnavailable(cfg, c))
  {
    if c.state == C {
      Enters(cfg, c, C1);
    } else if c.state !in {A, C1, B1} {
      Enters(cfg, c, B1);
    }
    hide SetState;
  }

  lemma CutTwice(a: bool, b: bool, s: State, k: Clocks, d: Control, e: Control)
    requires Cuts(a, s, k, d) && Cuts(b, d.state, ClocksOf(d), e)
    ensures Cuts(a || b, s, k, e)
  {
    hide ClocksOf;
  }

  lemma CutMains(cfg: Config, c: Control)
    ensures Cuts(LosesMains(cfg, c), c.state, ClocksOf(c).(mains := MainsTimeout(cfg, c)), TickMainsMeter(cfg, c))
  {
    var lost := c.(errors := c.errors.(ctNoComm := true));
    CutOnce(cfg, lost);
    hide SetPowerUnavailable, WithoutPower, Cut;
    if LosesMains(cfg, c) {
      assert TickMainsMeter(cfg, c) == SetPowerUnavailable(cfg, lost);
      hide TickMainsMeter;
    } else {
      assert TickMainsMeter(cfg, c) == c.(mainsTimeout := MainsTimeout(cfg, c));
      hide TickMainsMeter;
    }
  }

  lemma CutEv(cfg: Config, c: Control)
    ensures Cuts(LosesEv(cfg, c), c.state, ClocksOf(c).(ev := EvTimeout(cfg, c)), TickEvMeter(cfg, c))
  {
    CutOnce(cfg, c.(errors := c.errors.(evNoComm := true)));
    hide SetPowerUnavailable, WithoutPower, Cut;
  }

  lemma CutKeepsEv(s: State, k: Clocks, ev: int)
    ensures Cut(s, k.(ev := ev)) == Cut(s, k).(ev := ev)
    ensures WithoutPower(WithoutPower(s)) == WithoutPower(s) && Cut(WithoutPower(s), Cut(s, k)) == Cut(s, k)
  {
  }

  /** Both meters. */
  lemma {:induction false} CutMeters(cfg: Config, r: Control)
    ensures Cuts(LosesMains(cfg, r) || LosesEv(cfg, r), r.state,
                 ClocksOf(r).(mains := MainsTimeout(cfg, r), ev := EvTimeout(cfg, r)),
                 TickEvMeter(cfg, TickMainsMeter(cfg, r)))
  {
    var m := TickMainsMeter(cfg, r);
    MainsMeter(cfg, r);
    CutMains(cfg, r);
    CutEv(cfg, m);
    SameEv(cfg, m, r);
    hide TickMainsMeter, TickEvMeter, LosesMains, LosesEv, WithoutPower, MainsTimeout, EvTimeout, Cut, ClocksOf;
    var k := ClocksOf(r).(mains := MainsTimeout(cfg, r));
    CutKeepsEv(r.state, k, EvTimeout(cfg, r));
    CutKeepsEv(r.state, k.(ev := EvTimeout(cfg, r)), EvTimeout(cfg, r));
  }

  lemma CutHot(cfg: Config, c: Control)
    ensures Cuts(cfg.tempEvse > cfg.maxTemp && !c.errors.tempHigh, c.state, ClocksOf(c), TickTemperature(cfg, c))
  {
    CutOnce(cfg, c.(errors := c.errors.(tempHigh := true)));
    hide SetPowerUnavailable, WithoutPower, Cut;
  }

  /** A shortage cuts power and delays the next charge by 60 seconds. */
  lemma CutShort(cfg: Config, c: Control)
    ensures ClocksOf(TickLess6A(cfg, c))
         == if c.errors.less6A then Cut(c.state, ClocksOf(c)).(delay := 60) else ClocksOf(c)
  {
    CutOnce(cfg, c);
    hide SetPowerUnavailable, WithoutPower, Cut;
  }

  /** Errors that clear by themselves move no clock. */
  lemma RecoveriesKeep(cfg: Config, c: Control, available: bool)
    ensures TickRecovery(cfg, c, available).state == c.state
    ensures ClocksOf(TickRecovery(cfg, c, available)) == ClocksOf(c)
    ensures TickMeterRecovery(c).state == c.state && ClocksOf(TickMeterRecovery(c)) == ClocksOf(c)
  {
  }

  /** Up to the meters. */
  lemma {:induction false} CutFirst(cfg: Config, t: Control, available: bool)
    ensures Cuts(LosesMains(cfg, t) || LosesEv(cfg, t), t.state,
                 ClocksOf(t).(mains := MainsTimeout(cfg, t), ev := EvTimeout(cfg, t)),
                 TickMeterRecovery(TickEvMeter(cfg, TickMainsMeter(cfg, TickRecovery(cfg, t, available)))))
  {
    var r := TickRecovery(cfg, t, available);
    Recovery(cfg, t, available);
    SameMains(cfg, r, t);
    SameEv(cfg, r, t);
    hide TickRecovery, TickMainsMeter, TickEvMeter, TickMeterRecovery, LosesMains, LosesEv, MainsTimeout, EvTimeout,
         WithoutPower, Cut, ClocksOf;
    CutMeters(cfg, r);
    RecoveriesKeep(cfg, t, available);
    RecoveriesKeep(cfg, TickEvMeter(cfg, TickMainsMeter(cfg, r)), available);
  }

  function AfterShortage(short: bool, k: Clocks): Clocks { if short then k.(delay := 60) else k }

  /** The second half, from the state t. */
  lemma {:induction false} SecondHalfCounts(cfg: Config, t: Control, available: bool)
    ensures var k := ClocksOf(t).(mains := MainsTimeout(cfg, t), ev := EvTimeout(cfg, t));
            var short := t.errors.less6A && !(cfg.loadBl < 2 && available);
            var lost := || LosesMains(cfg, t) || LosesEv(cfg, t)
                        || (cfg.tempEvse > cfg.maxTemp && !t.errors.tempHigh) || short;
            ClocksOf(TickErrors(cfg, t, available)) == AfterShortage(short, if lost then Cut(t.state, k) else k)
  {
    var n := TickMeterRecovery(TickEvMeter(cfg, TickMainsMeter(cfg, TickRecovery(cfg, t, available))));
    var p := TickTemperature(cfg, n);
    CutFirst(cfg, t, available);
    Meters(cfg, t, available);
    Temperature(cfg, n);
    CutHot(cfg, n);
    CutShort(cfg, p);
    hide TickRecovery, TickMainsMeter, TickEvMeter, TickMeterRecovery, TickTemperature, TickLess6A, LosesMains, LosesEv,
         MainsTimeout, EvTimeout, WithoutPower, Cuts, Cut, ClocksOf;
    var k := ClocksOf(t).(mains := MainsTimeout(cfg, t), ev := EvTimeout(cfg, t));
    var meters, hot := LosesMains(cfg, t) || LosesEv(cfg, t), cfg.tempEvse > cfg.maxTemp && !t.errors.tempHigh;
    assert (cfg.tempEvse > cfg.maxTemp && !n.errors.tempHigh) == hot;
    CutTwice(meters, hot, t.state, k, n, p);
    CutMeans(meters || hot, t.state, k, p);
    CutKeepsEv(t.state, k, 0);
  }

  lemma CutMeans(lost: bool, s: State, k: Clocks, d: Control)
    requires Cuts(lost, s, k, d)
    ensures d.state == (if lost then WithoutPower(s) else s) && ClocksOf(d) == if lost then Cut(s, k) else k
  {
  }

  // ------------------------------------------------------------------ the whole tick

  /** The clocks after a whole one-second tick: those of the first half, with the meters' timeouts counted,
      and what a loss of power starts. */
  function ClocksAfter(cfg: Config, c: Control, available: bool): Clocks {
    var k := ClocksAfterTimers(cfg, c).(mains := MainsTimeout(cfg, c), ev := EvTimeout(cfg, c));
    AfterShortage(ShortAfter(cfg, c, available), if Stops(cfg, c, available) then Cut(AfterTimers(cfg, c), k) else k)
  }

  lemma {:induction false} OneSecondCounts(cfg: Config, c: Control, available: bool)
    ensures ClocksOf(Tick1s(cfg, c, available)) == ClocksAfter(cfg, c, available)
  {
    var t := TickTimers(cfg, c);
    FirstHalf(cfg, c);
    FirstHalfCounts(cfg, c);
    SecondHalfCounts(cfg, t, available);
    hide TickTimers, TickErrors, AfterTimers, AfterModem, LosesMains, LosesEv, MainsTimeout, EvTimeout, Cut,
         ClocksAfterTimers, AfterShortage;
    SameMains(cfg, t, c);
    SameEv(cfg, t, c);
  }

  /** The delay before a charge after the first half of the tick, which counts it down. */
  function DelayAfterTimers(cfg: Config, c: Control): int {
    var m := AfterModem(cfg, c);
    Less(if m == A && c.state != A then 0
         else if m == C1 && c.c1Timer == 0 then DelayIn(B1, c.chargeDelay)
         else if m == C && c.maxSumMainsTimer == 1 then 15
         else c.chargeDelay)
  }

  /** A shortage makes it 60 seconds; what else stops a charge, 15, or 3 for other states. */
  function DelayAfter(cfg: Config, c: Control, available: bool): int {
    var t, delay := AfterTimers(cfg, c), DelayAfterTimers(cfg, c);
    if ShortAfter(cfg, c, available) then 60
    else if !Stops(cfg, c, available) || t in {A, B1, C1} then delay
    else if t == C then 15
    else if delay == 0 then 3
    else delay
  }

  lemma DialogueKeeps(cfg: Config, c: Control)
    ensures var k, d := Activated(c), Dialogue(cfg, c.state, Activated(c));
            && d == k.(delay := d.delay, request := d.request, answer := d.answer, leave := d.leave,
                       refusal := d.refusal, stage := d.stage)
            && d.delay == if AfterModem(cfg, c) == A && c.state != A then 0 else k.delay
    ensures c.state in {A, B1, C, C1} ==> AfterModem(cfg, c) == c.state
    ensures c.state !in {A, B1, C, C1} ==> AfterModem(cfg, c) !in {B1, C, C1}
  {
  }

  /** The shutdown, the lock and the pilot, when the tick leads from c to `next`. */
  predicate Ticked(c: Control, next: State, k: Clocks) {
    && k.shutdown == (if next == C1 && c.state != C1 then 6 else if c.state == C1 then Less(c.c1Timer) else c.c1Timer)
    && k.accessTimer == (if next == A then Less(c.accessTimer) else 0)
    && k.access == (if next == A && c.accessTimer == 1 then Off else c.access)
    && k.released == (c.pilotDisconnected || Releases(c, next))
    && k.release == if !Releases(c, next) then Less(c.pilotDisconnectTime) else if c.state == C1 then 4 else 5
  }

  /** Timer by timer after the first half. */
  lemma FirstCountdowns(cfg: Config, c: Control)
    ensures var k, t := ClocksAfterTimers(cfg, c), AfterTimers(cfg, c);
            && k.delay == DelayAfterTimers(cfg, c) && Ticked(c, t, k)
            && (t == B1 ==> c.state in {B1, C1}) && (t == C ==> c.state == C)
            && (c.state == B1 ==> t == B1) && (c.state == C1 ==> t in {B1, C1})
  {
    DialogueKeeps(cfg, c);
    hide Dialogue, AfterModem;
  }

  /** A loss of power keeps them so. */
  lemma TickedCut(c: Control, t: State, k: Clocks)
    requires Ticked(c, t, k)
    requires (t == B1 ==> c.state in {B1, C1}) && (t == C ==> c.state == C)
    requires (c.state == B1 ==> t == B1) && (c.state == C1 ==> t in {B1, C1})
    ensures Ticked(c, WithoutPower(t), Cut(t, k))
  {
  }

  lemma FirstCountdownsOthers(cfg: Config, c: Control)
    ensures var k := ClocksAfterTimers(cfg, c);
            && k.activationMode == (if c.activationMode == 255 then 255 else Less(c.activationMode))
            && k.activation == Less(c.activationTimer) && k.sumMains == Less(c.maxSumMainsTimer)
            && k.debounce == c.stateTimer
  {
    DialogueKeeps(cfg, c);
    hide Dialogue, AfterModem;
  }

  lemma CutLeaves(t: State, k: Clocks)
    ensures var d := Cut(t, k);
            && d == k.(delay := d.delay, shutdown := d.shutdown, released := d.released, release := d.release)
            && d.delay == if t in {A, B1, C1} then k.delay else if t == C then 15 else DelayIn(B1, k.delay)
  {
  }

  lemma ShortTicked(c: Control, next: State, k: Clocks, short: bool)
    requires Ticked(c, next, k)
    ensures Ticked(c, next, AfterShortage(short, k))
  {
  }

  /** Timer by timer: what counts down over a second, and what the transition of the tick starts. */
  lemma {:induction false} CountdownsExactly(cfg: Config, c: Control, available: bool)
    ensures var k := ClocksOf(Tick1s(cfg, c, available));
            && Ticked(c, StateAfter(cfg, c, available), k)
            && k.delay == DelayAfter(cfg, c, available)
            && k.activationMode == (if c.activationMode == 255 then 255 else Less(c.activationMode))
            && k.activation == Less(c.activationTimer) && k.sumMains == Less(c.maxSumMainsTimer)
            && k.mains == MainsTimeout(cfg, c) && k.ev == EvTimeout(cfg, c)
            && k.debounce == c.stateTimer
  {
    var t := AfterTimers(cfg, c);
    var k := ClocksAfterTimers(cfg, c).(mains := MainsTimeout(cfg, c), ev := EvTimeout(cfg, c));
    OneSecondCounts(cfg, c, available);
    FirstCountdowns(cfg, c);
    FirstCountdownsOthers(cfg, c);
    hide Tick1s, ClocksOf, ShortAfter, MainsTimeout, EvTimeout, ClocksAfterTimers, AfterTimers, Stops, DelayAfterTimers,
         WithoutPower;
    assert Ticked(c, t, k);
    TickedCut(c, t, k);
    CutLeaves(t, k);
    hide Cut, Ticked;
    ShortTicked(c, StateAfter(cfg, c, available), if Stops(cfg, c, available) then Cut(t, k) else k,
                ShortAfter(cfg, c, available));
  }

  /** Without a car the lock counts down, and its end withdraws the authorization. */
  lemma {:induction false} LockExpires(cfg: Config, c: Control, available: bool)
    requires c.state == A
    ensures var d := Tick1s(cfg, c, available);
            && d.state == A && d.accessTimer == Max(0, c.accessTimer - 1)
            && d.access == if c.accessTimer == 1 then Off else c.access
  {
    OneSecond(cfg, c, available);
    CountdownsExactly(cfg, c, available);
    hide Tick1s, Stops;
  }
}
