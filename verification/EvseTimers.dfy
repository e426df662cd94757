/** The timers of the controller: what starts them, and how they stand after a whole 10 ms tick. */
module EvseTimers {
  import opened CArithmetic
  import opened EvseTypes
  import opened EvseControl
  import opened EvseSteps
  import opened EvseDiagram

  /** Every timer and counter, with the authorization and the pilot, which go by them. */
  datatype Clocks = Clocks(
    delay: int, debounce: int,
    access: Access, accessTimer: int, shutdown: int, sumMains: int,
    released: bool, release: int,
    activationMode: int, activation: int,
    request: int, answer: int, leave: int, refusal: int, stage: int,
    mains: int, ev: int)

  function ClocksOf(c: Control): Clocks {
    Clocks(c.chargeDelay, c.stateTimer,
           c.access, c.accessTimer, c.c1Timer, c.maxSumMainsTimer,
           c.pilotDisconnected, c.pilotDisconnectTime,
           c.activationMode, c.activationTimer,
           c.toModemWait, c.toModemDone, c.leaveModemDone, c.leaveModemDenied, c.modemStage,
           c.mainsTimeout, c.evTimeout)
  }

  // ------------------------------------------------------------------ transitions

  /** The delay before a charge that comes with a state. */
  function DelayIn(s: State, delay: int): int {
    match s
    case A => 0
    case B1 => if delay == 0 then 3 else delay
    case C1 => 15
    case _ => delay
  }

  /** The pilot is released for five seconds when B1 is entered while authorization stands. */
  function Released(k: Clocks): Clocks {
    if !k.released && k.access == On then k.(released := true, release := 5) else k
  }

  /** The clocks when `next` is entered from s. */
  function Entered(s: State, next: State, k: Clocks): Clocks {
    var d := k.(delay := DelayIn(next, k.delay));
    match next
    case A =>
      if s in {B, B1, C, C1} then d.(stage := 0, access := Off, accessTimer := 0) else d.(stage := 0)
    case B1 => if s != B1 then Released(d) else d
    case C => d.(activationMode := 255, sumMains := 0)
    case C1 => d.(shutdown := 6)
    case ModemRequest => d.(request := 0)
    case ModemWait => d.(answer := 60)
    case ModemDone => d.(leave := 5)
    case _ => d
  }

  lemma Enters(cfg: Config, c: Control, next: State)
    ensures ClocksOf(SetState(cfg, c, next)) == Entered(c.state, next, ClocksOf(c))
  {
    assert ClocksOf(CheckSwitchingPhases(cfg, c)) == ClocksOf(c);
    hide CheckSwitchingPhases;
  }

  // ------------------------------------------------------------------ the 10 ms tick

  /** The debounce: counted by requests and by short circuits of a charge, started again by others. */
  function Debounce10(c: Control, pilot: Pilot, next: State): int {
    match c.state
    case B | CommC | CommBOk =>
      if next == C || pilot == V9 then 0
      else if pilot == V6 then (c.stateTimer + 1) % 256
      else c.stateTimer
    case C | CommCOk =>
      if pilot == V12 || pilot == V9 then c.stateTimer
      else if pilot == Short && (c.stateTimer + 1) % 256 <= 50 then (c.stateTimer + 1) % 256
      else 0
    case A | B1 => if next == B then 0 else c.stateTimer
    case _ => c.stateTimer
  }

  /** The delay before a charge ends when the car leaves; 3 seconds come with B1. */
  function Delay10(c: Control, pilot: Pilot, next: State): int {
    if next == A && (c.state != A || (pilot == V12 && !c.pilotDisconnected)) then 0
    else if next == B1 && c.state != B1 && c.chargeDelay == 0 then 3
    else c.chargeDelay
  }

  /** The time for a connected car to ask: 30 seconds from its connection; 255 is none. */
  function Activation10(c: Control, next: State): int {
    if (next == C && c.state != C) || c.state == CommCOk then 255
    else if (c.state in {A, B1} && next in {B, ModemRequest}) || c.state == CommBOk then 30
    else if c.state == ActStart && next == B then 255
    else c.activationMode
  }

  /** The lock after the visit of a car: 60 seconds from the first reading of an unplugged car, if there is a
      card reader and authorization stands; none from the connection of a car. */
  function Lock10(cfg: Config, c: Control, pilot: Pilot, next: State): int {
    if c.state in {B, B1, C, C1, CommBOk, CommCOk} && next == A then 0
    else if (c.state in {A, B1} && next in {B, ModemRequest}) || c.state == CommBOk then 0
    else if c.state in {A, CommB} && pilot == V12 && !c.pilotDisconnected && cfg.rfidReader in {1, 2}
            && c.accessTimer == 0 && c.access == On then 60
    else c.accessTimer
  }

  /** B1 is entered with authorization, so that the car has to be told. */
  predicate Releases(c: Control, next: State) {
    next == B1 && c.state != B1 && !c.pilotDisconnected && c.access == On
  }

  /** The clocks after a 10 ms tick that leads from c to `next`. */
  function Clocks10(cfg: Config, c: Control, pilot: Pilot, next: State): Clocks {
    ClocksOf(c).(
      delay := Delay10(c, pilot, next), debounce := Debounce10(c, pilot, next),
      access := Access10(c, next), accessTimer := Lock10(cfg, c, pilot, next),
      sumMains := if c.state == CommCOk || (c.state != C && next == C) then 0 else c.maxSumMainsTimer,
      released := Releases(c, next)
                  || (c.pilotDisconnected && (c.state !in {A, B1, CommB} || c.pilotDisconnectTime > 0)),
      release := if Releases(c, next) then 5 else c.pilotDisconnectTime,
      activationMode := Activation10(c, next),
      activation := if next == ActStart && c.state != ActStart then 3 else c.activationTimer,
      request := if next == ModemRequest && c.state != ModemRequest then 0 else c.toModemWait,
      stage := if next == A && c.state != A then 0 else c.modemStage)
  }

  predicate Timed(cfg: Config, c: Control, pilot: Pilot, d: Control) {
    ClocksOf(d) == Clocks10(cfg, c, pilot, d.state)
  }

  /** The lock that the first reading of an unplugged car starts. */
  function Locked(cfg: Config, c: Control): nat {
    if cfg.rfidReader in {1, 2} && c.accessTimer == 0 && c.access == On then 60 else c.accessTimer
  }

  lemma UnplugClocks(cfg: Config, c: Control)
    requires c.state in {A, B1, CommB}
    ensures var k := ClocksOf(c).(accessTimer := Locked(cfg, c));
            ClocksOf(Unplugged(cfg, c)) == (if c.state == A then k else Entered(c.state, A, k)).(delay := 0)
  {
    var d := c.(accessTimer := Locked(cfg, c));
    Enters(cfg, d, A);
    hide SetState, Entered;
    assert Unplugged(cfg, c) == (if c.state == A then d else SetState(cfg, d, A)).(chargeDelay := 0);
    hide Unplugged, Locked;
  }

  lemma UnplugTimed(cfg: Config, c: Control)
    requires c.state in {A, B1, CommB} && !c.pilotDisconnected
    ensures Timed(cfg, c, V12, Unplugged(cfg, c))
  {
    hide Unplugged;
    UnplugClocks(cfg, c);
    LeftClocks(cfg, c);
    assert Unplugged(cfg, c).state == A by {
      UnpluggedEnds(cfg, c);
    }
    hide Clocks10, Entered, Locked, ClocksOf;
  }

  /** What the tick makes of the clocks when the car is gone. */
  lemma LeftClocks(cfg: Config, c: Control)
    requires c.state in {A, B1, CommB} && !c.pilotDisconnected
    ensures var k := ClocksOf(c).(accessTimer := Locked(cfg, c));
            Clocks10(cfg, c, V12, A) == (if c.state == A then k else Entered(c.state, A, k)).(delay := 0)
  {
  }

  /** A car is connected; the request handler, if it comes to it, starts the debounce again. */
  predicate TimedFirst(cfg: Config, c: Control, pilot: Pilot, d: Control) {
    && d.state in {A, B1, CommB, ModemRequest, B}
    && (d.state == B ==> pilot == V9 && d.activationMode == 30 && Timed(cfg, c, pilot, d.(stateTimer := 0)))
    && (d.state != B ==> Timed(cfg, c, pilot, d))
  }

  lemma ConnectTimed(cfg: Config, c: Control, available: bool)
    requires c.state in {A, B1} && !c.pilotDisconnected && c.access == On
    ensures TimedFirst(cfg, c, V9, PluggedIn(cfg, c, available))
  {
    var e := c.(diodeCheck := false);
    Enters(cfg, e, CommB);
    Enters(cfg, e, ModemRequest);
    Enters(cfg, e, B);
    hide SetState;
    var d := PluggedIn(cfg, c, available);
    if cfg.loadBl > 1 {
      assert d == SetState(cfg, e, CommB);
    } else if available {
      assert d == SetState(cfg, e, if cfg.modemEnabled && e.modemStage == 0 then ModemRequest else B)
                    .(activationMode := 30, accessTimer := 0);
    } else {
      assert d == e.(errors := e.errors.(less6A := true));
    }
    hide PluggedIn;
  }

  lemma StayTimed(cfg: Config, c: Control, pilot: Pilot, d: Control)
    requires c.state in {A, B1, CommB} && (pilot == V12 ==> c.pilotDisconnected)
    requires d == c.(pilotDisconnected := c.pilotDisconnected && c.pilotDisconnectTime > 0)
    ensures TimedFirst(cfg, c, pilot, d)
  {
  }

  lemma PauseTimed(cfg: Config, c: Control)
    requires c.state == A && !c.pilotDisconnected
    ensures TimedFirst(cfg, c, V9, SetState(cfg, c, B1))
  {
    Enters(cfg, c, B1);
    hide SetState;
  }

  /** The first handler. */
  lemma TimedA(cfg: Config, c: Control, pilot: Pilot, available: bool)
    requires c.state in {A, B1, CommB}
    ensures TimedFirst(cfg, c, pilot, HandleA(cfg, c, pilot, available))
  {
    hide SetState, Unplugged, PluggedIn, NoError;
    var d := HandleA(cfg, c, pilot, available);
    if c.pilotDisconnected {
      StayTimed(cfg, c, pilot, d);
    } else if pilot == V12 {
      assert d == Unplugged(cfg, c);
      UnplugTimed(cfg, c);
      UnpluggedEnds(cfg, c);
      hide Timed;
    } else if MayConnect(c, pilot) {
      ConnectTimed(cfg, c, available);
      assert d == PluggedIn(cfg, c, available) && pilot == V9;
    } else if pilot == V9 && c.state == A && c.access == On {
      PauseTimed(cfg, c);
      assert d == SetState(cfg, c, B1);
    } else {
      StayTimed(cfg, c, pilot, d);
    }
    hide TimedFirst, HandleA;
  }

  lemma TimedRest(cfg: Config, d: Control, pilot: Pilot, available: bool, after: Control)
    requires d.state in {A, B1, CommB, ModemRequest} || (d.state == B && pilot == V9 && d.activationMode == 30)
    ensures AfterB(cfg, HandleB(cfg, HandleCommBOk(cfg, d), pilot, available, after), pilot)
         == if d.state == B then d.(stateTimer := 0) else d
  {
    hide SetState;
  }

  lemma TimedUnconnected(cfg: Config, c: Control, pilot: Pilot, available: bool, after: Control)
    requires c.state in {A, B1, CommB}
    ensures Timed(cfg, c, pilot, Tick10ms(cfg, c, pilot, available, after))
  {
    TimedA(cfg, c, pilot, available);
    var d := HandleA(cfg, c, pilot, available);
    TimedRest(cfg, d, pilot, available, after);
    hide HandleA, HandleCommBOk, HandleB, AfterB, Timed;
  }

  /** The last handler starts the debounce of a charge. */
  function Restarted(d: Control): Control { if d.state == C then d.(stateTimer := 0) else d }

  lemma GrantedClocks(cfg: Config, b: Control, after: Control)
    requires b.state in {B, CommC} && Balanced(Counted(b), after)
    ensures Timed(cfg, b, V6, SetState(cfg, after.(diodeCheck := false), C).(stateTimer := 0))
  {
    assert ClocksOf(after) == ClocksOf(Counted(b)).(sumMains := after.maxSumMainsTimer) && after.state == b.state;
    hide Balanced;
    Enters(cfg, after.(diodeCheck := false), C);
    hide SetState;
  }

  lemma RequestTimed(cfg: Config, b: Control, available: bool, after: Control)
    requires b.state in {B, CommC} && Balanced(Counted(b), after)
    ensures var d := HandleB(cfg, b, V6, available, after);
            Timed(cfg, b, V6, Restarted(d)) && d.state in {B, CommC, C}
  {
    var k, d := Counted(b), HandleB(cfg, b, V6, available, after);
    hide SetState, MayCharge;
    if !MayCharge(b, V6) {
      assert d == k;
    } else if cfg.loadBl > 1 {
      assert d == if b.state != CommC then SetState(cfg, k, CommC) else k;
      Enters(cfg, k, CommC);
    } else if available {
      assert d == SetState(cfg, after.(diodeCheck := false), C);
      GrantedClocks(cfg, b, after);
      hide Timed;
    } else {
      assert d == k.(errors := k.errors.(less6A := true));
    }
    hide HandleB, Balanced;
  }

  lemma EndTimed(cfg: Config, b: Control)
    requires b.state in {B, CommC}
    ensures Timed(cfg, b, V12, SetState(cfg, b, A))
  {
    Enters(cfg, b, A);
    hide SetState;
  }

  lemma PausedTimed(cfg: Config, b: Control, d: Control)
    requires b.state in {B, CommC}
    requires var e := b.(stateTimer := 0);
             d == if e.activationMode == 0 then SetState(cfg, e, ActStart).(activationTimer := 3) else e
    ensures Timed(cfg, b, V9, d) && d.state in {B, CommC, ActStart} && (d.state == ActStart ==> d.activationTimer == 3)
  {
    Enters(cfg, b.(stateTimer := 0), ActStart);
    hide SetState;
  }

  lemma WaitTimed(cfg: Config, b: Control, pilot: Pilot, available: bool, after: Control)
    requires b.state in {B, CommC} && pilot != V6
    ensures var d := HandleB(cfg, b, pilot, available, after);
            && Timed(cfg, b, pilot, d) && d.state in {A, B, CommC, ActStart}
            && (d.state == ActStart ==> d.activationTimer == 3)
  {
    var d := HandleB(cfg, b, pilot, available, after);
    hide SetState;
    if pilot == V12 {
      EndTimed(cfg, b);
      assert d == SetState(cfg, b, A);
      hide Timed;
    } else if pilot == V9 {
      PausedTimed(cfg, b, d);
      hide Timed;
    } else {
      assert d == b.(diodeCheck := d.diodeCheck);
    }
    hide HandleB;
  }

  lemma LastTimed(cfg: Config, d: Control, pilot: Pilot)
    requires || d.state in {A, B, CommC} || (d.state == C && pilot == V6)
             || (d.state == ActStart && d.activationTimer == 3)
    ensures AfterB(cfg, d, pilot) == Restarted(d)
  {
    hide SetState;
  }

  /** The request handler and those after it. */
  lemma TimedFromB(cfg: Config, b: Control, pilot: Pilot, available: bool, after: Control)
    requires b.state in {B, CommC} && Balanced(Counted(b), after)
    ensures Timed(cfg, b, pilot, AfterB(cfg, HandleB(cfg, b, pilot, available, after), pilot))
  {
    hide Balanced, Timed, HandleB, AfterB;
    if pilot == V6 {
      RequestTimed(cfg, b, available, after);
    } else {
      WaitTimed(cfg, b, pilot, available, after);
    }
    LastTimed(cfg, HandleB(cfg, b, pilot, available, after), pilot);
  }

  lemma TimedConnected(cfg: Config, c: Control, pilot: Pilot, available: bool, after: Control)
    requires c.state in {B, CommC} && Balanced(Requesting(cfg, c, pilot, available), after)
    ensures Timed(cfg, c, pilot, Tick10ms(cfg, c, pilot, available, after))
  {
    assert BeforeB(cfg, c, pilot, available) == c;
    hide BeforeB;
    TimedFromB(cfg, c, pilot, available, after);
    hide HandleB, Balanced, AfterB, Timed;
  }

  /** A granted connection is one before the request is handled. */
  lemma GrantTimed(cfg: Config, c: Control)
    requires c.state == CommBOk
    ensures HandleCommBOk(cfg, c).state == B
    ensures ClocksOf(HandleCommBOk(cfg, c)) == ClocksOf(c).(activationMode := 30, accessTimer := 0)
  {
    Enters(cfg, c, B);
    hide SetState;
  }

  lemma TimedGrant(cfg: Config, c: Control, pilot: Pilot, available: bool, after: Control)
    requires c.state == CommBOk && Balanced(Requesting(cfg, c, pilot, available), after)
    ensures Timed(cfg, c, pilot, Tick10ms(cfg, c, pilot, available, after))
  {
    assert BeforeB(cfg, c, pilot, available) == HandleCommBOk(cfg, c);
    hide BeforeB, HandleCommBOk, Timed, HandleB, AfterB, Balanced;
    var b := HandleCommBOk(cfg, c);
    GrantTimed(cfg, c);
    TimedFromB(cfg, b, pilot, available, after);
    assert b.activationMode == 30;
    hide ClocksOf;
    NotPaused(cfg, b, pilot, available, after);
    SameTimed(cfg, c, b, pilot, Tick10ms(cfg, c, pilot, available, after));
  }

  lemma NotPaused(cfg: Config, b: Control, pilot: Pilot, available: bool, after: Control)
    requires b.state == B && b.activationMode == 30
    ensures AfterB(cfg, HandleB(cfg, b, pilot, available, after), pilot).state in {A, B, C, CommC}
  {
    hide SetState, MayCharge;
  }

  lemma SameTimed(cfg: Config, c: Control, b: Control, pilot: Pilot, d: Control)
    requires c.state == CommBOk && b.state == B && d.state in {A, B, C, CommC} && Timed(cfg, b, pilot, d)
    requires ClocksOf(b) == ClocksOf(c).(activationMode := 30, accessTimer := 0)
    ensures Timed(cfg, c, pilot, d)
  {
  }

  lemma TimedCharging(cfg: Config, c: Control, pilot: Pilot)
    requires c.state == C
    ensures Timed(cfg, c, pilot, HandleC(cfg, c, pilot))
  {
    Enters(cfg, c, A);
    Enters(cfg, c, B);
    Enters(cfg, c.(stateTimer := 0), B);
    var d := HandleC(cfg, c, pilot);
    hide SetState;
    if pilot == V12 {
      assert d == SetState(cfg, c, A);
    } else if pilot == V9 {
      assert d == SetState(cfg, c, B).(diodeCheck := false);
    } else if pilot == Short && (c.stateTimer + 1) % 256 > 50 {
      assert d == SetState(cfg, c.(stateTimer := 0), B).(diodeCheck := false);
    } else {
      assert d == c.(stateTimer := d.stateTimer);
    }
    hide HandleC;
  }

  /** A granted charge is one before the reading is handled. */
  lemma TimedGranted(cfg: Config, c: Control, pilot: Pilot)
    requires c.state == CommCOk
    ensures Timed(cfg, c, pilot, AfterB(cfg, c, pilot))
  {
    var x := SetState(cfg, c.(diodeCheck := false), C);
    Enters(cfg, c.(diodeCheck := false), C);
    TimedCharging(cfg, x, pilot);
    hide SetState;
    assert AfterB(cfg, c, pilot) == HandleC(cfg, x, pilot);
    hide AfterB;
  }

  lemma TimedC1(cfg: Config, c: Control, pilot: Pilot)
    requires c.state == C1
    ensures Timed(cfg, c, pilot, HandleC1(cfg, c, pilot)) && AfterB(cfg, c, pilot) == HandleC1(cfg, c, pilot)
  {
    Enters(cfg, c, A);
    Enters(cfg, c, B1);
    hide SetState;
  }

  lemma TimedActStart(cfg: Config, c: Control, pilot: Pilot)
    requires c.state == ActStart
    ensures Timed(cfg, c, pilot, HandleActStart(cfg, c)) && AfterB(cfg, c, pilot) == HandleActStart(cfg, c)
  {
    Enters(cfg, c, B);
    hide SetState;
  }

  lemma TimedOthers(cfg: Config, c: Control, pilot: Pilot)
    requires c.state !in {A, B1, CommB, B, CommC, CommBOk, CommCOk}
    ensures Timed(cfg, c, pilot, AfterB(cfg, c, pilot))
  {
    if c.state == C1 {
      TimedC1(cfg, c, pilot);
      hide Timed;
    } else if c.state == ActStart {
      TimedActStart(cfg, c, pilot);
      hide Timed;
    } else if c.state == C {
      TimedCharging(cfg, c, pilot);
      hide SetState, Timed;
      assert AfterB(cfg, c, pilot) == HandleC(cfg, c, pilot);
    } else {
      hide SetState;
      assert AfterB(cfg, c, pilot) == c;
    }
    hide AfterB;
  }

  /** The timers after a whole 10 ms tick. */
  lemma {:induction false} TenMillisecondTimers(cfg: Config, c: Control, pilot: Pilot, available: bool, after: Control)
    requires Balanced(Requesting(cfg, c, pilot, available), after)
    ensures Timed(cfg, c, pilot, Tick10ms(cfg, c, pilot, available, after))
  {
    hide Timed;
    if c.state in {A, B1, CommB} {
      TimedUnconnected(cfg, c, pilot, available, after);
    } else if c.state in {B, CommC} {
      TimedConnected(cfg, c, pilot, available, after);
    } else if c.state == CommBOk {
      TimedGrant(cfg, c, pilot, available, after);
    } else {
      FirstHandlersRest(cfg, c, pilot, available, after);
      hide HandleB, BeforeB, AfterB;
      if c.state == CommCOk {
        TimedGranted(cfg, c, pilot);
      } else {
        TimedOthers(cfg, c, pilot);
      }
    }
    hide Tick10ms;
  }

  /** With a reader for cards, an authorization that nobody uses is kept for 60 seconds from the first
      reading of an unplugged car. */
  lemma LockStarts(cfg: Config, c: Control, available: bool, after: Control)
    requires c.state == A && !c.pilotDisconnected && c.access == On && c.accessTimer == 0
    ensures Tick10ms(cfg, c, V12, available, after)
         == if cfg.rfidReader in {1, 2} then c.(accessTimer := 60, chargeDelay := 0) else c.(chargeDelay := 0)
  {
    hide SetState;
  }

  /** B1 releases the pilot for five seconds, if authorization stands, so that the car notices. */
  lemma PilotReleased(cfg: Config, c: Control)
    ensures var d, releases := SetState(cfg, c, B1), c.state != B1 && !c.pilotDisconnected && c.access == On;
            && d.pilotDisconnected == (c.pilotDisconnected || releases)
            && d.pilotDisconnectTime == if releases then 5 else c.pilotDisconnectTime
  {
  }
}
