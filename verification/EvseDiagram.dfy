/** The state diagram: to which state a whole tick leads, with which errors, written out from the state,
    the reading, the timers and the measurements before it.  The ticks of the program are sequences of
    handlers, each of which may change the state for the next one. */
module EvseDiagram {
  import opened EvseTypes
  import opened EvseControl
  import opened EvseSteps

  const NO_ERROR := Errors(false, false, false, false, false)

  // ------------------------------------------------------------------ the 10 ms tick

  /** Nothing speaks against connecting or charging. */
  predicate Calm(c: Control) { c.errors == NO_ERROR && c.chargeDelay == 0 && c.access == On }

  /** A connected car is recognised. */
  predicate Recognised(c: Control, pilot: Pilot) {
    c.state in {A, B1} && !c.pilotDisconnected && pilot == V9 && Calm(c)
  }

  /** The request of a car for current is recognised: 6 V for more than 500 ms, the diode seen. */
  predicate Requested(c: Control, pilot: Pilot) {
    && c.state in {B, CommC, CommBOk} && pilot == V6 && (c.stateTimer + 1) % 256 > 50
    && c.diodeCheck && Calm(c)
  }

  /** A reading that ends a charge, with the state it leads to; C if there is none. */
  function WhileCharging(c: Control, pilot: Pilot): State {
    if pilot == V12 then A
    else if pilot == V9 || (pilot == Short && (c.stateTimer + 1) % 256 > 50) then B
    else C
  }

  /** Where a recognised car leads. */
  function Connecting(cfg: Config, c: Control, available: bool): State {
    if cfg.loadBl > 1 then CommB
    else if !available then c.state
    else if cfg.modemEnabled && c.modemStage == 0 then ModemRequest
    else B
  }

  /** The state after a 10 ms tick. */
  function Next10(cfg: Config, c: Control, pilot: Pilot, available: bool): State {
    match c.state
    case A | B1 =>
      if c.pilotDisconnected then c.state
      else if pilot == V12 then A
      else if Recognised(c, pilot) then Connecting(cfg, c, available)
      else if pilot == V9 && c.access == On then B1
      else c.state
    case CommB => if !c.pilotDisconnected && pilot == V12 then A else CommB
    case B | CommC | CommBOk =>
      var waiting := if c.state == CommC then CommC else B;
      if pilot == V12 then A
      else if Requested(c, pilot) then if cfg.loadBl > 1 then CommC else if available then C else waiting
      else if pilot == V9 && c.activationMode == 0 && c.state != CommBOk then ActStart
      else waiting
    case ActStart => if c.activationTimer == 0 then B else ActStart
    case C1 => if pilot == V12 then A else if pilot == V9 then B1 else C1
    case C | CommCOk => WhileCharging(c, pilot)
    case _ => c.state
  }

  /** For want of current a car is not connected, or a charge not started. */
  predicate Refused(cfg: Config, c: Control, pilot: Pilot, available: bool) {
    (Recognised(c, pilot) || Requested(c, pilot)) && cfg.loadBl < 2 && !available
  }

  /** On the way from c to `next` only LESS_6A is touched: cleared when A is entered, set when current is
      refused; with the start of a charge the evaluation may set it. */
  function Errors10(cfg: Config, c: Control, pilot: Pilot, available: bool, next: State, after: Control): Errors {
    if c.state != A && next == A then c.errors.(less6A := false)
    else if c.state in {B, CommC, CommBOk} && next == C then after.errors
    else if Refused(cfg, c, pilot, available) then c.errors.(less6A := true)
    else c.errors
  }

  /** Authorization ends with the visit of the car. */
  function Access10(c: Control, next: State): Access {
    if c.state in {B, B1, C, C1, CommBOk, CommCOk} && next == A then Off else c.access
  }

  /** The diode is known from a reading of it until the next connection or charge. */
  predicate Diode10(c: Control, pilot: Pilot, next: State) {
    if Recognised(c, pilot) then false
    else if c.state in {B, CommC, CommBOk} && next == C then false
    else if c.state == CommCOk || (c.state == C && next == B) then false
    else if c.state in {B, CommC, CommBOk} && pilot == Diode then true
    else c.diodeCheck
  }

  /** What a tick from c to d does apart from the state. */
  predicate Marked(cfg: Config, c: Control, pilot: Pilot, available: bool, after: Control, d: Control) {
    && d.errors == Errors10(cfg, c, pilot, available, d.state, after)
    && d.access == Access10(c, d.state) && d.diodeCheck == Diode10(c, pilot, d.state)
  }

  /** A tick from c to d is as the diagram says. */
  predicate Drawn(cfg: Config, c: Control, pilot: Pilot, available: bool, after: Control, d: Control) {
    d.state == Next10(cfg, c, pilot, available) && Marked(cfg, c, pilot, available, after, d)
  }

  lemma VisitEnds(cfg: Config, c: Control)
    ensures SetState(cfg, c, A).access == if c.state in {B, B1, C, C1} then Off else c.access
  {
  }

  lemma UnpluggedEnds(cfg: Config, c: Control)
    requires c.state in {A, B1, CommB}
    ensures var d := Unplugged(cfg, c);
            && d.state == A && d.diodeCheck == c.diodeCheck && d.access == (if c.state == B1 then Off else c.access)
            && d.errors == if c.state != A then c.errors.(less6A := false) else c.errors
  {
    var d := if (cfg.rfidReader == 2 || cfg.rfidReader == 1) && c.accessTimer == 0 && c.access == On
             then c.(accessTimer := RFID_LOCK_TIME) else c;
    VisitEnds(cfg, d);
    hide SetState;
  }

  lemma PluggedInLeads(cfg: Config, c: Control, available: bool)
    requires c.state in {A, B1}
    ensures var d := PluggedIn(cfg, c, available);
            && d.state == Connecting(cfg, c, available) && !d.diodeCheck && d.access == c.access
            && d.errors == (if cfg.loadBl < 2 && !available then c.errors.(less6A := true) else c.errors)
            && (d.state == B ==> d.activationMode == 30)
  {
    hide SetState;
  }

  lemma MayConnectExactly(c: Control, pilot: Pilot)
    ensures MayConnect(c, pilot) <==> Recognised(c, pilot)
  {
  }

  /** What the first handler does from A, B1 and COMM_B. */
  predicate FirstDrawn(cfg: Config, c: Control, pilot: Pilot, available: bool, d: Control)
    requires c.state in {A, B1, CommB}
  {
    && d.state == Next10(cfg, c, pilot, available)
    && d.errors == (if c.state != A && d.state == A then c.errors.(less6A := false)
                    else if Recognised(c, pilot) && cfg.loadBl < 2 && !available then c.errors.(less6A := true)
                    else c.errors)
    && d.access == (if c.state == B1 && d.state == A then Off else c.access)
    && d.diodeCheck == (!Recognised(c, pilot) && c.diodeCheck)
    && (d.state == B ==> d.activationMode == 30 && pilot == V9)
  }

  lemma AfterA(cfg: Config, c: Control, pilot: Pilot, available: bool)
    requires c.state in {A, B1, CommB}
    ensures FirstDrawn(cfg, c, pilot, available, HandleA(cfg, c, pilot, available))
  {
    MayConnectExactly(c, pilot);
    assert c.state == CommB || c.pilotDisconnected || pilot == V12 ==> !Recognised(c, pilot);
    hide MayConnect, SetState, Unplugged, PluggedIn, Connecting;
    if !c.pilotDisconnected && pilot == V12 {
      UnpluggedEnds(cfg, c);
    } else if Recognised(c, pilot) {
      PluggedInLeads(cfg, c, available);
    }
    hide Recognised;
  }

  /** A state that was entered by the first handlers stays for the others. */
  lemma RestStays(cfg: Config, d: Control, pilot: Pilot, available: bool, after: Control)
    requires d.state in {A, B1, CommB, ModemRequest} || (d.state == B && pilot == V9 && d.activationMode == 30)
    ensures var e := AfterB(cfg, HandleB(cfg, HandleCommBOk(cfg, d), pilot, available, after), pilot);
            e.state == d.state && e.errors == d.errors && e.access == d.access && e.diodeCheck == d.diodeCheck
  {
    hide SetState;
  }

  lemma FromUnconnected(cfg: Config, c: Control, pilot: Pilot, available: bool, after: Control)
    requires c.state in {A, B1, CommB}
    ensures Drawn(cfg, c, pilot, available, after, Tick10ms(cfg, c, pilot, available, after))
  {
    AfterA(cfg, c, pilot, available);
    var d := HandleA(cfg, c, pilot, available);
    FirstStates(cfg, c, pilot, available);
    hide HandleA, Next10, Recognised;
    RestStays(cfg, d, pilot, available, after);
    FirstIsDrawn(cfg, c, pilot, available, after, d, Tick10ms(cfg, c, pilot, available, after));
  }

  lemma FirstStates(cfg: Config, c: Control, pilot: Pilot, available: bool)
    requires c.state in {A, B1, CommB}
    ensures Next10(cfg, c, pilot, available) in {A, B1, CommB, ModemRequest, B}
  {
  }

  lemma FirstIsDrawn(cfg: Config, c: Control, pilot: Pilot, available: bool, after: Control, d: Control, e: Control)
    requires c.state in {A, B1, CommB} && FirstDrawn(cfg, c, pilot, available, d)
    requires e.state == d.state && e.errors == d.errors && e.access == d.access && e.diodeCheck == d.diodeCheck
    ensures Drawn(cfg, c, pilot, available, after, e)
  {
    assert !Requested(c, pilot);
    hide Next10, Recognised, Requested;
    assert e.state == Next10(cfg, c, pilot, available);
  }

  lemma CommBOkIsB(cfg: Config, c: Control)
    requires c.state == CommBOk
    ensures var b := HandleCommBOk(cfg, c);
            && b.state == B && b.errors == c.errors && b.access == c.access && b.diodeCheck == c.diodeCheck
            && b.stateTimer == c.stateTimer && b.chargeDelay == c.chargeDelay && b.activationMode == 30
  {
    hide CheckSwitchingPhases;
  }

  lemma MayChargeExactly(c: Control, pilot: Pilot)
    requires c.state in {B, CommC}
    ensures MayCharge(c, pilot) <==> Requested(c, pilot)
  {
  }

  /** The request handler on an unplugged car. */
  lemma RequestEnds(cfg: Config, b: Control, available: bool, after: Control)
    requires b.state in {B, CommC}
    ensures Drawn(cfg, b, V12, available, after, SetState(cfg, b, A))
  {
    VisitEnds(cfg, b);
    hide SetState;
  }

  /** The request handler on a reading of 6 V. */
  lemma RequestCounts(cfg: Config, b: Control, available: bool, after: Control, d: Control)
    requires b.state in {B, CommC} && after.access == b.access
    requires d == HandleB(cfg, b, V6, available, after)
    ensures Drawn(cfg, b, V6, available, after, d)
  {
    MayChargeExactly(b, V6);
    assert !Recognised(b, V6);
    hide SetState, MayCharge, Recognised, Requested;
    var k := Counted(b);
    if !Requested(b, V6) {
      assert d == k;
    } else if cfg.loadBl > 1 {
      assert d == if b.state != CommC then SetState(cfg, k, CommC) else k;
    } else if available {
      assert d == SetState(cfg, after.(diodeCheck := false), C);
    } else {
      assert d == k.(errors := k.errors.(less6A := true));
    }
    hide HandleB;
  }

  /** The request handler on any other reading. */
  lemma RequestWaits(cfg: Config, b: Control, pilot: Pilot, available: bool, after: Control, d: Control)
    requires b.state in {B, CommC} && pilot !in {V12, V6}
    requires d == HandleB(cfg, b, pilot, available, after)
    ensures Drawn(cfg, b, pilot, available, after, d) && d.state in {b.state, ActStart}
    ensures d.state == ActStart ==> d.activationTimer == 3
  {
    assert !Requested(b, pilot) && !Recognised(b, pilot);
    hide SetState, Recognised, Requested;
    if pilot == V9 {
      var k := b.(stateTimer := 0);
      assert d == if b.activationMode == 0 then SetState(cfg, k, ActStart).(activationTimer := 3) else k;
    } else {
      assert d == if pilot == Diode then b.(diodeCheck := true) else b;
    }
    hide HandleB;
  }

  lemma RequestHandled(cfg: Config, b: Control, pilot: Pilot, available: bool, after: Control)
    requires b.state in {B, CommC} && after.access == b.access
    ensures var d := HandleB(cfg, b, pilot, available, after);
            Drawn(cfg, b, pilot, available, after, d) && (d.state == C ==> pilot == V6)
                && (d.state == ActStart ==> d.activationTimer == 3) && d.state in {A, B, CommC, C, ActStart}
  {
    var d := HandleB(cfg, b, pilot, available, after);
    if pilot == V12 {
      RequestEnds(cfg, b, available, after);
    } else if pilot == V6 {
      RequestCounts(cfg, b, available, after, d);
      assert Next10(cfg, b, V6, available) in {B, CommC, C};
    } else {
      RequestWaits(cfg, b, pilot, available, after, d);
    }
    hide Drawn, HandleB, SetState;
  }

  lemma OthersRest(cfg: Config, d: Control, pilot: Pilot)
    requires || d.state in {A, B, CommC} || (d.state == C && pilot == V6)
             || (d.state == ActStart && d.activationTimer == 3)
    ensures var e := AfterB(cfg, d, pilot);
            e.state == d.state && e.errors == d.errors && e.access == d.access && e.diodeCheck == d.diodeCheck
  {
    hide SetState;
  }

  /** A granted connection is one before the request is handled. */
  lemma BeforeRequest(cfg: Config, c: Control, pilot: Pilot, available: bool)
    requires c.state in {B, CommC, CommBOk}
    ensures var b := BeforeB(cfg, c, pilot, available);
            && b.state == (if c.state == CommC then CommC else B)
            && b.errors == c.errors && b.access == c.access && b.diodeCheck == c.diodeCheck
            && b.stateTimer == c.stateTimer && b.chargeDelay == c.chargeDelay
            && b.activationMode == if c.state == CommBOk then 30 else c.activationMode
  {
    assert HandleA(cfg, c, pilot, available) == c;
    hide HandleA, SetState;
    if c.state == CommBOk {
      CommBOkIsB(cfg, c);
    }
  }

  lemma FromConnected(cfg: Config, c: Control, pilot: Pilot, available: bool, after: Control)
    requires c.state in {B, CommC, CommBOk} && after.access == c.access
    ensures Drawn(cfg, c, pilot, available, after, Tick10ms(cfg, c, pilot, available, after))
  {
    hide BeforeB, HandleB, AfterB, Next10, Requested, Recognised, Marked;
    var b := BeforeB(cfg, c, pilot, available);
    BeforeRequest(cfg, c, pilot, available);
    RequestHandled(cfg, b, pilot, available, after);
    OthersRest(cfg, HandleB(cfg, b, pilot, available, after), pilot);
    var d := Tick10ms(cfg, c, pilot, available, after);
    SameMarks(cfg, b, pilot, available, after, HandleB(cfg, b, pilot, available, after), d);
    SameDrawing(cfg, c, b, pilot, available, after, d);
  }

  lemma SameMarks(cfg: Config, c: Control, pilot: Pilot, available: bool, after: Control, d: Control, e: Control)
    requires Marked(cfg, c, pilot, available, after, d)
    requires e.state == d.state && e.errors == d.errors && e.access == d.access && e.diodeCheck == d.diodeCheck
    ensures Marked(cfg, c, pilot, available, after, e)
  {
  }

  /** A granted connection is handled as a connection. */
  lemma SameDrawing(cfg: Config, c: Control, b: Control, pilot: Pilot, available: bool, after: Control, d: Control)
    requires c.state in {B, CommC, CommBOk} && b.state == (if c.state == CommC then CommC else B)
    requires b.errors == c.errors && b.access == c.access && b.diodeCheck == c.diodeCheck
    requires b.stateTimer == c.stateTimer && b.chargeDelay == c.chargeDelay
    requires b.activationMode == if c.state == CommBOk then 30 else c.activationMode
    requires Drawn(cfg, b, pilot, available, after, d)
    ensures Drawn(cfg, c, pilot, available, after, d)
  {
    assert Requested(b, pilot) == Requested(c, pilot);
    assert !Recognised(c, pilot) && !Recognised(b, pilot);
    hide Requested, Recognised;
    assert d.state == Next10(cfg, c, pilot, available);
    AccessOfA(c, pilot, d.state, after, available, cfg);
    hide Next10;
  }

  lemma AccessOfA(c: Control, pilot: Pilot, next: State, after: Control, available: bool, cfg: Config)
    ensures c.state == CommC ==> Access10(c, next) == c.access
  {
  }

  lemma FirstHandlersRest(cfg: Config, c: Control, pilot: Pilot, available: bool, after: Control)
    requires c.state !in {A, B1, CommB, B, CommC, CommBOk}
    ensures HandleB(cfg, BeforeB(cfg, c, pilot, available), pilot, available, after) == c
  {
    hide SetState;
  }

  lemma FromC1(cfg: Config, c: Control, pilot: Pilot, available: bool, after: Control)
    requires c.state == C1
    ensures Drawn(cfg, c, pilot, available, after, HandleC1(cfg, c, pilot))
    ensures AfterB(cfg, c, pilot) == HandleC1(cfg, c, pilot)
  {
    VisitEnds(cfg, c);
    hide SetState;
    assert !Recognised(c, pilot) && !Requested(c, pilot);
    hide Recognised, Requested;
  }

  lemma FromActStart(cfg: Config, c: Control, pilot: Pilot, available: bool, after: Control)
    requires c.state == ActStart
    ensures Drawn(cfg, c, pilot, available, after, AfterB(cfg, c, pilot))
  {
    hide SetState;
    assert !Recognised(c, pilot) && !Requested(c, pilot);
    hide Recognised, Requested;
  }

  lemma FromCharging(cfg: Config, c: Control, pilot: Pilot, available: bool, after: Control)
    requires c.state == C
    ensures Drawn(cfg, c, pilot, available, after, HandleC(cfg, c, pilot))
  {
    VisitEnds(cfg, c);
    hide SetState;
    assert !Recognised(c, pilot) && !Requested(c, pilot);
    hide Recognised, Requested;
  }

  lemma LastHandlers(cfg: Config, c: Control, pilot: Pilot, available: bool, after: Control)
    requires c.state !in {A, B1, CommB, B, CommC, CommBOk, CommCOk}
    ensures Drawn(cfg, c, pilot, available, after, AfterB(cfg, c, pilot))
  {
    if c.state == C1 {
      FromC1(cfg, c, pilot, available, after);
    } else if c.state == ActStart {
      FromActStart(cfg, c, pilot, available, after);
    } else if c.state == C {
      FromCharging(cfg, c, pilot, available, after);
      hide Drawn;
    } else {
      hide SetState;
      assert AfterB(cfg, c, pilot) == c;
    }
  }

  lemma GrantedHandlers(cfg: Config, c: Control, pilot: Pilot, available: bool, after: Control)
    requires c.state == CommCOk
    ensures Drawn(cfg, c, pilot, available, after, AfterB(cfg, c, pilot))
  {
    assert !Recognised(c, pilot) && !Requested(c, pilot);
    var x := SetState(cfg, c.(diodeCheck := false), C);
    assert x.stateTimer == c.stateTimer;
    VisitEnds(cfg, x);
    hide SetState, Recognised, Requested;
    assert AfterB(cfg, c, pilot) == HandleC(cfg, x, pilot);
    hide AfterB;
  }

  lemma FromOthers(cfg: Config, c: Control, pilot: Pilot, available: bool, after: Control)
    requires c.state !in {A, B1, CommB, B, CommC, CommBOk}
    ensures Drawn(cfg, c, pilot, available, after, Tick10ms(cfg, c, pilot, available, after))
  {
    FirstHandlersRest(cfg, c, pilot, available, after);
    hide BeforeB, HandleB, AfterB, Drawn;
    if c.state == CommCOk {
      GrantedHandlers(cfg, c, pilot, available, after);
    } else {
      LastHandlers(cfg, c, pilot, available, after);
    }
  }

  /** The whole 10 ms tick leads where the diagram says. */
  lemma {:induction false} TenMilliseconds(cfg: Config, c: Control, pilot: Pilot, available: bool, after: Control)
    requires Balanced(Requesting(cfg, c, pilot, available), after)
    ensures Drawn(cfg, c, pilot, available, after, Tick10ms(cfg, c, pilot, available, after))
  {
    if c.state in {B, CommC, CommBOk} {
      AskedAccess(cfg, c, pilot, available);
    }
    hide Tick10ms, Drawn, Requesting;
    if c.state in {A, B1, CommB} {
      FromUnconnected(cfg, c, pilot, available, after);
    } else if c.state in {B, CommC, CommBOk} {
      FromConnected(cfg, c, pilot, available, after);
    } else {
      FromOthers(cfg, c, pilot, available, after);
    }
  }

  lemma AskedAccess(cfg: Config, c: Control, pilot: Pilot, available: bool)
    requires c.state in {B, CommC, CommBOk}
    ensures Requesting(cfg, c, pilot, available).access == c.access
  {
    hide CheckSwitchingPhases;
  }
}
