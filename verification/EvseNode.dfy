/** A node under a master charges without authorization when it is withdrawn at the wrong time. */
module EvseNode {
  import opened EvseTypes
  import opened EvseControl
  import opened EvseSteps
  import opened EvseInvariant

  /** A run under settings that never change. */
  ghost predicate Steady(r: Run, cfg: Config) {
    Follows(r) && Initial(r.states[0]) && r.settings == seq(|r.states|, _ => cfg)
  }

  lemma SteadyExtends(r: Run, cfg: Config, e: Event, c: Control)
    requires Steady(r, cfg) && Step(cfg, Last(r), e, cfg, c)
    ensures Steady(Then(r, e, cfg, c), cfg) && Last(Then(r, e, cfg, c)) == c
  {
    hide Step, StepAt, Initial;
    RunExtends(r, e, cfg, c);
  }

  /** A 10 ms tick of a node, which leaves all questions about current to the master. */
  function Ticked(cfg: Config, c: Control, pilot: Pilot): Control {
    Tick10ms(cfg, c, pilot, false, Requesting(cfg, c, pilot, false))
  }

  lemma StepTick10(cfg: Config, c: Control, pilot: Pilot)
    ensures Step(cfg, c, Tick10(pilot, false), cfg, Ticked(cfg, c, pilot))
  {
    hide Tick10ms, Requesting;
    assert Balanced(Requesting(cfg, c, pilot, false), Requesting(cfg, c, pilot, false));
  }

  predicate Ready(c: Control, s: State) {
    c.state == s && c.access == On && NoError(c.errors) && c.chargeDelay == 0 && !c.pilotDisconnected
  }

  lemma Plugs(cfg: Config, c: Control)
    requires cfg.loadBl > 1 && Ready(c, A)
    ensures Ready(Ticked(cfg, c, V9), CommB)
  {
  }

  lemma Connected(cfg: Config, c: Control)
    requires Ready(c, CommBOk)
    ensures Ready(Ticked(cfg, c, V9), B) && Ticked(cfg, c, V9).stateTimer == 0
  {
    hide CheckSwitchingPhases;
  }

  lemma DiodeSeen(cfg: Config, c: Control)
    requires Ready(c, B)
    ensures Ticked(cfg, c, Diode) == c.(diodeCheck := true)
  {
    hide SetState;
  }

  lemma Requests(cfg: Config, c: Control)
    requires cfg.loadBl > 1 && Ready(c, B) && c.diodeCheck && c.stateTimer <= 50
    ensures var d := Ticked(cfg, c, V6);
            if c.stateTimer < 50 then d == c.(stateTimer := c.stateTimer + 1) else Ready(d, CommC)
  {
  }

  lemma Charges(cfg: Config, c: Control)
    requires c.state == CommCOk
    ensures Ticked(cfg, c, V6).state == C && Ticked(cfg, c, V6).access == c.access
  {
  }

  /** From a connected node to its request: n readings of 6 V to go. */
  lemma {:induction false} Debounced(r: Run, cfg: Config, n: nat) returns (t: Run)
    requires Steady(r, cfg) && cfg.loadBl > 1
    requires Ready(Last(r), B) && Last(r).diodeCheck && Last(r).stateTimer + n == 50
    ensures Steady(t, cfg) && t.states[0] == r.states[0] && Ready(Last(t), CommC)
    decreases n
  {
    hide Step, Ready, Ticked;
    var d := Ticked(cfg, Last(r), V6);
    StepTick10(cfg, Last(r), V6);
    SteadyExtends(r, cfg, Tick10(V6, false), d);
    t := Then(r, Tick10(V6, false), cfg, d);
    Requests(cfg, Last(r));
    if n > 0 {
      StillReady(Last(r));
      t := Debounced(t, cfg, n - 1);
    }
  }

  lemma StillReady(c: Control)
    ensures Ready(c, B) ==> Ready(c.(stateTimer := c.stateTimer + 1), B)
  {
  }

  lemma Take(r: Run, cfg: Config, e: Event, c: Control) returns (t: Run)
    requires Steady(r, cfg)
    requires match e
             case Authorize(access) => c == SetAccess(cfg, Last(r), access)
             case MasterGrants => c == Granted(cfg, Last(r))
             case _ => false
    ensures Steady(t, cfg) && t.states[0] == r.states[0] && Last(t) == c
  {
    hide SetAccess, Granted, Initial, TickOf10, Balanced, Changed;
    t := Then(r, e, cfg, c);
    SteadyExtends(r, cfg, e, c);
  }

  lemma Ticks(r: Run, cfg: Config, pilot: Pilot) returns (t: Run)
    requires Steady(r, cfg)
    ensures Steady(t, cfg) && t.states[0] == r.states[0] && Last(t) == Ticked(cfg, Last(r), pilot)
  {
    hide Step, Ticked;
    StepTick10(cfg, Last(r), pilot);
    SteadyExtends(r, cfg, Tick10(pilot, false), Ticked(cfg, Last(r), pilot));
    t := Then(r, Tick10(pilot, false), cfg, Ticked(cfg, Last(r), pilot));
  }

  /** Authorized, plugged in, granted by the master, and its diode seen. */
  lemma {:induction false} NodeConnects(cfg: Config, c: Control) returns (r: Run)
    requires cfg.loadBl > 1 && Initial(c)
    ensures Steady(r, cfg) && r.states[0] == c
    ensures Ready(Last(r), B) && Last(r).diodeCheck && Last(r).stateTimer == 0
  {
    hide Step, Ticked;
    r := Run([cfg], [c], []);
    assert Steady(r, cfg);
    r := Take(r, cfg, Authorize(On), c.(access := On));
    Plugs(cfg, Last(r));
    r := Ticks(r, cfg, V9);
    r := Take(r, cfg, MasterGrants, Last(r).(state := CommBOk));
    hide Initial, Steady, NoError;
    Connected(cfg, Last(r));
    r := Ticks(r, cfg, V9);
    DiodeSeen(cfg, Last(r));
    r := Ticks(r, cfg, Diode);
  }

  /** Every node under a master has a run after which it charges without authorization: its request
      for current is pending when evse_set_access withdraws the authorization. */
  lemma {:induction false} NodeChargesUnauthorized(cfg: Config, c: Control) returns (r: Run)
    requires cfg.loadBl > 1 && Initial(c)
    ensures Steady(r, cfg) && r.states[0] == c
    ensures Last(r).state == C && Last(r).access == Off && !Permitted(Last(r))
  {
    hide Ticked, Initial, NoError, TickOf10, Step;
    r := NodeConnects(cfg, c);
    r := Debounced(r, cfg, 50);
    r := Take(r, cfg, Authorize(Off), Last(r).(access := Off));
    r := Take(r, cfg, MasterGrants, Last(r).(state := CommCOk));
    Charges(cfg, Last(r));
    r := Ticks(r, cfg, V6);
  }
}
