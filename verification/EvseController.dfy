/** The controller: what evse_ctx_t holds, and the functions that update it.  Every operation is
    proved against its specification; what the specifications mean is in the other modules. */
module EvseController {
  import opened CArithmetic
  import opened EvseTypes
  import opened EvseControl
  import opened EvseRegulation
  import opened EvseJudgement
  import opened EvseAllocation
  import opened EvseTicks
  import opened Priority
  import Steps = EvseSteps
  import Invariant = EvseInvariant
  import Runs = EvseRuns
  import Diagram = EvseDiagram
  import Seconds = EvseSeconds
  import Timers = EvseTimers
  import Countdowns = EvseCountdowns
  import Limits = EvseLimits
  import Shortage
  import Surplus
  import Distribution
  import Rotation

  class Controller {
    var config: Config
    var control: Control
    var regulator: Regulator
    // for every node; this controller is node 0
    var states: seq<State>
    var max: seq<nat>
    var prev: seq<nat>
    const balanced: array<nat>
    const schedule: array<Schedule>
    const nodeErrors: array<bv16>
    const idle: array<nat>
    const connected: array<nat>
    const priority: array<nat>
    var rotationTimer: nat
    var uptime: nat

    ghost predicate Valid()
      reads this
    {
      |states| > 0 && states[0] == control.state
    }

    ghost predicate Apart() {
      && Rotation.Separate(schedule, connected, idle, balanced, priority)
      && nodeErrors as object != schedule && nodeErrors as object !in {connected, idle, balanced, priority}
    }

    /** The tables have one entry for every node; the minimum current fits the table. */
    ghost predicate Complete()
      reads this
    {
      && Valid() && Apart() && config.minCurrent * 10 < 0x1_0000
      && |states| == |max| == |prev| == balanced.Length == schedule.Length == nodeErrors.Length
      && |states| == idle.Length == connected.Length == priority.Length
    }

    ghost function Nodes(): (f: Fleet)
      requires Complete()
      reads this, balanced, schedule, nodeErrors, idle, connected
      ensures Sized(f) && |f.states| == |states|
    {
      Fleet(states, balanced[..], max, prev, schedule[..], nodeErrors[..], idle[..], connected[..])
    }

    /** evse_init, for n nodes and the given settings. */
    constructor (n: nat, settings: Config)
      requires n > 0 && settings.minCurrent * 10 < 0x1_0000
      ensures Complete() && config == settings && |states| == n
      ensures Steps.Initial(control) && Invariant.Safe(true, config.loadBl, control)
      ensures Nodes() == Fleet(seq(n, _ => A), seq(n, _ => 0), seq(n, _ => 0), seq(n, _ => 0),
                               seq(n, _ => Inactive), seq(n, _ => 0), seq(n, _ => 0), seq(n, _ => 0))
      ensures rotationTimer == uptime == 0 && regulator == IdleRegulator()
      ensures fresh(balanced) && fresh(schedule) && fresh(nodeErrors) && fresh(idle) && fresh(connected)
              && fresh(priority)
    {
      config := settings;
      control := Control(A, Off, Errors(false, false, false, false, false),
                         0, 0, 0, 0, 0, 0,                       // delays, counters and timers
                         3, NoSwitch,
                         0, 0, 0, 0, 0, -1,                      // modem
                         false, false, 0, DISABLED, 0, COMM_TIMEOUT, COMM_EV_TIMEOUT, false, false);
      regulator := IdleRegulator();
      states, max, prev := seq(n, _ => A), seq(n, _ => 0), seq(n, _ => 0);
      balanced := new nat[n](_ => 0);
      schedule := new Schedule[n](_ => Inactive);
      nodeErrors := new bv16[n](_ => 0);
      idle := new nat[n](_ => 0);
      connected := new nat[n](_ => 0);
      priority := new nat[n](i => i);
      rotationTimer, uptime := 0, 0;
      new;
      hide Invariant.Safe, IdleRegulator;
      Invariant.SafeInitially(true, config.loadBl, control);
    }

    // ---------------------------------------------------------------- transitions

    /** check_switching_phases. */
    method CheckPhases()
      modifies this`control
      ensures control == CheckSwitchingPhases(config, old(control))
      ensures Steps.Step(config, old(control), Steps.CheckPhases, config, control)
    {
      if config.enableC2 != Auto {
        if ForceSinglePhase(config, control.nrPhases) {
          if control.nrPhases != 1 {
            if control.state != A {
              control := control.(switching := To1P);
            } else {
              control := control.(nrPhases := 1);
            }
          } else {
            control := control.(switching := NoSwitch);
          }
        } else {
          if control.nrPhases != 3 {
            if control.state != A {
              control := control.(switching := To3P);
            } else {
              control := control.(nrPhases := 3);
            }
          } else {
            control := control.(switching := NoSwitch);
          }
        }
      } else if config.mode == Smart {
        if control.nrPhases != 3 {
          control := control.(switching := To3P);
        } else {
          control := control.(switching := NoSwitch);
        }
      }
    }

    method ToB1()
      modifies this`control
      ensures control == EnterB1(old(control))
    {
      if control.chargeDelay == 0 {
        control := control.(chargeDelay := 3);
      }
      if control.state != B1 && !control.pilotDisconnected && control.access == On {
        control := control.(pilotDisconnected := true, pilotDisconnectTime := 5);
      }
      control := control.(contactor1 := false, contactor2 := false);
    }

    /** evse_enter_state_a and what precedes it. */
    method ToA()
      modifies this`control
      ensures control == EnterA(config, old(control))
    {
      control := control.(contactor1 := false, contactor2 := false, modemStage := 0);
      if config.modemEnabled && control.disconnectCounter == -1 {
        control := control.(disconnectCounter := 0);
      }
      control := control.(errors := control.errors.(less6A := false), chargeDelay := 0);
      if control.state == C || control.state == C1 || control.state == B || control.state == B1 {
        control := control.(access := Off, accessTimer := 0);
      }
    }

    method ToB()
      modifies this`control
      ensures control == EnterB(config, old(control))
    {
      hide CheckSwitchingPhases;
      CheckPhases();
      if config.modemEnabled {
        control := control.(disconnectCounter := -1);
      }
      control := control.(contactor1 := false, contactor2 := false);
    }

    method ToC()
      modifies this`control
      ensures control == EnterC(config, old(control))
    {
      control := control.(activationMode := DISABLED);
      if control.switching == To1P {
        control := control.(nrPhases := 1);
      } else if control.switching == To3P {
        control := control.(nrPhases := 3);
      }
      control := control.(contactor1 := true);
      if !ForceSinglePhase(config, control.nrPhases) {
        control := control.(contactor2 := true, nrPhases := 3);
      } else {
        control := control.(contactor2 := false, nrPhases := 1);
      }
      control := control.(maxSumMainsTimer := 0, switching := NoSwitch);
    }

    /** evse_set_state. */
    method GoTo(s: State)
      requires Valid()
      modifies this`control, this`states
      ensures Valid() && control == SetState(config, old(control), s) && states == old(states)[0 := s]
    {
      hide EnterA, EnterB1, EnterB, EnterC;
      match s {
        case B1 => ToB1();
        case A => ToA();
        case ModemRequest =>
          control := control.(toModemWait := 0, disconnectCounter := -1, contactor1 := false, contactor2 := false);
        case ModemWait => control := control.(toModemDone := 60);
        case ModemDone => control := control.(disconnectCounter := -1, leaveModemDone := 5);
        case B => ToB();
        case C => ToC();
        case C1 => control := control.(c1Timer := 6, chargeDelay := 15);
        case _ =>
      }
      control := control.(state := s);
      states := states[0 := s];
    }

    /** Lines 274-281. */
    method LeavePower()
      requires Valid()
      modifies this`control, this`states
      ensures Valid() && control == SetPowerUnavailable(config, old(control))
              && states == old(states)[0 := control.state]
    {
      hide SetState;
      if control.state == A {
        return;
      }
      if control.state == C {
        GoTo(C1);
      } else if control.state != C1 && control.state != B1 {
        GoTo(B1);
      }
    }

    /** evse_set_power_unavailable. */
    method LosePower()
      requires Valid()
      modifies this`control, this`states
      ensures Valid() && control == SetPowerUnavailable(config, old(control))
              && states == old(states)[0 := control.state]
      ensures Steps.Step(config, old(control), Steps.PowerLost, config, control)
      ensures Invariant.Preserved(config.loadBl, old(control), Steps.PowerLost, control)
      ensures control.state != C
    {
      hide SetState, Invariant.Preserved;
      ghost var c := control;
      LeavePower();
      Invariant.StepPreserves(config, c, Steps.PowerLost, control);
    }
    /** Lines 300-313. */
    method Permit(access: Access)
      requires Valid()
      modifies this`control, this`states
      ensures Valid() && control == SetAccess(config, old(control), access) && states == old(states)[0 := control.state]
    {
      hide SetState;
      control := control.(access := access);
      if access == Off || access == Pause {
        if control.state == C {
          GoTo(C1);
        } else if control.state != C1
               && (control.state == B || control.state == ModemRequest || control.state == ModemWait
                   || control.state == ModemDone || control.state == ModemDenied) {
          GoTo(B1);
        }
      }
    }

    /** evse_set_access. */
    method Authorize(access: Access)
      requires Valid()
      modifies this`control, this`states
      ensures Valid() && control == SetAccess(config, old(control), access) && states == old(states)[0 := control.state]
      ensures Steps.Step(config, old(control), Steps.Authorize(access), config, control)
      ensures Invariant.Preserved(config.loadBl, old(control), Steps.Authorize(access), control)
      ensures access != On ==> control.state != C
    {
      hide SetState, Invariant.Preserved;
      ghost var c := control;
      Permit(access);
      Invariant.StepPreserves(config, c, Steps.Authorize(access), control);
    }

    // ---------------------------------------------------------------- current

    /** What evse_is_current_available answers. */
    ghost predicate CanGrant()
      requires Complete()
      reads this, balanced
    {
      Available(config, control.nrPhases, |states|, LoadOf(states, balanced[..]))
    }

    /** evse_is_current_available. */
    method IsCurrentAvailable() returns (available: bool)
      requires Complete()
      ensures available == CanGrant()
    {
      hide Available;
      var active: nat, total: nat := 0, 0;
      ghost var ones, drawn :=
        Shortage.Drawn(states, Distribution.Ones(|states|)), Shortage.Drawn(states, balanced[..]);
      for i := 0 to |states|
        invariant active == Shortage.Sum(ones[..i]) && total == Shortage.Sum(drawn[..i])
      {
        Shortage.SumNext(ones, i);
        Shortage.SumNext(drawn, i);
        if states[i] == C {
          active := active + 1;
          total := total + balanced[i];
        }
      }
      assert ones[..|states|] == ones && drawn[..|states|] == drawn;
      available := Fits(Survey(active, 0, total));
    }

    /** The checks of evse_is_current_available for a survey. */
    method Fits(s: Survey) returns (available: bool)
      requires |states| > 0
      ensures available == Available(config, control.nrPhases, |states|, s)
    {
      var active := s.active + 1;
      if active > |states| {
        active := |states|;
      }
      var wanted := active * (config.minCurrent * 10);
      if config.mode != Normal && wanted + Baseload(config, s) > config.maxMains * 10 {
        return false;
      }
      if CircuitGuarded(config) && wanted + BaseloadEv(config, s) > config.maxCircuit * 10 {
        return false;
      }
      var phases := 1;
      if config.loadBl == 0 {
        phases := if ForceSinglePhase(config, control.nrPhases) then 1 else 3;
      }
      if config.mode != Normal && config.maxSumMains != 0 && phases * wanted + config.isum > config.maxSumMains * 10 {
        return false;
      }
      if config.loadBl == 0 && config.ocppLimit.Some? && config.ocppLimit.value < config.minCurrent * 10 {
        return false;
      }
      return true;
    }

    // ---------------------------------------------------------------- regulation

    /** Lines 634-654. */
    method LimitOwnCurrent()
      requires Valid() && |max| == |states|
      modifies this`regulator, this`max
      ensures regulator == old(regulator).(chargeCurrent := ChargeCurrent(config, states[0]))
      ensures max == old(max)[0 := regulator.chargeCurrent]
    {
      var current: nat;
      if states[0] == C && config.maxCurrent > config.maxCapacity && !config.fixedCable {
        current := ToUint16(config.maxCapacity * 10);
      } else {
        current := ToUint16(config.maxCurrent * 10);
      }
      if config.ocppLimit.Some? && config.loadBl == 0 {
        if config.ocppLimit.value < config.minCurrent * 10 {
          current := 0;
        } else {
          var limit := ToUint16(config.ocppLimit.value);
          if limit < current {
            current := limit;
          }
        }
      }
      if config.overrideCurrent != 0 {
        current := config.overrideCurrent;
      }
      regulator := regulator.(chargeCurrent := current);
      max := max[0 := current];
    }

    /** Lines 656-663. */
    method TakeSurvey() returns (s: Survey)
      requires Complete()
      ensures s == SurveyOf(Nodes())
    {
      var active: nat, activeMax: nat, total: nat := 0, 0, 0;
      ghost var ones, maxima, drawn :=
        Shortage.Drawn(states, Distribution.Ones(|states|)), Shortage.Drawn(states, max),
            Shortage.Drawn(states, balanced[..]);
      for i := 0 to |states|
        invariant active == Shortage.Sum(ones[..i]) && activeMax == Shortage.Sum(maxima[..i])
                  && total == Shortage.Sum(drawn[..i])
      {
        Shortage.SumNext(ones, i);
        Shortage.SumNext(maxima, i);
        Shortage.SumNext(drawn, i);
        if states[i] == C {
          active := active + 1;
          activeMax := activeMax + max[i];
          total := total + balanced[i];
        }
      }
      assert ones[..|states|] == ones && maxima[..|states|] == maxima && drawn[..|states|] == drawn;
      s := Survey(active, activeMax, total);
    }

    /** Lines 735-754. */
    method CountOscillation(headroom: int)
      modifies this`regulator
      ensures regulator == old(regulator).(oscillation :=
                Oscillation(config, old(regulator.oscillation), old(regulator.idiffPrev), headroom))
    {
      if regulator.idiffPrev != 0 && headroom != 0 {
        var signFlip := (regulator.idiffPrev > 0 && headroom < 0) || (regulator.idiffPrev < 0 && headroom > 0);
        if signFlip {
          if regulator.oscillation < config.boostMax {
            regulator := regulator.(oscillation := regulator.oscillation + 1);
          }
        } else {
          var decay := if config.loadBl == 0 then 2 else 1;
          regulator := regulator.(oscillation :=
            if regulator.oscillation > decay then regulator.oscillation - decay else 0);
        }
      }
    }

    /** Lines 765-768. */
    method FilterHeadroom(headroom: int)
      modifies this`regulator
      ensures regulator == old(regulator).(idiffFiltered :=
                                           Mean(FilterWeight(config), 4, old(regulator.idiffFiltered), headroom))
    {
      hide Mean;
      var w := config.idiffWeight;
      if w < 1 {
        w := 1;
      }
      if w > 4 {
        w := 4;
      }
      regulator := regulator.(idiffFiltered := Mean(w, 4, regulator.idiffFiltered, headroom));
    }

    /** Lines 732-780. */
    method Correct()
      modifies this`regulator
      ensures regulator == Corrected(config, old(regulator))
    {
      hide Headroom, Mean, Oscillation, FilterWeight, TruncDiv;
      var headroom := Headroom(config);
      var divisor := if config.rampDivisor > 0 then config.rampDivisor else 1;
      CountOscillation(headroom);
      regulator := regulator.(idiffPrev := headroom);
      divisor := divisor + regulator.oscillation;
      FilterHeadroom(headroom);
      var size := if regulator.idiffFiltered < 0 then -regulator.idiffFiltered else regulator.idiffFiltered;
      if size >= config.deadBand {
        regulator := regulator.(isetBalanced := regulator.isetBalanced + TruncDiv(regulator.idiffFiltered, divisor));
      }
      regulator := regulator.(isetPrev := regulator.isetBalanced);
    }

    method Lower(limit: int)
      modifies this`regulator
      ensures regulator == old(regulator).(isetBalanced := Min(old(regulator.isetBalanced), limit))
    {
      if limit < regulator.isetBalanced {
        regulator := regulator.(isetBalanced := limit);
      }
    }

    /** Lines 792-803 and 817-828. */
    method LowerPerPhase()
      modifies this`regulator
      ensures regulator == old(regulator).(isetBalanced :=
                                           PerPhase(config, control.nrPhases, old(regulator.isetBalanced)))
    {
      var phases := if ForceSinglePhase(config, control.nrPhases) then 1 else 3;
      if config.capacityHeadroom < NO_LIMIT {
        Lower(TruncDiv(config.capacityHeadroom, phases));
      }
      if config.maxCircuitMains != 0 {
        Lower(TruncDiv(config.maxCircuitMains * 10 - config.circuitMeasured, phases));
      }
    }

    /** Lines 786-804. */
    method Join(s: Survey)
      modifies this`regulator
      ensures regulator == old(regulator).(isetBalanced := Joining(config, control.nrPhases, s))
    {
      hide PerPhase;
      regulator := regulator.(isetBalanced :=
        Min(config.maxMains * 10 - Baseload(config, s), config.maxCircuit * 10 - BaseloadEv(config, s)));
      if config.maxSumMains != 0 {
        Lower(TruncDiv(config.maxSumMains * 10 - config.isum, 3));
      }
      LowerPerPhase();
    }

    /** Lines 807-828. */
    method Guard(s: Survey)
      modifies this`regulator
      ensures regulator == old(regulator).(isetBalanced :=
                                           Guarded(config, control.nrPhases, s, old(regulator.isetBalanced)))
    {
      hide PerPhase, Baseload, BaseloadEv;
      if config.mainsMeterType != 0 && config.mode != Normal {
        Lower(config.maxMains * 10 - Baseload(config, s));
      }
      if (config.loadBl == 0 && config.evMeterType != 0 && config.mode != Normal) || config.loadBl == 1 {
        Lower(config.maxCircuit * 10 - BaseloadEv(config, s));
      }
      if config.gridRelayOpen {
        Lower(TruncDiv(config.gridRelayMax * 10, Phases(config, control.nrPhases)));
      }
      if config.mode != Normal {
        LowerPerPhase();
      }
    }

    /** Lines 673-838. */
    method SetTarget(mod: bool, s: Survey)
      modifies this`regulator
      ensures regulator == Target(config, control.nrPhases, old(regulator), mod, s)
    {
      hide Joining, Guarded, Corrected, Mean, BaseloadEv;
      if config.mode == Normal {
        if config.loadBl == 1 {
          regulator := regulator.(isetBalanced := config.maxCircuit * 10 - BaseloadEv(config, s));
        } else {
          regulator := regulator.(isetBalanced := regulator.chargeCurrent);
        }
      } else {
        if !mod && regulator.settlingTimer == 0 {
          if regulator.updated {
            Correct();
          }
          if regulator.isetBalanced < 0 {
            regulator := regulator.(isetBalanced := 0);
          }
          if regulator.isetBalanced > HARD_LIMIT {
            regulator := regulator.(isetBalanced := HARD_LIMIT);
          }
        }
        if mod && s.active > 0 {
          Join(s);
        }
      }
      Guard(s);
      if config.mode != Normal && regulator.updated {
        regulator := regulator.(isetEma := Mean(config.emaAlpha, 100, regulator.isetEma, regulator.isetBalanced));
        regulator := regulator.(isetBalanced := regulator.isetEma);
      }
    }

    // ---------------------------------------------------------------- shortage

    /** Lines 681-683 and 694-711. */
    method Note() returns (limited: bool)
      modifies this`control
      ensures control == Noted(config, old(control)) && limited == Limited(config)
    {
      limited := false;
      if config.mode == Normal {
        if control.nrPhases != 3 {
          control := control.(switching := To3P);
        }
      } else if config.maxSumMains != 0 {
        if config.maxSumMains * 10 - config.isum < 0 {
          limited := true;
        } else {
          control := control.(maxSumMainsTimer := 0);
        }
      }
    }

    method CountUp()
      modifies this`control
      ensures control == CountShortage(old(control))
    {
      if control.noCurrent < 255 {
        control := control.(noCurrent := control.noCurrent + 1);
      }
    }

    /** Lines 869-913. */
    method NoteShortage(s: Survey, limited: bool, anyActive: bool)
      requires limited == Limited(config)
      modifies this`control
      ensures control == AfterShortage(config, old(control), s, anyActive)
    {
      hide HardShortage, CountShortage, Limited;
      if config.loadBl == 1 && s.active > 1 {
        if !anyActive {
          CountUp();
        }
      } else {
        if HardShortage(config, s) && control.switching != To1P {
          CountUp();
        } else if limited && config.maxSumMainsTime != 0 {
          if control.maxSumMainsTimer == 0 {
            control := control.(maxSumMainsTimer := ToUint16(config.maxSumMainsTime * 60));
          }
        }
      }
      if control.noCurrent >= config.noCurrentThreshold && config.mode != Normal {
        control := control.(errors := control.errors.(less6A := true));
      }
    }

    // ---------------------------------------------------------------- distribution

    /** Lines 871-883: the nodes in order of priority. */
    method ShareByPriority(available: nat)
        returns (anyActive: bool, ghost order: seq<nat>, ghost mid: seq<nat>, ghost left: int)
      requires Complete()
      modifies balanced, schedule, nodeErrors, priority
      ensures Complete() && priority[..] == order
      ensures PriorityOrder(Criteria(states, connected[..], config.strategy), order, |states|)
      ensures Prioritized(order, config.minCurrent * 10, available, old(Nodes()), Nodes(), mid, left)
      ensures anyActive == (Active in schedule[..])
    {
      hide PriorityOrder, Shortage.Decision, Surplus.Gained, Surplus.Saturated, Surplus.Dealt, Shortage.Funded;
      ghost var f := Nodes();
      SortPriority(priority, Criteria(states, connected[..], config.strategy));
      order := priority[..];
      assert Nodes() == f;
      OrderPermutes(Criteria(states, connected[..], config.strategy), order);
      var surplus := Shortage.SchedulePriority(priority[..], states, config.minCurrent * 10, available,
                                               balanced, schedule, nodeErrors);
      mid := balanced[..];
      ghost var slots, errors, least := schedule[..], nodeErrors[..], config.minCurrent * 10;
      assert forall k :: 0 <= k < |order| ==>
          Shortage.Share(mid[order[k]], slots[order[k]], errors[order[k]])
          == Shortage.Decision(order, states, least, available, k,
                               Shortage.Share(f.balanced[order[k]], f.schedule[order[k]], f.errors[order[k]]));
      left := Surplus.HandoutSurplus(balanced, Surplus.Nodes(schedule[..], max), surplus);
      assert schedule[..] == slots && nodeErrors[..] == errors && idle[..] == f.idle;
      assert Surplus.HandedOut(Surplus.Nodes(slots, max), mid, balanced[..], surplus, left);
      hide Surplus.HandedOut;
      anyActive := HasActive();
    }

    method HasActive() returns (found: bool)
      ensures found == (Active in schedule[..])
    {
      found := false;
      for i := 0 to schedule.Length
        invariant found == (Active in schedule[..i])
      {
        assert schedule[..i + 1] == schedule[..i] + [schedule[i]];
        if schedule[i] == Active {
          found := true;
          assert schedule[i] in schedule[..];
          break;
        }
      }
      assert schedule[..schedule.Length] == schedule[..];
    }

    /** Lines 918-927. */
    method MarkActive()
      requires Complete()
      modifies schedule, nodeErrors, idle
      ensures Complete() && Marked(config, old(Nodes()), Nodes()) && balanced[..] == old(balanced[..])
    {
      hide Shortage.WithoutLess6A;
      if config.loadBl == 1 {
        for i := 0 to |states|
          invariant forall k :: 0 <= k < i && states[k] == C ==>
                      schedule[k] == Active && nodeErrors[k] == Shortage.WithoutLess6A(old(nodeErrors[k]))
                          && idle[k] == 0
          invariant forall k :: 0 <= k < |states| && (k >= i || states[k] != C) ==>
                      schedule[k] == old(schedule[k]) && nodeErrors[k] == old(nodeErrors[k]) && idle[k] == old(idle[k])
        {
          if states[i] == C {
            schedule[i] := Active;
            nodeErrors[i] := Shortage.WithoutLess6A(nodeErrors[i]);
            idle[i] := 0;
          }
        }
      }
    }

    /** Lines 939-970. */
    method ShareEqually(s: Survey) returns (ghost level: nat)
      requires Complete() && s == SurveyOf(Nodes()) && regulator.isetBalanced >= 0
      modifies this`regulator, balanced
      ensures Complete()
      ensures regulator == old(regulator).(isetBalanced := Min(old(regulator.isetBalanced), s.activeMax))
      ensures Shared(old(Nodes()), Nodes(), regulator.isetBalanced, level)
      ensures Nodes() == old(Nodes()).(balanced := balanced[..])
    {
      hide Distribution.Levelled, Shortage.Total, Distribution.Count;
      if regulator.isetBalanced > s.activeMax {
        regulator := regulator.(isetBalanced := s.activeMax);
      }
      level := Distribution.Distribute(balanced, states, max, regulator.isetBalanced, s.active);
    }

    /** Lines 843-914 and 934-970: there is not enough for all. */
    method ShareShortage(s: Survey, limited: bool) returns (ghost how: Account, anyActive: bool)
      requires Complete() && s == SurveyOf(Nodes()) && limited == Limited(config)
      requires InShortage(config, s, regulator.isetBalanced) && Distributing(config, regulator, s)
      modifies this`control, this`regulator, balanced, schedule, nodeErrors, priority
      ensures Complete()
      ensures Distributed(config, old(regulator.isetBalanced), old(Nodes()), Nodes(), how)
      ensures regulator == Spent(config, old(regulator), s)
      ensures anyActive == (Active in schedule[..])
      ensures control == AfterShortage(config, old(control), s, anyActive)
    {
      hide Prioritized, Shared, AfterShortage, Limited, SurveyOf;
      var actual: nat := if regulator.isetBalanced < 0 then 0 else regulator.isetBalanced;
      regulator := regulator.(isetBalanced := s.active * (config.minCurrent * 10));
      if config.loadBl == 1 && s.active > 1 {
        ghost var order, mid, left;
        anyActive, order, mid, left := ShareByPriority(actual);
        how := ByOrder(order, mid, left);
      } else {
        ghost var level := ShareEqually(s);
        how := ByLevel(level);
        anyActive := HasActive();
      }
      NoteShortage(s, limited, anyActive);
    }

    /** Lines 916-970: there is enough. */
    method SharePlenty(s: Survey) returns (ghost how: Account)
      requires Complete() && s == SurveyOf(Nodes())
      requires !InShortage(config, s, regulator.isetBalanced) && Distributing(config, regulator, s)
      modifies this`control, this`regulator, balanced, schedule, nodeErrors, idle
      ensures Complete()
      ensures Distributed(config, old(regulator.isetBalanced), old(Nodes()), Nodes(), how)
      ensures regulator == Spent(config, old(regulator), s)
      ensures control == AfterPlenty(old(control))
    {
      hide Shared, Marked, SurveyOf;
      ghost var f := Nodes();
      MarkActive();
      ghost var m := Nodes();
      SurveyAfterMarking(config, f, m);
      control := control.(maxSumMainsTimer := 0);
      if control.noCurrent > 0 {
        control := control.(noCurrent := control.noCurrent - 1);
      }
      ghost var level := ShareEqually(s);
      SharedAfterMarking(config, f, m, Nodes(), regulator.isetBalanced, level);
      how := ByLevel(level);
    }

    /** Lines 841-970. */
    method Share(s: Survey, limited: bool) returns (ghost how: Account, ghost anyActive: bool)
      requires Complete() && s == SurveyOf(Nodes()) && limited == Limited(config) && Distributing(config, regulator, s)
      modifies this`control, this`regulator, balanced, schedule, nodeErrors, idle, priority
      ensures Complete()
      ensures Distributed(config, old(regulator.isetBalanced), old(Nodes()), Nodes(), how)
      ensures regulator == Spent(config, old(regulator), s)
      ensures anyActive == (Active in schedule[..])
      ensures control == if InShortage(config, s, old(regulator.isetBalanced))
                         then AfterShortage(config, old(control), s, anyActive)
                         else AfterPlenty(old(control))
    {
      hide Distributed, AfterShortage, AfterPlenty, Limited, SurveyOf, Spent, Distributing;
      if regulator.isetBalanced < s.active * (config.minCurrent * 10) {
        how, anyActive := ShareShortage(s, limited);
      } else {
        how := SharePlenty(s);
        anyActive := Active in schedule[..];
      }
    }

    /** Lines 974-993. */
    method LimitSteps(mod: bool)
      requires Complete()
      modifies this`prev, balanced
      ensures Complete() && Nodes() == Stepped(mod, old(Nodes()))
    {
      if !mod {
        for i := 0 to |states|
          modifies balanced
          invariant forall k :: 0 <= k < i ==>
                      balanced[k] == if states[k] == C then Approach(MAX_DELTA, old(balanced[k]), prev[k])
                          else old(balanced[k])
          invariant forall k :: i <= k < |states| ==> balanced[k] == old(balanced[k])
        {
          if states[i] == C && prev[i] != 0 {
            var delta: int := balanced[i] as int - prev[i] as int;
            if delta > MAX_DELTA {
              balanced[i] := prev[i] + MAX_DELTA;
            } else if delta < -MAX_DELTA {
              balanced[i] := prev[i] - MAX_DELTA;
            }
          }
        }
      }
      prev := balanced[..];
    }

    /** Lines 1000-1007. */
    method RampOwnCurrent()
      requires Complete()
      modifies balanced
      ensures balanced[..] == old(balanced[..])[0 := Ramp(config, regulator, old(balanced[0]))]
    {
      if config.maxRampRate > 0 && regulator.lastBalanced > 0 {
        var diff: int := balanced[0] as int - regulator.lastBalanced as int;
        if diff > config.maxRampRate {
          balanced[0] := regulator.lastBalanced + config.maxRampRate;
        } else if diff + config.maxRampRate < 0 {
          balanced[0] := regulator.lastBalanced - config.maxRampRate;
        }
      }
    }

    /** Lines 997-1012. */
    method LimitRamp()
      requires Complete()
      modifies this`regulator, balanced
      ensures Complete() && Nodes() == Ramped(config, old(regulator), old(Nodes()))
      ensures regulator.(updated := false) == RampedRegulator(config, old(regulator), states[0], old(balanced[0]))
      ensures regulator.updated == old(regulator.updated)
    {
      hide Ramp;
      if config.mode != Normal && config.loadBl == 0 && states[0] == C {
        RampOwnCurrent();
        if balanced[0] != regulator.lastBalanced && config.settlingWindow > 0 {
          regulator := regulator.(settlingTimer := config.settlingWindow);
        }
        regulator := regulator.(lastBalanced := balanced[0]);
      }
    }

    /** Lines 841-994. */
    method ShareAndStep(mod: bool, s: Survey, limited: bool) returns (ghost h: Fleet, ghost how: Account)
      requires Complete() && s == SurveyOf(Nodes()) && limited == Limited(config)
      modifies this`control, this`regulator, this`prev, balanced, schedule, nodeErrors, idle, priority
      ensures Complete() && Sized(h)
      ensures Given(config, old(regulator), s, old(Nodes()), h, how)
      ensures Nodes() == Moved(config, mod, old(regulator), s, h)
      ensures regulator == Spent(config, old(regulator), s)
      ensures control == Shown(config, old(control), old(regulator), s, Active in h.schedule)
    {
      hide Stepped, AfterShortage, AfterPlenty, SurveyOf, Distributed, InShortage, Limited;
      how := ByLevel(0);
      if s.active > 0 && (regulator.updated || config.mode == Normal) {
        ghost var anyActive;
        how, anyActive := Share(s, limited);
        h := Nodes();
        LimitSteps(mod);
      } else {
        h := Nodes();
      }
    }

    /** Lines 623-1039. */
    method Evaluate(mod: bool) returns (ghost h: Fleet, ghost how: Account)
      requires Complete()
      modifies this`control, this`regulator, this`max, this`prev, balanced, schedule, nodeErrors, idle, priority
      ensures Complete()
      ensures Evaluated(config, mod, old(control), old(regulator), old(Nodes()), control, regulator, Nodes(), h, how)
      ensures Steps.Step(config, old(control), Steps.Balance, config, control)
    {
      hide Target, Moved, Given, Ramped, RampedRegulator, Spent, SurveyOf, Shown, Noted, ChargeCurrent, Limited,
           Steps.Balanced;
      ghost var c, r, f := control, regulator, Nodes();
      LimitOwnCurrent();
      assert (regulator, Nodes()) == Limited0(config, r, f);
      var s := TakeSurvey();
      SetTarget(mod, s);
      ghost var r1 := regulator;
      var limited := Note();
      h, how := ShareAndStep(mod, s, limited);
      LimitRamp();
      if s.active == 0 {
        control := control.(maxSumMainsTimer := 0, noCurrent := 0);
      }
      regulator := regulator.(updated := false);
      JudgedIsBalance(config, c, r1, s, Active in h.schedule);
    }

    /** evse_calc_balanced_current(mod); `h` is what the nodes have after the distribution. */
    method CalcBalancedCurrent(mod: bool) returns (ghost h: Fleet, ghost how: Account)
      requires Complete()
      modifies this`control, this`regulator, this`max, this`prev, balanced, schedule, nodeErrors, idle, priority
      ensures Complete()
      ensures Evaluated(config, mod, old(control), old(regulator), old(Nodes()), control, regulator, Nodes(), h, how)
      ensures Steps.Step(config, old(control), Steps.Balance, config, control)
      ensures Invariant.Preserved(config.loadBl, old(control), Steps.Balance, control)
      ensures mod ==> Limits.WithinLimits(config, old(control), old(regulator), old(Nodes()), Nodes())
      ensures mod ==> forall j: nat ::
                Limits.NewcomerCounted(config, old(control), old(regulator), old(Nodes()), Nodes(), how, j)
    {
      hide Evaluated, Steps.Step, Invariant.Preserved, Limits.WithinLimits, Limits.NewcomerCounted;
      ghost var c, r, f := control, regulator, Nodes();
      h, how := Evaluate(mod);
      Invariant.StepPreserves(config, c, Steps.Balance, control);
      if mod {
        Limits.EvaluationKeepsLimits(config, c, r, f, control, regulator, Nodes(), h, how);
        forall j: nat
          ensures Limits.NewcomerCounted(config, c, r, f, Nodes(), how, j)
        {
          Limits.NewcomerWithinLimits(config, c, r, f, control, regulator, Nodes(), h, how, j);
        }
      }
    }

    // ---------------------------------------------------------------- the 10 ms tick

    /** Lines 1203-1210. */
    method Unplug()
      requires Valid()
      modifies this`control, this`states
      ensures Valid() && control == Unplugged(config, old(control)) && states == old(states)[0 := control.state]
    {
      hide SetState;
      if (config.rfidReader == 2 || config.rfidReader == 1) && control.accessTimer == 0 && control.access == On {
        control := control.(accessTimer := RFID_LOCK_TIME);
      }
      if control.state != A {
        GoTo(A);
      }
      control := control.(chargeDelay := 0);
    }

    /** Lines 1217-1221. */
    method OfferCurrent()
      modifies this`regulator
      ensures regulator == old(regulator).(chargeCurrent := ConnectCurrent(config))
    {
      if config.maxCurrent > config.maxCapacity && config.maxCapacity != 0 {
        regulator := regulator.(chargeCurrent := ToUint16(config.maxCapacity * 10));
      } else {
        regulator := regulator.(chargeCurrent := ToUint16(config.minCurrent * 10));
      }
    }

    /** Lines 1214-1242: the car is connected and nothing is against it. */
    method PlugIn()
      requires Complete()
      modifies this`control, this`states, this`regulator, this`max, balanced
      ensures Complete() && control == PluggedIn(config, old(control), old(CanGrant()))
      ensures regulator == old(regulator).(chargeCurrent := ConnectCurrent(config))
      ensures states == old(states)[0 := control.state]
      ensures max == OfferedMax(config, config.loadBl <= 1 && old(CanGrant()), old(max))
      ensures balanced[..] == Offered(config, config.loadBl <= 1 && old(CanGrant()), old(balanced[..]))
    {
      hide SetState, Available, LoadOf, ConnectCurrent;
      var available := IsCurrentAvailable();
      control := control.(diodeCheck := false);
      OfferCurrent();
      if config.loadBl > 1 {
        GoTo(CommB);
      } else if available {
        max := max[0 := ToUint16(config.maxCapacity * 10)];
        balanced[0] := regulator.chargeCurrent;
        GoTo(if config.modemEnabled && control.modemStage == 0 then ModemRequest else B);
        control := control.(activationMode := 30, accessTimer := 0);
      } else {
        control := control.(errors := control.errors.(less6A := true));
      }
    }

    /** Lines 1203-1246: the pilot is read while a car may come or go. */
    method FollowPilot(pilot: Pilot)
      requires Complete() && control.state in {A, CommB, B1} && !control.pilotDisconnected
      modifies this`control, this`states, this`regulator, this`max, balanced
      ensures Complete() && control == HandleA(config, old(control), pilot, old(CanGrant()))
      ensures regulator == ConnectedRegulator(config, old(control), pilot, old(regulator))
      ensures states == old(states)[0 := control.state]
      ensures max == OfferedMax(config, Connects(config, old(control), pilot, old(CanGrant())), old(max))
      ensures balanced[..] == Offered(config, Connects(config, old(control), pilot, old(CanGrant())), old(balanced[..]))
    {
      hide SetState, Available, LoadOf, Unplugged, PluggedIn, NoError;
      if pilot == V12 {
        Unplug();
      } else if pilot == V9 && NoError(control.errors) && control.chargeDelay == 0 && control.access == On
             && control.state != CommB {
        PlugIn();
      } else if pilot == V9 && control.state != B1 && control.state != CommB && control.access == On {
        GoTo(B1);
      }
    }

    /** Lines 1194-1248. */
    method WaitForCar(pilot: Pilot)
      requires Complete()
      modifies this`control, this`states, this`regulator, this`max, balanced
      ensures Complete() && control == HandleA(config, old(control), pilot, old(CanGrant()))
      ensures regulator == ConnectedRegulator(config, old(control), pilot, old(regulator))
      ensures states == old(states)[0 := control.state]
      ensures max == OfferedMax(config, Connects(config, old(control), pilot, old(CanGrant())), old(max))
      ensures balanced[..] == Offered(config, Connects(config, old(control), pilot, old(CanGrant())), old(balanced[..]))
    {
      hide SetState, Available, LoadOf, Unplugged, PluggedIn, NoError, CanGrant, ConnectCurrent;
      if control.state == A || control.state == CommB || control.state == B1 {
        if !control.pilotDisconnected {
          FollowPilot(pilot);
        } else if control.pilotDisconnectTime == 0 {
          control := control.(pilotDisconnected := false);
        }
      }
    }

    /** Lines 1251-1255. */
    method MasterAllowsB()
      requires Valid()
      modifies this`control, this`states
      ensures Valid() && control == HandleCommBOk(config, old(control)) && states == old(states)[0 := control.state]
    {
      hide SetState;
      if control.state == CommBOk {
        GoTo(B);
        control := control.(activationMode := 30, accessTimer := 0);
      }
    }

    /** Lines 1276-1280: there is current for one more. */
    method Grant(ghost c: Control) returns (ghost after: Control, ghost h: Fleet, ghost how: Account)
      requires Complete() && MayCharge(c, V6) && control == Counted(c) && config.loadBl <= 1
      requires max[0] == regulator.chargeCurrent
      modifies this`control, this`states, this`regulator, this`max, this`prev, balanced, schedule, nodeErrors, idle,
               priority
      ensures Complete() && states == old(states)[0 := control.state]
      ensures control == HandleB(config, c, V6, true, after)
      ensures Served(config, c, V6, true, old(regulator), old(Nodes()), after, regulator, Nodes(), h, how)
      ensures Steps.Balanced(Counted(c), after)
    {
      hide SetState, Available, LoadOf, Evaluated;
      ghost var f := Nodes();
      assert AskingNodes(regulator, f) == f;
      balanced[0] := ToUint16(config.minCurrent * 10);
      h, how := Evaluate(true);
      after := control;
      control := control.(diodeCheck := false);
      GoTo(C);
    }

    /** Lines 1274-1283: the request is debounced and nothing is against it. */
    method Serve(ghost c: Control) returns (ghost after: Control, ghost h: Fleet, ghost how: Account)
      requires Complete() && MayCharge(c, V6) && control == Counted(c) && config.loadBl <= 1
      modifies this`control, this`states, this`regulator, this`max, this`prev, balanced, schedule, nodeErrors, idle,
               priority
      ensures Complete() && states == old(states)[0 := control.state]
      ensures control == HandleB(config, c, V6, old(CanGrant()), after)
      ensures Served(config, c, V6, old(CanGrant()), old(regulator), old(Nodes()), after, regulator, Nodes(), h, how)
      ensures Steps.Balanced(Counted(c), after)
    {
      hide SetState, Available, LoadOf, Evaluated;
      ghost var f := Nodes();
      max := max[0 := regulator.chargeCurrent];
      assert Nodes() == AskingNodes(regulator, f) && AskingNodes(regulator, Nodes()) == Nodes();
      var available := IsCurrentAvailable();
      if available {
        after, h, how := Grant(c);
      } else {
        how := ByLevel(0);
        h := Nodes();
        after := control;
        control := control.(errors := control.errors.(less6A := true));
      }
    }

    /** Lines 1262-1286: the car asks for current. */
    method Debounce() returns (ghost after: Control, ghost h: Fleet, ghost how: Account)
      requires Complete() && control.state in {B, CommC}
      modifies this`control, this`states, this`regulator, this`max, this`prev, balanced, schedule, nodeErrors, idle,
               priority
      ensures Complete() && states == old(states)[0 := control.state]
      ensures control == HandleB(config, old(control), V6, old(CanGrant()), after)
      ensures Served(config, old(control), V6, old(CanGrant()), old(regulator), old(Nodes()),
                     after, regulator, Nodes(), h, how)
      ensures Steps.Balanced(Counted(old(control)), after)
    {
      hide SetState, Available, LoadOf, Evaluated, Steps.Balanced, AskingNodes;
      ghost var c := control;
      CountedIsBalance(c);
      control := control.(stateTimer := ToUint8(control.stateTimer + 1));
      after, h, how := control, Nodes(), ByLevel(0);
      if control.stateTimer > 50 {
        if control.diodeCheck && NoError(control.errors) && control.chargeDelay == 0 && control.access == On {
          if config.loadBl > 1 {
            if control.state != CommC {
              GoTo(CommC);
            }
          } else {
            after, h, how := Serve(c);
          }
        }
      }
    }

    /** Lines 1258-1300 when the car does not ask. */
    method StayConnected(pilot: Pilot)
      requires Valid() && (pilot != V6 || control.state !in {B, CommC})
      modifies this`control, this`states
      ensures Valid() && states == old(states)[0 := control.state]
      ensures forall available, after :: control == HandleB(config, old(control), pilot, available, after)
    {
      hide SetState;
      if control.state == B || control.state == CommC {
        if pilot == V12 {
          GoTo(A);
        } else if pilot == V9 {
          control := control.(stateTimer := 0);
          if control.activationMode == 0 {
            GoTo(ActStart);
            control := control.(activationTimer := 3);
          }
        }
        if pilot == Diode {
          control := control.(diodeCheck := true);
        }
      }
    }

    /** Lines 1258-1300. */
    method AwaitRequest(pilot: Pilot) returns (ghost after: Control, ghost h: Fleet, ghost how: Account)
      requires Complete()
      modifies this`control, this`states, this`regulator, this`max, this`prev, balanced, schedule, nodeErrors, idle,
               priority
      ensures Complete() && states == old(states)[0 := control.state]
      ensures control == HandleB(config, old(control), pilot, old(CanGrant()), after)
      ensures Served(config, old(control), pilot, old(CanGrant()), old(regulator), old(Nodes()),
                     after, regulator, Nodes(), h, how)
      ensures Steps.Balanced(Counted(old(control)), after)
    {
      hide SetState, HandleB, Served, CanGrant;
      after := Counted(control);
      h, how := Nodes(), ByLevel(0);
      if pilot == V6 && (control.state == B || control.state == CommC) {
        after, h, how := Debounce();
      } else {
        NotServed(config, control, pilot, CanGrant(), regulator, Nodes(), h, how);
        ghost var f := Nodes();
        StayConnected(pilot);
        assert Nodes() == WithState(f, control.state);
      }
    }

    /** Lines 1304-1310. */
    method WindDown(pilot: Pilot)
      requires Valid()
      modifies this`control, this`states
      ensures Valid() && control == HandleC1(config, old(control), pilot) && states == old(states)[0 := control.state]
    {
      hide SetState;
      if control.state == C1 {
        if pilot == V12 {
          GoTo(A);
        } else if pilot == V9 {
          GoTo(B1);
        }
      }
    }

    /** Lines 1313-1318. */
    method EndActivation()
      requires Valid()
      modifies this`control, this`states
      ensures Valid() && control == HandleActStart(config, old(control)) && states == old(states)[0 := control.state]
    {
      hide SetState;
      if control.state == ActStart {
        if control.activationTimer == 0 {
          GoTo(B);
          control := control.(activationMode := DISABLED);
        }
      }
    }

    /** Lines 1321-1324. */
    method MasterAllowsC()
      requires Valid()
      modifies this`control, this`states
      ensures Valid() && control == HandleCommCOk(config, old(control)) && states == old(states)[0 := control.state]
    {
      hide SetState;
      if control.state == CommCOk {
        control := control.(diodeCheck := false);
        GoTo(C);
      }
    }

    /** Lines 1327-1343. */
    method Charge(pilot: Pilot)
      requires Valid()
      modifies this`control, this`states
      ensures Valid() && control == HandleC(config, old(control), pilot) && states == old(states)[0 := control.state]
    {
      hide SetState;
      if control.state == C {
        if pilot == V12 {
          GoTo(A);
        } else if pilot == V9 {
          GoTo(B);
          control := control.(diodeCheck := false);
        } else if pilot == Short {
          control := control.(stateTimer := ToUint8(control.stateTimer + 1));
          if control.stateTimer > 50 {
            control := control.(stateTimer := 0);
            GoTo(B);
            control := control.(diodeCheck := false);
          }
        } else {
          control := control.(stateTimer := 0);
        }
      }
    }

    /** The handlers after the request: lines 1302-1343. */
    method FollowUp(pilot: Pilot)
      requires Valid()
      modifies this`control, this`states
      ensures Valid() && control == AfterB(config, old(control), pilot) && states == old(states)[0 := control.state]
    {
      hide HandleC1, HandleActStart, HandleCommCOk, HandleC;
      WindDown(pilot);
      EndActivation();
      MasterAllowsC();
      Charge(pilot);
    }

    /** The handlers before the request: lines 1194-1255. */
    method Prepare(pilot: Pilot)
      requires Complete()
      modifies this`control, this`states, this`regulator, this`max, balanced
      ensures Complete() && control == BeforeB(config, old(control), pilot, old(CanGrant()))
      ensures states == old(states)[0 := control.state]
      ensures regulator == ConnectedRegulator(config, old(control), pilot, old(regulator))
      ensures Nodes() == WithState(ConnectedNodes(config, Connects(config, old(control), pilot, old(CanGrant())),
                                                  old(Nodes())),
                                   control.state)
      ensures pilot == V6 ==> CanGrant() == old(CanGrant())
    {
      hide SetState, Available, LoadOf, HandleA, HandleCommBOk, Offered, OfferedMax, MayConnect;
      ghost var c, available, f := control, CanGrant(), Nodes();
      WaitForCar(pilot);
      MasterAllowsB();
      if pilot == V6 {
        SameAnswer(config, c, available);
        NothingOffered(config, f);
        LoadOfCharging(f.states, states, f.balanced);
      }
    }

    /** Lines 1191-1344. */
    method Handle(pilot: Pilot) returns (ghost after: Control, ghost h: Fleet, ghost how: Account)
      requires Complete()
      modifies this`control, this`states, this`regulator, this`max, this`prev, balanced, schedule, nodeErrors, idle,
               priority
      ensures Complete() && states == old(states)[0 := control.state]
      ensures control == EvseControl.Tick10ms(config, old(control), pilot, old(CanGrant()), after)
      ensures Steps.Step(config, old(control), Steps.Tick10(pilot, old(CanGrant())), config, control)
      ensures Steps.Balanced(Steps.Requesting(config, old(control), pilot, old(CanGrant())), after)
      ensures var c, available := old(control), old(CanGrant());
              var b := BeforeB(config, c, pilot, available);
              var f := ConnectedNodes(config, Connects(config, c, pilot, available), old(Nodes()));
              Served(config, b, pilot, available, ConnectedRegulator(config, c, pilot, old(regulator)),
                     WithState(f, b.state),
                     after, regulator, Nodes(), h, how)
    {
      hide SetState, CanGrant, HandleB, AfterB, BeforeB, Served, Steps.Balanced, ConnectedNodes, ConnectedRegulator,
           Connects;
      ghost var available := CanGrant();
      Prepare(pilot);
      ghost var b, r, f, answer := control, regulator, Nodes(), CanGrant();
      after, h, how := AwaitRequest(pilot);
      AnswerOnlyForRequest(config, b, pilot, after);
      ServedOnRequest(config, b, pilot, r, f, after, regulator, Nodes(), h, how);
      ghost var g := Nodes();
      FollowUp(pilot);
      ServedButState(config, b, pilot, available, r, f, after, regulator, g, Nodes(), h, how);
    }

    /** evse_tick_10ms. */
    method Tick10ms(pilot: Pilot) returns (ghost after: Control, ghost h: Fleet, ghost how: Account)
      requires Complete()
      modifies this`control, this`states, this`regulator, this`max, this`prev, balanced, schedule, nodeErrors, idle,
               priority
      ensures Complete() && states == old(states)[0 := control.state]
      ensures control == EvseControl.Tick10ms(config, old(control), pilot, old(CanGrant()), after)
      ensures Steps.Step(config, old(control), Steps.Tick10(pilot, old(CanGrant())), config, control)
      ensures Invariant.Preserved(config.loadBl, old(control), Steps.Tick10(pilot, old(CanGrant())), control)
      ensures Diagram.Drawn(config, old(control), pilot, old(CanGrant()), after, control)
      ensures Timers.Timed(config, old(control), pilot, control)
      ensures var c, available := old(control), old(CanGrant());
              var b := BeforeB(config, c, pilot, available);
              var f := ConnectedNodes(config, Connects(config, c, pilot, available), old(Nodes()));
              Served(config, b, pilot, available, ConnectedRegulator(config, c, pilot, old(regulator)),
                     WithState(f, b.state),
                     after, regulator, Nodes(), h, how)
    {
      hide Steps.Step, Invariant.Preserved, EvseControl.Tick10ms, CanGrant, Served, BeforeB, ConnectedNodes,
           ConnectedRegulator, Connects, Steps.Balanced, Steps.Requesting, Diagram.Drawn,
           Timers.Timed;
      ghost var c, available := control, CanGrant();
      after, h, how := Handle(pilot);
      Diagram.TenMilliseconds(config, c, pilot, available, after);
      Timers.TenMillisecondTimers(config, c, pilot, available, after);
      Invariant.StepPreserves(config, c, Steps.Tick10(pilot, available), control);
    }

    // ---------------------------------------------------------------- the 1 s tick

    /** Lines 1351-1356. */
    method CountActivation()
      modifies this`control
      ensures control == TickActivation(old(control)) && control.state == old(control.state)
    {
      if control.activationMode != 0 && control.activationMode != DISABLED {
        control := control.(activationMode := control.activationMode - 1);
      }
      if control.activationTimer > 0 {
        control := control.(activationTimer := control.activationTimer - 1);
      }
    }

    method BeginModem()
      requires Valid()
      modifies this`control, this`states
      ensures Valid() && control == TickModemWait(config, TickModemRequest(config, old(control)))
      ensures states == old(states)[0 := control.state]
    {
      hide SetState;
      if control.state == ModemRequest {
        if control.toModemWait > 0 {
          control := control.(toModemWait := control.toModemWait - 1);
        } else {
          GoTo(ModemWait);
        }
      }
      if control.state == ModemWait {
        if control.toModemDone > 0 {
          control := control.(toModemDone := control.toModemDone - 1);
        } else {
          GoTo(ModemDone);
        }
      }
    }

    method EndModem()
      requires Valid()
      modifies this`control, this`states
      ensures Valid() && control == TickModemDenied(config, TickModemDone(config, old(control)))
      ensures states == old(states)[0 := control.state]
    {
      hide SetState;
      if control.state == ModemDone {
        if control.leaveModemDone > 0 {
          control := control.(leaveModemDone := control.leaveModemDone - 1);
        } else if config.evccidAccepted {
          control := control.(modemStage := 1);
          GoTo(B);
        } else {
          control := control.(modemStage := 0, leaveModemDenied := 60);
          GoTo(ModemDenied);
        }
      }
      if control.state == ModemDenied {
        if control.leaveModemDenied > 0 {
          control := control.(leaveModemDenied := control.leaveModemDenied - 1);
        } else {
          GoTo(A);
        }
      }
    }

    /** Lines 1359-1404. */
    method RunModem()
      requires Valid()
      modifies this`control, this`states
      ensures Valid() && control == TickModem(config, old(control)) && states == old(states)[0 := control.state]
    {
      hide TickModemRequest, TickModemWait, TickModemDone, TickModemDenied;
      if config.modemEnabled {
        BeginModem();
        EndModem();
      }
    }

    /** Lines 1407-1413. */
    method CountC1()
      requires Valid()
      modifies this`control, this`states
      ensures Valid() && control == TickC1(config, old(control)) && states == old(states)[0 := control.state]
    {
      hide SetState;
      if control.state == C1 {
        if control.c1Timer > 0 {
          control := control.(c1Timer := control.c1Timer - 1);
        } else {
          GoTo(B1);
        }
      }
    }

    /** Lines 1423-1444. */
    method CountSumMains()
      requires Valid()
      modifies this`control, this`states
      ensures Valid() && control == TickSumMains(config, old(control)) && states == old(states)[0 := control.state]
    {
      hide SetState;
      if control.pilotDisconnectTime > 0 {
        control := control.(pilotDisconnectTime := control.pilotDisconnectTime - 1);
      }
      if control.maxSumMainsTimer > 0 {
        control := control.(maxSumMainsTimer := control.maxSumMainsTimer - 1);
        if control.maxSumMainsTimer == 0 {
          if control.state == C {
            GoTo(C1);
          }
          control := control.(errors := control.errors.(less6A := true));
        }
      }
    }

    /** Lines 1447-1457. */
    method CountAccess()
      requires Valid()
      modifies this`control, this`states
      ensures Valid() && control == TickAccess(config, old(control)) && states == old(states)[0 := control.state]
    {
      hide SetAccess;
      if control.chargeDelay > 0 {
        control := control.(chargeDelay := control.chargeDelay - 1);
      }
      if control.accessTimer > 0 && control.state == A {
        control := control.(accessTimer := control.accessTimer - 1);
        if control.accessTimer == 0 {
          Permit(Off);
        }
      } else if control.state != A {
        control := control.(accessTimer := 0);
      }
    }

    /** Lines 1460-1462. */
    method CoolDown()
      modifies this`control
      ensures control == if config.tempEvse < config.maxTemp - 10
                         then old(control).(errors := old(control.errors).(tempHigh := false))
                         else old(control)
    {
      if config.tempEvse < config.maxTemp - 10 && control.errors.tempHigh {
        control := control.(errors := control.errors.(tempHigh := false));
      }
    }

    /** Lines 1465-1467. */
    method RecoverLess6A()
      requires Complete()
      modifies this`control
      ensures Complete()
      ensures control == if old(control.errors.less6A) && config.loadBl < 2 && old(CanGrant())
                         then old(control).(errors := old(control.errors).(less6A := false)) else old(control)
    {
      hide CanGrant;
      if control.errors.less6A && config.loadBl < 2 {
        var ok := IsCurrentAvailable();
        if ok {
          control := control.(errors := control.errors.(less6A := false));
        }
      }
    }

    /** Lines 1460-1467. */
    method Recover() returns (ghost available: bool)
      requires Complete()
      modifies this`control
      ensures Complete() && available == old(CanGrant()) && control == TickRecovery(config, old(control), available)
    {
      hide Available, LoadOf;
      available := CanGrant();
      CoolDown();
      assert CanGrant() == available;
      hide CanGrant;
      RecoverLess6A();
    }

    /** Lines 1470-1492. */
    method CheckMainsMeter()
      requires Valid()
      modifies this`control, this`states
      ensures Valid() && control == TickMainsMeter(config, old(control)) && states == old(states)[0 := control.state]
    {
      hide SetPowerUnavailable;
      if config.mainsMeterType != 0 && config.loadBl < 2 {
        if control.mainsTimeout == 0 && !control.errors.ctNoComm && config.mode != Normal {
          if !(config.mainsMeterType == API_METER && config.apiTimeout > 0) {
            control := control.(errors := control.errors.(ctNoComm := true));
            LeavePower();
          }
        } else if control.mainsTimeout > 0 {
          control := control.(mainsTimeout := control.mainsTimeout - 1);
        }
      } else if config.loadBl > 1 {
        if control.mainsTimeout == 0 && !control.errors.ctNoComm {
          control := control.(errors := control.errors.(ctNoComm := true));
          LeavePower();
        } else if control.mainsTimeout > 0 {
          control := control.(mainsTimeout := control.mainsTimeout - 1);
        }
      } else {
        control := control.(mainsTimeout := COMM_TIMEOUT);
      }
    }

    /** Lines 1495-1504. */
    method CheckEvMeter()
      requires Valid()
      modifies this`control, this`states
      ensures Valid() && control == TickEvMeter(config, old(control)) && states == old(states)[0 := control.state]
    {
      hide SetPowerUnavailable;
      if config.evMeterType != 0 {
        if control.evTimeout == 0 && !control.errors.evNoComm && config.mode != Normal {
          control := control.(errors := control.errors.(evNoComm := true));
          LeavePower();
        } else if control.evTimeout > 0 {
          control := control.(evTimeout := control.evTimeout - 1);
        }
      } else {
        control := control.(evTimeout := COMM_EV_TIMEOUT);
      }
    }

    /** Lines 1507-1515. */
    method RecoverMeters()
      modifies this`control
      ensures control == TickMeterRecovery(old(control)) && control.state == old(control.state)
    {
      if control.errors.ctNoComm && control.mainsTimeout > 0 {
        control := control.(errors := control.errors.(ctNoComm := false));
      }
      if control.errors.evNoComm && control.evTimeout > 0 {
        control := control.(errors := control.errors.(evNoComm := false));
      }
    }

    /** Lines 1543-1546. */
    method CheckTemperature()
      requires Valid()
      modifies this`control, this`states
      ensures Valid() && control == TickTemperature(config, old(control)) && states == old(states)[0 := control.state]
    {
      hide SetPowerUnavailable;
      if config.tempEvse > config.maxTemp && !control.errors.tempHigh {
        control := control.(errors := control.errors.(tempHigh := true));
        LeavePower();
      }
    }

    /** Lines 1549-1552. */
    method CheckLess6A()
      requires Valid()
      modifies this`control, this`states
      ensures Valid() && control == TickLess6A(config, old(control)) && states == old(states)[0 := control.state]
    {
      hide SetPowerUnavailable;
      if control.errors.less6A {
        LeavePower();
        control := control.(chargeDelay := CHARGE_DELAY);
      }
    }

    method CountTimers()
      requires Valid()
      modifies this`control, this`states, this`regulator
      ensures Valid() && control == TickTimers(config, old(control)) && states == old(states)[0 := control.state]
      ensures regulator == old(regulator).(settlingTimer := Down(old(regulator.settlingTimer)))
    {
      hide TickActivation, TickModem, TickC1, TickSumMains, TickAccess;
      CountActivation();
      RunModem();
      CountC1();
      if regulator.settlingTimer > 0 {
        regulator := regulator.(settlingTimer := regulator.settlingTimer - 1);
      }
      CountSumMains();
      CountAccess();
    }

    method CheckErrors() returns (ghost available: bool)
      requires Complete()
      modifies this`control, this`states
      ensures Complete() && available == old(CanGrant()) && control == TickErrors(config, old(control), available)
      ensures states == old(states)[0 := control.state]
    {
      hide TickRecovery, TickMainsMeter, TickEvMeter, TickMeterRecovery, TickTemperature, TickLess6A, CanGrant;
      available := Recover();
      CheckMainsMeter();
      CheckEvMeter();
      RecoverMeters();
      CheckTemperature();
      CheckLess6A();
    }

    /** evse_tick_1s. */
    method Tick1s() returns (ghost available: bool, ghost order: seq<nat>)
      requires Complete()
      modifies this`control, this`states, this`regulator, this`rotationTimer, this`uptime,
               schedule, connected, idle, balanced, priority
      ensures Complete() && states == old(states)[0 := control.state]
      ensures control == EvseControl.Tick1s(config, old(control), available)
      ensures available == Available(config, TickTimers(config, old(control)).nrPhases, |states|,
                                     LoadOf(old(states)[0 := TickTimers(config, old(control)).state],
                                            old(balanced[..])))
      ensures Steps.Step(config, old(control), Steps.Tick1(available), config, control)
      ensures Invariant.Preserved(config.loadBl, old(control), Steps.Tick1(available), control)
      ensures control.errors.less6A ==> Runs.Cooling(control, CHARGE_DELAY)
      ensures control.state == Seconds.StateAfter(config, old(control), available)
      ensures control.errors == Seconds.ErrorsAfter(config, old(control), available)
      ensures Timers.ClocksOf(control) == Countdowns.ClocksAfter(config, old(control), available)
      ensures regulator == old(regulator).(settlingTimer := Down(old(regulator.settlingTimer)))
      ensures config.loadBl != 1 ==>
                Nodes() == WithState(old(Nodes()), control.state) && rotationTimer == old(rotationTimer)
                    && uptime == old(uptime)
      ensures config.loadBl == 1 ==>
                && uptime == (old(uptime) + 1) % 0x1_0000_0000
                && connected[..] == Rotation.Connected(states, old(connected[..]), uptime)
                && (forall k :: 0 <= k < |order| ==> order[k] < |states|)
                && (order == [] || PriorityOrder(Criteria(states, connected[..], config.strategy), order, |states|))
                && Rotation.After(RotationInputs(),
                                  Rotation.Slots(Rotation.Cleaned(states, old(schedule[..])), old(idle[..]),
                                                 old(balanced[..]),
                                                 old(rotationTimer)),
                                  order, Rotation.Slots(schedule[..], idle[..], balanced[..], rotationTimer))
    {
      hide TickTimers, TickErrors, Available, LoadOf, Rotation.After, Rotation.Cleaned, Rotation.Connected,
           PriorityOrder;
      hide Steps.Step, Invariant.Preserved, Runs.Cooling, Seconds.StateAfter, Seconds.ErrorsAfter, Timers.ClocksOf,
           Countdowns.ClocksAfter;
      ghost var c := control;
      CountTimers();
      available := CheckErrors();
      Ticked(c, available);
      order := [];
      if config.loadBl == 1 {
        rotationTimer, uptime, order :=
          Rotation.Tick(RotationInputs(), schedule, connected, idle, balanced, priority, rotationTimer, uptime);
      }
    }

    /** What the one-second tick guarantees as a step. */
    lemma Ticked(c: Control, available: bool)
      requires control == EvseControl.Tick1s(config, c, available)
      ensures Steps.Step(config, c, Steps.Tick1(available), config, control)
      ensures Invariant.Preserved(config.loadBl, c, Steps.Tick1(available), control)
      ensures control.errors.less6A ==> Runs.Cooling(control, CHARGE_DELAY)
      ensures control.state == Seconds.StateAfter(config, c, available)
      ensures control.errors == Seconds.ErrorsAfter(config, c, available)
      ensures Timers.ClocksOf(control) == Countdowns.ClocksAfter(config, c, available)
    {
      hide EvseControl.Tick1s, Invariant.Preserved, Runs.Cooling, Seconds.StateAfter, Seconds.ErrorsAfter,
           Timers.ClocksOf, Countdowns.ClocksAfter;
      Seconds.OneSecond(config, c, available);
      Countdowns.OneSecondCounts(config, c, available);
      Invariant.StepPreserves(config, c, Steps.Tick1(available), control);
      Runs.TickStopsShortage(config, c, available, config, control);
    }

    function RotationInputs(): Rotation.Inputs
      reads this
    {
      Rotation.Inputs(states, config.strategy, config.idleTimeout, config.rotationInterval, config.evMeasured)
    }
  }

  lemma OrderPermutes(c: Criteria, order: seq<nat>)
    requires PriorityOrder(c, order, |order|)
    ensures Permutation(order, |order|)
  {
  }
}
