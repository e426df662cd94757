# Verification model of the SmartEVSE-3.5 controller

A Dafny model of the parts of the charging station firmware in which many small steps have to add up to
something: `dafny verify dfyconfig.toml` checks it.

* **The charge controller** (`evse_state_machine.c`).  `EvseController` holds what `evse_ctx_t` holds, as
  a class whose methods update it as the program does; every method is proved against a specification
  over values.  `EvseControl` specifies the charging state machine, `EvseRegulation`, `EvseJudgement` and
  `EvseAllocation` the load balancing, `EvseLimits` and `EvseEvaluations` what it keeps, `EvseTicks`
  what the 10 ms tick does to the nodes.  What these specifications amount to is written out apart from
  them: `EvseDiagram`, `EvseSeconds`, `EvseTimers` and `EvseCountdowns` for whole ticks, `EvseSteering` and
  `EvseVerdict` for an evaluation, `EvseGuarantees` for the start and the end of a charge.  `EvseSteps` defines runs:
  any interleaving of 10 ms ticks with any pilot reading, one-second ticks, access changes, loss of power,
  evaluations, phase checks, changes of settings and measurements, and answers of a master.  The
  methods that are steps are `Tick10ms`, `Tick1s`, `Authorize`, `LosePower`, `CalcBalancedCurrent` and
  `CheckPhases`; a caller that uses only these makes a run (`EvseSteps.RunExtends`), and what
  `EvseInvariant` and `EvseRuns` prove of all runs holds of it.  The other methods of the class are their
  parts, as the static functions and branches of the program are.  The fields that belong together are
  grouped in records (`Config`, `Control`, `Regulator`), which the methods update field by field.
  Contactors are recorded as last commanded.
  The number of nodes is any positive number.
* **Sharing current**: `Priority`, `Shortage`, `Surplus`, `Distribution` and `Rotation` are the sorting,
  scheduling, hand-out, distribution and rotation loops of the same file, in place on arrays.
* **The 1-Wire search** (`OneWireESP32.cpp`): `RomSearch`, on a bus of devices that answer together.
* **String search** (`ch32v003fun.c`): `ShortSearch` and `TwoWay`; `Words` holds the theory of periods
  and maximal suffixes, up to the critical factorization theorem.
* **The capacity tariff window** (`capacity_peak.c`): `CapacityPeak`, a stream refined by its history.
* **Diagnostics** (`diag_telemetry.c`, `diag_telemetry.h`): `DiagRing`, `DiagFile`, `DiagCapture`, `Crc32`.
* **IPv6 checksum and responses** (`ipv6.cpp`): `OnesComplement`, `Ipv6Frames`.

Conventions: currents of meters and nodes are integers in tenths of an ampere, settings in amperes; C
division, and conversions to 8, 16 and 32 bits, are written out (`CArithmetic`) where a value can reach
them.  Settings and meter values that the program reads are inputs and may change between any two steps.

Findings, with the lemma that states the exact condition and the one that gives an input:

* A node under a master charges without authorization when its access is withdrawn while its request for
  current is pending (`EvseRuns.UnpermittedExactly`, `EvseNode.NodeChargesUnauthorized`).
* Priority scheduling gives a node the minimum current even if its maximum is smaller
  (`EvseLimits.MaximumKept`, `EvseLimits.MinimumAboveMaximum`).
* In a shortage a single charging node is kept at its minimum even if less is available
  (`EvseLimits.WithinAvailable`, `EvseLimits.SingleNodeAboveAvailable`).
* `evse_is_current_available` does not ask the circuit meter: in smart mode the evaluation after a grant
  counts a hard shortage while the meter is over its limit (`EvseJudgement.GrantLeavesRoom`,
  `EvseJudgement.GrantIgnoresCircuitMeter`).
* The evaluation for a newcomer shares the whole limit among the nodes that are charging already; with
  the newcomer's own current the mains or the circuit can be exceeded (`EvseLimits.NewcomerWithinLimits`,
  `EvseLimits.NewcomerAboveMains`).
* The limits on steps can leave nodes above what the distribution wants, and the total above the
  distributed one and above the mains (`EvseEvaluations.StepsTotal`, `EvseEvaluations.StepsAboveMains`).
* A slot that is still held by a node that left charging takes its share of the surplus until the next
  one-second tick (`EvseAllocation.PriorityConserves`, `EvseLimits.StaleSlotTakes`).
* A UDP checksum that computes to 0 is sent as 0 (`Ipv6Frames.ZeroFieldSent`,
  `Ipv6Frames.SomePortSendsZero`).
* The snapshot of `diag_telemetry.h` has 58 bytes, not the 64 its comment states
  (`DiagFile.SnapshotRoundTrip`).
* Some code of `evse_state_machine.c` is never needed: the guards against a negative step in lines 984-985
  and 1005-1006 (`EvseRegulation.StepStaysPositive`) and the second scan for an idle node's successor in
  lines 1114-1128 (`Rotation.SuccessorFound`); the model leaves both out.

## Model

| member | source | states |
|---|---|---|
| EvseRuns.ContactorsFollow | SmartEVSE-3/src/evse_state_machine.c:213-439 | After every run of steps from power-on, contactor 1 is closed exactly in C and C1, contactor 2 only together with contactor 1, and while charging contactor 2 is closed exactly when three phases are in use; for every phase setting and any pending phase switch |
| EvseRuns.ChargesPermitted | SmartEVSE-3/src/evse_state_machine.c:300-313 | After every run of a standalone or master controller (and of a node whose authorization is never withdrawn while its request is pending), charging implies authorization and no meter-loss and no temperature error |
| EvseRuns.WithdrawnExactly | SmartEVSE-3/src/evse_state_machine.c:300-313 | A step leaves a request or a charge without permission exactly when it withdraws authorization in COMM_C or COMM_C_OK |
| EvseRuns.EntryPermitted | SmartEVSE-3/src/evse_state_machine.c:1258-1324 | A step that enters C does so with permission, except exactly when a granted request has lost it |
| EvseRuns.UnpermittedExactly | SmartEVSE-3/src/evse_state_machine.c:1191-1344 | Over every run: it charges without permission at some point exactly if at some point a granted request that has lost permission meets a reading that starts the charge |
| EvseRuns.GrantedEnters | SmartEVSE-3/src/evse_state_machine.c:1320-1343 | From a granted request C is entered exactly at a 10 ms tick whose reading is not an unplugged or waiting car and not a short circuit of more than 500 ms |
| EvseDiagram.TenMilliseconds | SmartEVSE-3/src/evse_state_machine.c:1191-1344 | The seven handlers of the 10 ms tick, each acting on what the one before left, lead from every state, reading and answer about current to the state, the errors, the authorization and the knowledge of the diode that a flat diagram gives |
| EvseSeconds.OneSecond | SmartEVSE-3/src/evse_state_machine.c:1348-1552 | All handlers of the one-second tick together lead to the state and the error flags that are written out from the state, the timers and the measurements before it |
| EvseTimers.TenMillisecondTimers | SmartEVSE-3/src/evse_state_machine.c:1191-1344 | Every timer and counter after a whole 10 ms tick, by the state it leads from and to: the debounce, the delay before a charge, the times for a connected car to ask, the lock, the release of the pilot, the dialogue with the modem, the time above the sum of the mains |
| EvseTimers.Enters | SmartEVSE-3/src/evse_state_machine.c:338-436 | Which timers each state starts or ends when it is entered, from any state |
| EvseCountdowns.OneSecondCounts | SmartEVSE-3/src/evse_state_machine.c:1348-1552 | Every timer and counter after a whole one-second tick, through the two halves of the tick and what a loss of power starts |
| EvseCountdowns.CountdownsExactly | SmartEVSE-3/src/evse_state_machine.c:1348-1552 | Timer by timer: what counts down over a second, and what the transition of the tick starts; the delay before a charge is 60 with a shortage, 15 when a charge is stopped otherwise, 3 in other states without power, else counted down |
| EvseTimers.LockStarts | SmartEVSE-3/src/evse_state_machine.c:1203-1210 | The first reading of an unplugged car starts a lock of 60 seconds if authorization stands and there is a card reader |
| EvseCountdowns.LockExpires | SmartEVSE-3/src/evse_state_machine.c:1448-1457 | The lock counts down, and its end withdraws the authorization |
| EvseTimers.PilotReleased | SmartEVSE-3/src/evse_state_machine.c:349-356 | B1 releases the pilot for five seconds exactly when it is entered with authorization and the pilot connected |
| EvseGuarantees.StartsExactly | SmartEVSE-3/src/evse_state_machine.c:1258-1300 | Without a master a 10 ms tick starts a charge exactly if a connected car has asked for more than 500 ms, its diode is known, no error stands, no delay runs, it is authorized, and there is current for one more; if only current is missing it stays connected and LESS_6A is set |
| EvseGuarantees.StartsIsEntry | SmartEVSE-3/src/evse_state_machine.c:1258-1300 | The tick that has current apportioned to this node is the one whose request handler enters C, on a request that fulfils every condition and is answered by current |
| EvseGuarantees.ConnectsExactly | SmartEVSE-3/src/evse_state_machine.c:1211-1242 | Without a master a car is connected exactly if it arrives authorized without error and delay and there is current for one more; if only current is missing it stays where it is and LESS_6A is set |
| EvseGuarantees.BeginsWithRoom | SmartEVSE-3/src/evse_state_machine.c:1258-1300 | Over every run without a master whose ticks are answered from the node tables: a charge that begins was asked for, and the minimum current for one more node fitted under every limit |
| EvseGuarantees.TemperatureExactly | SmartEVSE-3/src/evse_state_machine.c:1459-1546 | After a one-second tick TEMP_HIGH stands exactly if it is hotter than the limit, or it stood and it is not 10 degrees cooler; and when it comes up the controller does not charge |
| EvseGuarantees.SilenceExactly | SmartEVSE-3/src/evse_state_machine.c:1470-1515 | After a one-second tick the loss of a meter stands exactly if it stood or is found, and its timeout has not been renewed; and when it is found the controller does not charge |
| EvseGuarantees.NoChargeInDanger | SmartEVSE-3/src/evse_state_machine.c:1470-1546 | Over every run without a master no one-second tick ends in a charge while it is hotter than the limit or a meter in use is silent |
| EvseGuarantees.AuthorizationExactly | SmartEVSE-3/src/evse_state_machine.c:300-313 | Where the withdrawal of authorization leads from each state |
| EvseGuarantees.PowerLossExactly | SmartEVSE-3/src/evse_state_machine.c:274-281 | Where a loss of power leads from each state |
| EvseGuarantees.ChargePhases | SmartEVSE-3/src/evse_state_machine.c:396-419 | A charge begins on one phase exactly if the second contactor is never used, or it is a choice and one phase is pending, or nothing is and one was in use; nothing is pending then |
| EvseGuarantees.PlannedPhases | SmartEVSE-3/src/evse_state_machine.c:225-256 | While a car is there a check of the phases leaves those in use, plans what the setting says, and leaves a switch pending exactly if the two differ; without a car what the setting says is in use at once |
| EvseGuarantees.CheckedPhases | SmartEVSE-3/src/evse_state_machine.c:225-256 | After a check of the phases the next charge uses those that the setting demands |
| EvseNode.NodeChargesUnauthorized | SmartEVSE-3/src/evse_state_machine.c:300-313 | For every configuration of a node under a master there is a concrete run from power-on at whose end it charges with authorization off: evse_set_access does not act on COMM_C |
| EvseRuns.TickStopsShortage | SmartEVSE-3/src/evse_state_machine.c:1548-1552 | If LESS_6A is set at the end of a one-second tick, the controller is in A, B1 or C1 with a charge delay of 60 |
| EvseRuns.NoCycling | SmartEVSE-3/src/evse_state_machine.c:1194-1248 | After a one-second tick that ends with LESS_6A set, no interleaving of steps with fewer than 60 further one-second ticks and without an unplugged reading leaves {A, B1, C1}, and the delay left is at least 60 minus the seconds passed |
| EvseRuns.CoolingStep | SmartEVSE-3/src/evse_state_machine.c:1194-1248 | Each single step keeps the pause after a shortage; only the one-second tick shortens it, by one |
| EvseRuns.ShutdownBounded | SmartEVSE-3/src/evse_state_machine.c:1302-1310 | Whenever C1 is reached, both contactors are open in A or B1 after at most seven one-second ticks whatever else happens, and until then the controller stays in C1 |
| EvseRuns.WindDownStep | SmartEVSE-3/src/evse_state_machine.c:1302-1310 | No step leads from C1 anywhere but to A or B1 with open contactors, none extends its timer, and a one-second tick shortens it |
| EvseRuns.DiodeBeforeCharging | SmartEVSE-3/src/evse_state_machine.c:1258-1324 | Every entry into C, also one that is left within the same tick, is preceded by a diode reading since which the diode has been known and the controller has not been charging |
| EvseRuns.BeginsExactly | SmartEVSE-3/src/evse_state_machine.c:1258-1343 | Within a 10 ms tick C is reached exactly if it is there at the end or a granted request is served; whenever it is reached the diode is forgotten |
| EvseRuns.DiodeStep | SmartEVSE-3/src/evse_state_machine.c:1258-1324 | The diode becomes known only by a reading of it, and no step enters C unless it was known |
| EvseSteps.RunExtends | SmartEVSE-3/src/evse_state_machine.c:1191-1556 | One more step of any kind extends a run, so that a caller of the step methods makes a run |
| EvseInvariant.SafeStep | SmartEVSE-3/src/evse_state_machine.c:1191-1556 | Every step under every setting keeps the whole invariant: contactors, authorization, diode, and a shutdown timer of at most six |
| EvseInvariant.StepPreserves | SmartEVSE-3/src/evse_state_machine.c:1191-1556 | Every step under fixed settings keeps the invariant, with authorization unless it is withdrawn while a request is pending |
| EvseControl.SetState | SmartEVSE-3/src/evse_state_machine.c:338-439 | What every transition does to contactors, error flags, authorization, the shutdown timer and the charge delay |
| EvseControl.CheckSwitchingPhases | SmartEVSE-3/src/evse_state_machine.c:225-256 | Touches only the pending switch and the number of phases, and the latter only in state A |
| EvseController.Controller.constructor | SmartEVSE-3/src/evse_state_machine.c:66-197 | Power-on: all tables empty, the invariant holds, the first evaluation is allowed |
| EvseController.Controller.LosePower | SmartEVSE-3/src/evse_state_machine.c:274-281 | A step of the runs that keeps the invariant and never leaves the controller in C |
| EvseController.Controller.Authorize | SmartEVSE-3/src/evse_state_machine.c:300-313 | A step of the runs that keeps the invariant (with authorization, unless a request is pending); without access the controller is not in C afterwards |
| EvseController.Controller.Tick10ms | SmartEVSE-3/src/evse_state_machine.c:1191-1344 | The whole 10 ms tick: the new control state, the regulation and all node tables are the specified ones, and state, errors, authorization, diode and timers those of the diagram, with the answer about current of the tables before; it is a step of the runs, and it keeps contactors, authorization, diode knowledge and the shutdown timer as a caller relies on |
| EvseController.Controller.Tick1s | SmartEVSE-3/src/evse_state_machine.c:1348-1556 | The whole one-second tick including the scheduler, as specified, with state, errors and delay as written out; it is a step of the runs, keeps the same invariant, and never ends in a charge with LESS_6A set |
| EvseController.Controller.IsCurrentAvailable | SmartEVSE-3/src/evse_state_machine.c:443-489 | The loop over the nodes answers whether one more charging node fits under every limit |
| EvseController.Controller.CalcBalancedCurrent | SmartEVSE-3/src/evse_state_machine.c:623-1040 | One evaluation takes control state, regulation and node tables to what the specification relates; it is a step of the runs that keeps the invariant, and for a newcomer it keeps the others within mains and circuit limits and, with the newcomer counted, keeps them exactly if there is room for its current beside what is due to the others |
| EvseController.Controller.ShareByPriority | SmartEVSE-3/src/evse_state_machine.c:869-888 | Sorting, priority scheduling and the hand-out relate the tables as specified, in the one priority order; reports whether anybody got a slot |
| EvseRegulation.MeanBetween | SmartEVSE-3/src/evse_state_machine.c:764-769 | The truncated weighted mean lies between the two values it is taken of |
| EvseRegulation.MeanBetweenExactly | SmartEVSE-3/src/evse_state_machine.c:833-838 | Weights up to the whole (100) are exactly those for which every mean lies between its values |
| EvseRegulation.FilteredHeadroomInRange | SmartEVSE-3/src/evse_state_machine.c:764-769 | Over any sequence of evaluations the filtered headroom stays within the range of its first value and all headrooms, for every configured weight |
| EvseRegulation.SmoothedCurrentInRange | SmartEVSE-3/src/evse_state_machine.c:833-838 | Over any sequence of evaluations the smoothed limit stays within the range of its first value and all unsmoothed limits, for weights up to 100 |
| EvseRegulation.NoSmoothing | SmartEVSE-3/src/evse_state_machine.c:833-838 | With weight 100 smoothing changes nothing, under truncating division |
| EvseSteering.HeadroomIsGreatest | SmartEVSE-3/src/evse_state_machine.c:685-725 | The headroom is the greatest increase with which mains, circuit, sum of the mains, capacity limit and circuit meter are kept |
| EvseSteering.GuardedIsGreatest | SmartEVSE-3/src/evse_state_machine.c:807-828 | The guard rails leave the greatest limit that is within all of them and not above the one before |
| EvseSteering.Steers | SmartEVSE-3/src/evse_state_machine.c:731-838 | An evaluation that regulates: the filtered headroom goes its part of the way to the headroom; within the dead band the limit stays, above it the limit does not fall, below it does not rise, by the whole part of the filtered headroom in steps of ramp divisor plus oscillations; then it is the greatest within 0 to 80 A and the guard rails; smoothing goes its part of the way |
| EvseSteering.NormalLimit | SmartEVSE-3/src/evse_state_machine.c:673-684 | In normal mode the limit is the greatest within the guard rails and, but for the master of a group, the charge current |
| EvseSteering.JoiningLimit | SmartEVSE-3/src/evse_state_machine.c:785-838 | For a newcomer the unsmoothed limit is the greatest with which mains, circuit and the sum of the mains are kept, within the guard rails |
| EvseSteering.SettledLimit | SmartEVSE-3/src/evse_state_machine.c:731-838 | While the limit settles only the guard rails and smoothing act on it |
| EvseSteering.StaleLimit | SmartEVSE-3/src/evse_state_machine.c:731-838 | Without fresh data it only comes back into 0 to 80 A and the guard rails |
| EvseSteering.RoomIsUsed | SmartEVSE-3/src/evse_state_machine.c:731-838 | Over a run of evaluations with a constant headroom that is enough for a step the limit ends at the greatest within 80 A and the guard rails, whatever it starts from, within a bounded number of evaluations, and stays there |
| EvseSteering.RisesToRails | SmartEVSE-3/src/evse_state_machine.c:731-838 | On the way there every evaluation raises it by a unit or more |
| EvseSteering.SignChangesCount | SmartEVSE-3/src/evse_state_machine.c:735-754 | Each change of sign of the headroom slows the regulation by one, up to the maximum |
| EvseSteering.SameSignCalms | SmartEVSE-3/src/evse_state_machine.c:735-754 | Each headroom of the same sign takes that back, two at a time for a standalone charger |
| EvseSteering.AvailableMeans | SmartEVSE-3/src/evse_state_machine.c:443-489 | The answer about current is yes exactly if some total, with the minimum or more for every charging node and one more, is under every limit |
| EvseVerdict.OwnLimit | SmartEVSE-3/src/evse_state_machine.c:634-652 | A positive current is within the charger's own limit exactly if it is within the configured maximum, the cable's at a socket, and that of the central system, which must not be below the minimum |
| EvseVerdict.OwnMaximum | SmartEVSE-3/src/evse_state_machine.c:634-652 | An evaluation makes the charger's own limit the maximum of node 0 and leaves that of every other node |
| EvseVerdict.VerdictExactly | SmartEVSE-3/src/evse_state_machine.c:674-932 | The whole verdict of an evaluation: shortage counter, LESS_6A, the time above the limit on the sum of the mains, and the pending phase switch, written out from settings and measurements |
| EvseVerdict.HardShortageMeans | SmartEVSE-3/src/evse_state_machine.c:853-867 | A shortage is hard exactly if the minimum for all does not fit mains or circuit, or the sum of the mains is exceeded and may not be, or the circuit meter is overloaded |
| EvseVerdict.LimitAfterwards | SmartEVSE-3/src/evse_state_machine.c:841-970 | After a distribution the remembered limit is what was distributed, or by priority the minimum for all |
| EvseVerdict.StandaloneRamps | SmartEVSE-3/src/evse_state_machine.c:995-1020 | Over an evaluation the current of a standalone charger moves at most by the ramp rate, is remembered, and settles exactly after a change |
| EvseVerdict.StartsAtMinimum | SmartEVSE-3/src/evse_state_machine.c:1276-1280 | A charge that starts begins with the minimum current |
| EvseVerdict.OfferedCurrent | SmartEVSE-3/src/evse_state_machine.c:1217-1229 | What a newly connected car is offered |
| EvseRegulation.ApproachesWithoutOvershoot | SmartEVSE-3/src/evse_state_machine.c:972-987 | A node with a current moves by at most the step, towards the target and not past it |
| EvseRegulation.StepBalance | SmartEVSE-3/src/evse_state_machine.c:972-987 | What a step keeps a node below its share and what it leaves it above balance: current plus shortfall equals share plus excess |
| EvseEvaluations.StepsTotal | SmartEVSE-3/src/evse_state_machine.c:972-993 | In a complete evaluation without a newcomer the total after the steps exceeds the distributed one exactly if what nodes keep above their shares, beyond one step each, is more than what others are kept below theirs |
| EvseEvaluations.StepsAboveMains | SmartEVSE-3/src/evse_state_machine.c:807-993 | Input: one node at 20 A, 10 A in the house, mains of 25 A; the distribution gives the node 15 A, the step leaves it at 17 A |
| EvseRegulation.StepStaysPositive | SmartEVSE-3/src/evse_state_machine.c:983-985 | A step down always starts above the step, so the guard against a negative current is never needed |
| EvseRegulation.CurrentsBounded | SmartEVSE-3/src/evse_state_machine.c:972-993 | Steps towards targets within a limit stay within it |
| EvseRegulation.ReachesTarget | SmartEVSE-3/src/evse_state_machine.c:972-993 | A constant target is reached after n evaluations exactly if n steps cover the distance |
| EvseEvaluations.CurrentsOfNode | SmartEVSE-3/src/evse_state_machine.c:972-993 | Over any number of evaluations, with and without fresh data, the remembered current of a charging node is the stepwise approach to what the distributions wanted, and is its current whenever one was made |
| EvseEvaluations.CurrentsWithinMaximum | SmartEVSE-3/src/evse_state_machine.c:841-993 | Over any number of evaluations a node that starts within its maximum stays within it, unless priority scheduling raises it to a minimum above the maximum |
| EvseEvaluations.FirstCurrentWithinMaximum | SmartEVSE-3/src/evse_state_machine.c:841-993 | Exact: a node without a current gets more than its maximum in the next distribution exactly if it is so raised |
| EvseEvaluations.EvaluationMovesGently | SmartEVSE-3/src/evse_state_machine.c:972-993 | In a complete evaluation without a newcomer a charging node with a current moves at most 3 A and not past its share |
| EvseJudgement.JudgedIsBalance | SmartEVSE-3/src/evse_state_machine.c:841-932 | An evaluation raises LESS_6A but never clears it, and otherwise touches only counters and the pending phase switch |
| EvseJudgement.GracePeriod | SmartEVSE-3/src/evse_state_machine.c:902-913 | A shortage that lasts fewer evaluations than the threshold does not raise LESS_6A |
| EvseJudgement.GrantLeavesRoom | SmartEVSE-3/src/evse_state_machine.c:443-489 | After current was granted, the next evaluation with the newcomer comes to a hard shortage exactly if the circuit meter, which the grant does not ask, is over its limit and the evaluation is short; without smoothing it always is in smart mode with fresh data, and in normal mode exactly if the charge current or the open grid relay makes it so |
| EvseJudgement.ShortageCounted | SmartEVSE-3/src/evse_state_machine.c:841-913 | Without priority scheduling the shortage counter rises exactly when an evaluation finds a hard shortage, no switch to one phase is under way and the counter is not full |
| EvseJudgement.GrantIgnoresCircuitMeter | SmartEVSE-3/src/evse_state_machine.c:443-489 | Input: smart mode, a subpanel limited to 10 A and measured at 10.1 A; current is granted, and the first evaluation counts a hard shortage |
| EvseLimits.EvaluationKeepsLimits | SmartEVSE-3/src/evse_state_machine.c:785-970 | End to end, for the nodes that are charging already: a newcomer's evaluation without smoothing of the limit, which is not short or shares by priority, keeps them plus all other consumption within the mains wherever they are guarded, and within the circuit wherever it is; also while a node that left charging still holds a slot |
| EvseLimits.NewcomerWithinLimits | SmartEVSE-3/src/evse_state_machine.c:1276-1280 | The same with the newcomer counted, for every evaluation made for it: mains, and circuit, are kept exactly if what is due to the others plus the newcomer's own current plus the other consumption fit; without shortage what is due is the smaller of the limit and the sum of the maxima |
| EvseLimits.NewcomerAdds | SmartEVSE-3/src/evse_state_machine.c:841-970 | The newcomer's current comes on top of what the distribution makes of the whole limit |
| EvseLimits.NewcomerAboveMains | SmartEVSE-3/src/evse_state_machine.c:1276-1280 | Input: mains of 25 A, one node at 16 A with a maximum of 32 A, minimum 6 A; current is granted, and 31 A are assigned |
| EvseLimits.LimitsKept | SmartEVSE-3/src/evse_state_machine.c:807-970 | The same of the distribution, with and without a newcomer |
| EvseLimits.WithinAvailable | SmartEVSE-3/src/evse_state_machine.c:841-970 | The distributed total exceeds what was available exactly when a single node is kept at its minimum, or its smaller maximum, in a shortage and that is more than available |
| EvseLimits.SingleNodeAboveAvailable | SmartEVSE-3/src/evse_state_machine.c:843-970 | Input: one node, minimum 6 A, nothing available; it gets 6 A |
| EvseLimits.MaximumKept | SmartEVSE-3/src/evse_state_machine.c:548-619 | A charging node gets no more than its maximum, except exactly when priority scheduling has a place for it and its maximum is below the minimum current |
| EvseLimits.MinimumAboveMaximum | SmartEVSE-3/src/evse_state_machine.c:548-572 | Input: two nodes with maxima of 6 A, minimum 16 A, 20 A available; the first gets 16 A |
| EvseLimits.MinimumKept | SmartEVSE-3/src/evse_state_machine.c:841-970 | Without priority scheduling every charging node gets the minimum current or its smaller maximum; with it, every node that has a place gets the minimum and the others nothing |
| EvseLimits.TargetGuarded | SmartEVSE-3/src/evse_state_machine.c:807-838 | Without smoothing the limit never exceeds what mains and circuit leave |
| EvseAllocation.PriorityConserves | SmartEVSE-3/src/evse_state_machine.c:548-619 | Priority scheduling and hand-out together: what the charging nodes get and the leftover add up to the available current, except exactly when a node that left charging still holds a slot below its maximum and the surplus has a unit for every slot holder below its maximum up to it; leftover only when every slot holder is at its maximum; a charging slot holder with two units less than another is at its maximum |
| EvseAllocation.StaleGains | SmartEVSE-3/src/evse_state_machine.c:575-619 | Which nodes that left charging take part of the surplus: exactly those |
| EvseAllocation.PrioritizedUnique | SmartEVSE-3/src/evse_state_machine.c:548-619 | Slots, errors and currents after sharing by priority are determined by the nodes, the order and the available current |
| EvseLimits.StaleSlotTakes | SmartEVSE-3/src/evse_state_machine.c:548-619 | Input: two charging nodes and one that has left with its slot, 6 A each, 10 A available; every distribution gives 8 A to the first and 2 A to the one that has left |
| EvseAllocation.SlotsAfterScheduling | SmartEVSE-3/src/evse_state_machine.c:548-572 | After scheduling exactly the funded charging nodes have a slot, at the minimum; the other charging nodes have none and nothing; all others keep what they had |
| EvseTicks.LoadOfCharging | SmartEVSE-3/src/evse_state_machine.c:443-455 | The answer about current does not depend on which other states the non-charging nodes are in |
| Priority.SortPriority | SmartEVSE-3/src/evse_state_machine.c:494-544 | The insertion sort yields the priority order: charging first, then the strategy's key with never-connected nodes last, then the node number |
| Priority.OrderUnique | SmartEVSE-3/src/evse_state_machine.c:494-544 | There is only one permutation in priority order |
| Priority.TestIsOrder | SmartEVSE-3/src/evse_state_machine.c:506-532 | The program's pairwise test is the documented order for a later node against an earlier one |
| Priority.PrecedesLinear | SmartEVSE-3/src/evse_state_machine.c:506-532 | The documented order is a linear order, for every strategy |
| Priority.Inserted | SmartEVSE-3/src/evse_state_machine.c:500-543 | Inserting a node where the test stops keeps the order |
| Shortage.SchedulePriority | SmartEVSE-3/src/evse_state_machine.c:548-572 | Each node gets the decision for its place in the order, and allocations plus surplus equal the available current |
| Shortage.FirstAreFunded | SmartEVSE-3/src/evse_state_machine.c:548-572 | Exactly the first min(charging, available / minimum) charging nodes of the order are funded |
| Shortage.NoInversion | SmartEVSE-3/src/evse_state_machine.c:548-572 | A funded charging node precedes every one that is not |
| Surplus.HandoutSurplus | SmartEVSE-3/src/evse_state_machine.c:575-619 | The hand-out terminates; all slot holders gain the same level, those before some place one unit more, each as far as it has room below its maximum, whatever they start with; nobody else gains; gains plus leftover equal the surplus; leftover only when all are at their maximum |
| Surplus.HandOutReaches | SmartEVSE-3/src/evse_state_machine.c:588-615 | A slot holder gains exactly if it is below its maximum and the surplus has a unit for each such slot holder up to it |
| Surplus.HandOutUnique | SmartEVSE-3/src/evse_state_machine.c:575-619 | That description determines the currents and the leftover |
| Surplus.OneRound | SmartEVSE-3/src/evse_state_machine.c:593-615 | One round gives every open node its share, or runs out while dealing single units |
| Surplus.RoundLevel | SmartEVSE-3/src/evse_state_machine.c:593-615 | A round raises the common gain by the share, or ends the hand-out with one unit more for the nodes before the place where it ran out |
| Distribution.Distribute | SmartEVSE-3/src/evse_state_machine.c:939-970 | Both passes terminate and distribute exactly the total: every charging node at its maximum, if that is not above the level, or else at the level or one above |
| Distribution.CapPass | SmartEVSE-3/src/evse_state_machine.c:942-957 | The first pass, restarted at each cap, leaves exactly the nodes whose maximum is above the average of the rest |
| Distribution.EqualPass | SmartEVSE-3/src/evse_state_machine.c:959-969 | The second pass gives the rest completely, in shares that differ by at most one |
| Distribution.MaxMinFair | SmartEVSE-3/src/evse_state_machine.c:939-970 | No other allocation of the same total gives a node more without taking from one that has, up to a unit, no more than it |
| Distribution.MinimumGuaranteed | SmartEVSE-3/src/evse_state_machine.c:939-970 | With enough for m each before the total is limited to the sum of the maxima, every charging node gets m or its smaller maximum |
| Distribution.AverageRises | SmartEVSE-3/src/evse_state_machine.c:944-957 | Capping a node at or below the average does not lower the average of the rest |
| Rotation.Tick | SmartEVSE-3/src/evse_state_machine.c:1045-1183 | The scheduler tick relates slots, idle timers, currents, rotation timer and connection times as specified |
| Rotation.SlotsConserved | SmartEVSE-3/src/evse_state_machine.c:1045-1183 | After the clean-up a tick conserves the numbers of active and of paused nodes and makes at most one exchange, between two different charging nodes |
| Rotation.RotationIsCyclic | SmartEVSE-3/src/evse_state_machine.c:1136-1181 | When the rotation timer runs out, the tick pauses the first active node, takes its current, gives its slot to the next waiting node in cyclic priority order, never back to the node just paused, changes no other slot, and restarts the timer |
| Rotation.RotatesExactly | SmartEVSE-3/src/evse_state_machine.c:1074-1181 | While no node is idle beyond its time, a tick changes the slots exactly when the timer runs out |
| Rotation.SuccessorFound | SmartEVSE-3/src/evse_state_machine.c:1100-1128 | The first scan behind an idle node always finds another waiting node, so the second scan is never reached |
| Rotation.IdleHandsOver | SmartEVSE-3/src/evse_state_machine.c:1080-1113 | The first node that has had its slot for the idle time and draws nothing (no current, or less than 1 A measured) pauses, loses its current, and its slot goes to the first waiting node of the order |
| Rotation.LosesSlotExactly | SmartEVSE-3/src/evse_state_machine.c:1080-1181 | In every tick with somebody waiting, a node loses its slot exactly if it is the first idle one, or nobody is, the timer runs out and it is the first active one |
| Rotation.TimerExactly | SmartEVSE-3/src/evse_state_machine.c:1085-1181 | The rotation timer: started by a node that has had its time and draws, counted down, started again when it ends |
| Rotation.UncontendedRests | SmartEVSE-3/src/evse_state_machine.c:1063-1072 | Nothing happens unless somebody has a slot and somebody waits |
| Rotation.ConnectedSince | SmartEVSE-3/src/evse_state_machine.c:1045-1062 | Over any ticks a node's connection time is that of the first tick of its uninterrupted charge |
| RomSearch.Search | SmartEVSE-3/src/OneWireESP32.cpp:264-310 | For any set of devices, any capacity and any lost reset the search terminates and returns an enumeration of the first min(devices, capacity) addresses, or nothing |
| RomSearch.EnumeratesAll | SmartEVSE-3/src/OneWireESP32.cpp:264-310 | With capacity for all, the addresses returned are exactly the devices, each once, increasing from the least significant bit |
| RomSearch.EnumerationUnique | SmartEVSE-3/src/OneWireESP32.cpp:264-310 | There is only one such enumeration |
| RomSearch.Pass | SmartEVSE-3/src/OneWireESP32.cpp:273-307 | One pass on the wired-AND bus finds the address that the last discrepancy determines, or nobody |
| RomSearch.PassFindsLeast | SmartEVSE-3/src/OneWireESP32.cpp:264-310 | The address found is the least one not yet seen |
| RomSearch.PassProgress | SmartEVSE-3/src/OneWireESP32.cpp:264-310 | The remembered discrepancy is the deepest place where the current address took 0 and a device has 1 |
| RomSearch.NextIsSuccessor | SmartEVSE-3/src/OneWireESP32.cpp:285-295 | Turning at the last discrepancy leads to the next larger address of the set |
| RomSearch.FirstIsLeast | SmartEVSE-3/src/OneWireESP32.cpp:285-295 | Without a discrepancy the pass takes the least address |
| RomSearch.NoBranchIsGreatest | SmartEVSE-3/src/OneWireESP32.cpp:273-295 | Without a place to turn at, the address is the greatest, and the search may end |
| ShortSearch.TwoByte | SmartEVSE-3/ch32v003fun/ch32v003fun.c:149-154 | The rolling word finds the first occurrence, exactly if there is one |
| ShortSearch.ThreeByte | SmartEVSE-3/ch32v003fun/ch32v003fun.c:156-162 | The rolling word finds the first occurrence, exactly if there is one |
| ShortSearch.FourByte | SmartEVSE-3/ch32v003fun/ch32v003fun.c:164-170 | The rolling word finds the first occurrence, exactly if there is one |
| TwoWay.Search | SmartEVSE-3/ch32v003fun/ch32v003fun.c:178-281 | The Two-Way search terminates and returns the first occurrence exactly if there is one, including every shift taken without comparing |
| TwoWay.MaximalSuffix | SmartEVSE-3/ch32v003fun/ch32v003fun.c:190-228 | The scan computes the start and the period of the maximal suffix, for either order of letters |
| TwoWay.Analyse | SmartEVSE-3/ch32v003fun/ch32v003fun.c:190-235 | The needle is cut at a critical position, with its period or a safe shift, and with memory only if the needle is periodic |
| TwoWay.Conclude | SmartEVSE-3/ch32v003fun/ch32v003fun.c:227-235 | The comparison of prefixes decides periodicity correctly |
| TwoWay.Tabulate | SmartEVSE-3/ch32v003fun/ch32v003fun.c:185-188 | The tables hold the last position of every letter of the needle |
| TwoWay.LastLetterShift | SmartEVSE-3/ch32v003fun/ch32v003fun.c:253-266 | Shifting by the last letter's distance, but not below what memory demands, skips no occurrence |
| TwoWay.RightShift | SmartEVSE-3/ch32v003fun/ch32v003fun.c:268-274 | Shifting after a mismatch in the right half skips no occurrence |
| TwoWay.LeftShift | SmartEVSE-3/ch32v003fun/ch32v003fun.c:275-279 | Shifting by the period after a mismatch in the left half skips no occurrence |
| TwoWay.Remembered | SmartEVSE-3/ch32v003fun/ch32v003fun.c:275-279 | After such a shift the remembered prefix already agrees |
| Words.CriticalFactorization | SmartEVSE-3/ch32v003fun/ch32v003fun.c:190-228 | The critical factorization theorem: at the shorter of the two maximal suffixes no local repetition is shorter than the needle's period there |
| Words.ShortPeriodIsGlobal | SmartEVSE-3/ch32v003fun/ch32v003fun.c:230-235 | A local repetition no longer than the left half, at the cut, is a period of the whole needle if the suffix's period is |
| Words.Finished | SmartEVSE-3/ch32v003fun/ch32v003fun.c:190-206 | A scan that reached the end has found the maximal suffix and its least period |
| CapacityPeak.CapacityState.constructor | SmartEVSE-3/src/capacity_peak.c:14-17 | Refines the empty history |
| CapacityPeak.CapacityState.Tick1s | SmartEVSE-3/src/capacity_peak.c:24-55 | After any sequence of samples: elapsed seconds modulo 900, the sum of the open window, the truncated mean of the last complete window without loss, and the maximum of 0 and the means completed since the last change of month |
| CapacityPeak.CapacityState.HeadroomW | SmartEVSE-3/src/capacity_peak.c:57-103 | The reported headroom is the one of the history |
| CapacityPeak.CapacityState.SetLimit | SmartEVSE-3/src/capacity_peak.c:19-22 | Changes the limit and nothing of the history |
| CapacityPeak.TickPeak | SmartEVSE-3/src/capacity_peak.c:24-55 | How the monthly peak follows the history over a change of month |
| CapacityPeak.TickWindow | SmartEVSE-3/src/capacity_peak.c:36-54 | How window and mean follow the history |
| CapacityPeak.HeadroomIsSafe | SmartEVSE-3/src/capacity_peak.c:57-103 | Drawing exactly the reported headroom for the rest of the window records an average of at most the limit, from any state, also over budget |
| CapacityPeak.HeadroomIsTight | SmartEVSE-3/src/capacity_peak.c:57-103 | While the budget is not exceeded, one watt more breaks it |
| CapacityPeak.HeadroomFitsInPractice | SmartEVSE-3/src/capacity_peak.c:87-102 | The conversion to 32 bits loses nothing below 1.19 MW |
| CapacityPeak.NoLimit | SmartEVSE-3/src/capacity_peak.c:56-59 | A limit of 0 holds no power back |
| CapacityPeak.QuarterHours | SmartEVSE-3/src/capacity_peak.c:39-53 | The windows are the quarter hours of the history |
| CapacityPeak.ObedientWithinBudget | SmartEVSE-3/src/capacity_peak.c:57-103 | From any moment within the budget of the running window, for instance when the limit is set, obeying the headroom every second never leaves the budget |
| CapacityPeak.ObedientPeak | SmartEVSE-3/src/capacity_peak.c:24-103 | ... and no average recorded afterwards exceeds the limit |
| CapacityPeak.ObedientMonth | SmartEVSE-3/src/capacity_peak.c:24-103 | ... and no peak of a month whose averages are all recorded afterwards |
| DiagRing.Ring.constructor | SmartEVSE-3/src/diag_telemetry.c:12-21 | An empty ring over any storage |
| DiagRing.Ring.Push | SmartEVSE-3/src/diag_telemetry.c:36-47 | The wrapping index keeps exactly the last pushes, unless the ring is frozen |
| DiagRing.Ring.Read | SmartEVSE-3/src/diag_telemetry.c:49-73 | Reads the oldest-first prefix of the last min(pushes, capacity) snapshots |
| DiagRing.Ring.Reset | SmartEVSE-3/src/diag_telemetry.c:23-34 | Forgets all pushes |
| DiagRing.Ring.SetProfile | SmartEVSE-3/src/diag_telemetry.c:75-99 | Selects what is captured; every profile samples at every tick |
| DiagRing.Ring.Freeze | SmartEVSE-3/src/diag_telemetry.c:101-106 | Stops and resumes capture without touching the kept snapshots |
| DiagRing.Ring.Tick | SmartEVSE-3/src/diag_telemetry.c:108-120 | A sample is due at every tick unless capture is off |
| DiagRing.SlotOfKept | SmartEVSE-3/src/diag_telemetry.c:59-70 | Where the wrapping index finds the i-th oldest snapshot |
| DiagRing.WrapDistinct | SmartEVSE-3/src/diag_telemetry.c:36-73 | Pushes less than the capacity apart lie in different slots |
| DiagCapture.Serialize | SmartEVSE-3/src/diag_telemetry.c:146-196 | The file is header, snapshots oldest first and checksum, in exactly the bytes reported; nothing is written when it does not fit |
| DiagCapture.WrittenFileParses | SmartEVSE-3/src/diag_telemetry.c:146-196 | A reader of the written file finds version 1, the profile's number, 58 bytes a snapshot, the firmware's name or its first 15 characters, serial number, start time, and the last pushes; the checksum over the whole file is the residue |
| DiagFile.FileRoundTrip | SmartEVSE-3/src/diag_telemetry.h:84-93 | Parsing a file gives back header and snapshots |
| DiagFile.SnapshotRoundTrip | SmartEVSE-3/src/diag_telemetry.h:20-63 | The 58 bytes of a snapshot determine it |
| DiagFile.SnapshotsRoundTrip | SmartEVSE-3/src/diag_telemetry.c:182-188 | A sequence of snapshots survives encoding |
| DiagFile.HeaderRoundTrip | SmartEVSE-3/src/diag_telemetry.h:84-93 | The 34 bytes of the header determine it |
| DiagFile.HeaderLayout | SmartEVSE-3/src/diag_telemetry.h:84-93 | Where each field of the header stands, low byte first |
| DiagFile.SnapshotLayout | SmartEVSE-3/src/diag_telemetry.h:19-63 | Where each field of the packed snapshot stands, low byte first |
| DiagFile.CorruptionDetected | SmartEVSE-3/src/diag_telemetry.c:124-196 | A file changed within four consecutive bytes of its payload is rejected |
| DiagFile.FirmwareText | SmartEVSE-3/src/diag_telemetry.c:171-177 | Read as a C string, the version field holds the version or its first 15 characters |
| Crc32.ComputeCrc | SmartEVSE-3/src/diag_telemetry.c:124-142 | The loops compute the register of the bit steps, inverted |
| Crc32.BitStepInjective | SmartEVSE-3/src/diag_telemetry.c:133-139 | One bit step is injective |
| Crc32.RegisterInjective | SmartEVSE-3/src/diag_telemetry.c:124-142 | Equal data keep different registers different |
| Crc32.BurstDetected | SmartEVSE-3/src/diag_telemetry.c:124-142 | Equally long buffers that differ only within four consecutive bytes have different checksums (section 8 of RFC 1952) |
| Crc32.PolynomialExponents | SmartEVSE-3/src/diag_telemetry.c:136-136 | The polynomial is that of RFC 1952, by its exponents |
| Crc32.CheckValue | SmartEVSE-3/src/diag_telemetry.c:119-142 | The checksum of the characters 1 to 9 is 0xCBF43926 |
| Crc32.Residue | SmartEVSE-3/src/diag_telemetry.c:119-142 | Data followed by its own checksum, low byte first, has the checksum 0x2144DF1C |
| Ipv6Frames.Responder.CalculateChecksum | SmartEVSE-3/src/ipv6.cpp:66-128 | For every frame length the loops compute the complement of the folded sum of pseudo header and frame, padding an odd frame in place |
| Ipv6Frames.Responder.SumWords | SmartEVSE-3/src/ipv6.cpp:103-123 | Folding each carry back keeps the running total within 16 bits and equal to ((T - 1) mod 65535) + 1 of the plain sum T |
| Ipv6Frames.Responder.PackResponseIntoUdp | SmartEVSE-3/src/ipv6.cpp:130-208 | Exactly one frame is sent, with the datagram and its checksum in place |
| Ipv6Frames.Responder.SendSdpResponse | SmartEVSE-3/src/ipv6.cpp:213-243 | The answer to a discovery request carries our address and port |
| Ipv6Frames.Responder.EvaluateNeighborSolicitation | SmartEVSE-3/src/ipv6.cpp:293-376 | Exactly one advertisement is sent, to the asker |
| Ipv6Frames.ChecksumVerifies | SmartEVSE-3/src/ipv6.cpp:66-128 | Recomputing after the result was written into the zero checksum word yields 0 (section 8.1 of RFC 8200, section 2.3 of RFC 4443) |
| Ipv6Frames.UdpFrameAccepted | SmartEVSE-3/src/ipv6.cpp:181-208 | The datagram passes a receiver's test, and its payload is behind the headers |
| Ipv6Frames.AdvertisementAccepted | SmartEVSE-3/src/ipv6.cpp:293-376 | The advertisement passes a receiver's test |
| Ipv6Frames.OneWordChange | SmartEVSE-3/src/ipv6.cpp:103-125 | A valid message with one aligned word changed stays valid exactly if the new word equals the old one modulo 65535 |
| Ipv6Frames.ZeroFieldSent | SmartEVSE-3/src/ipv6.cpp:204-206 | The field sent is 0 exactly when the words add up to a multiple of 65535, where section 8.1 of RFC 8200 wants 0xffff for UDP |
| Ipv6Frames.SomePortSendsZero | SmartEVSE-3/src/ipv6.cpp:181-208 | For all addresses and every payload some destination port yields a datagram sent with field 0 |
| Ipv6Frames.FrameLayout | SmartEVSE-3/src/ipv6.cpp:130-178 | Where a receiver finds type, length, next header, addresses and message |
| Ipv6Frames.PseudoHeaderWords | SmartEVSE-3/src/ipv6.cpp:81-100 | The pseudo header adds the addresses, the length and the next header to the sum |
| Ipv6Frames.DiscoveryAnswered | SmartEVSE-3/src/ipv6.cpp:213-243 | The frame that answers a discovery request reaches who asked, from port 15118, and passes a car's test of the response: versions, type 0x9001, length, our address and port, no transport security, TCP |
| Ipv6Frames.SolicitationAnswered | SmartEVSE-3/src/ipv6.cpp:293-376 | The advertisement reaches who asked and passes a neighbour's test: hop limit, type 136, flags, target, and the option with our MAC |
| OnesComplement.FoldStep | SmartEVSE-3/src/ipv6.cpp:103-123 | One addition with end-around carry keeps the fold of the sum |
| OnesComplement.FoldCongruent | SmartEVSE-3/src/ipv6.cpp:103-123 | Positive sums fold to the same value exactly if they are congruent modulo 65535 |
| OnesComplement.ChecksumCancels | SmartEVSE-3/src/ipv6.cpp:66-128 | Adding the checksum to the sum it was made of folds to 0xffff |
| CArithmetic.TruncDiv | SmartEVSE-3/src/evse_state_machine.c:764-776 | C division truncates toward zero |
| CArithmetic.TruncDivBounds | SmartEVSE-3/src/evse_state_machine.c:764-769 | A truncated quotient of a value between two multiples lies between them |

## Left out

- Controller steps not modelled: `evse_current_to_duty`, PWM, pilot and lock callbacks, the residual current monitor, and the firmware in `main.cpp` around this file (it calls `evse_set_state` directly in places).
- `OcppCurrentLimit` is a float in the source; here it is an optional number of tenths of an ampere.
- Per-node charge timers and phases, meter and recovery counters, the API staleness timer (only its suppression of the meter error is modelled), the diagnostic snapshot at the end of an evaluation.
- The comparison of the EVCCID with the required one is a setting that may change at any step; the modem's disconnect counter is changed from outside.
- Meter values, settings and sums are unbounded integers; the source's 32-bit intermediate results do not overflow for 16-bit inputs.
- The tables of node states, maxima and previous currents are sequence-valued fields of the controller, not arrays.
- Rotation across evaluations: a shortage evaluation rewrites all slots, so freedom from starvation is not claimed.
- EvseLimits.EvaluationKeepsLimits: states the limits for evaluations of a newcomer, without its own current, and without ramp; with it they hold exactly as `NewcomerWithinLimits` says, and in other evaluations the step limits of lines 974-1007 can leave currents above the distributed ones (`EvseEvaluations.StepsTotal`). `LimitsKept` covers the distribution itself in every evaluation.
- EvseRegulation.SmoothedCurrentInRange: for weights up to 100, the documented range; the setting is a byte, and above 100 it is false (`EvseRegulation.MeanBetweenExactly`).
- Debouncing of 500 ms as a time: `StateTimer` is shared between states and wraps.
- 1-Wire transport: writes are taken as delivered; resets and reads can fail. Timing, temperature reading and the RFID list are not part of the model.
- The `strstr` dispatcher and `strchr` (which returns the end of the string on a miss), `mini_itoa`, printf, startup and clock code of `ch32v003fun.c`.
- Pointers of the string search are positions, its maximal suffix index -1 is an integer, its bit set and shift table are arrays.
- `capacity_headroom_to_da`, the JSON text and the getters of `capacity_peak.c`; powers are 32-bit values whose sum over a window is not narrowed.
- Sampling and storage of captures; the ring's start time is set from outside.
- Ipv6Frames.Responder.CalculateChecksum: frames of 65535 bytes are excluded, because the even length wraps at 16 bits; the program's buffers are far shorter.
- Ipv6Frames.Responder.PackResponseIntoUdp: payloads of at most 52 bytes, what the program's buffers of 100 bytes hold.
- The dispatch of received frames, UDP request evaluation and TCP in `ipv6.cpp`; checks for NULL pointers anywhere.
- Web server, display, Modbus, MQTT, OCPP, firmware update and storage code.
