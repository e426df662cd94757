/** What the ticks do to the regulation and the nodes. */
module EvseTicks {
  import opened CArithmetic
  import opened EvseTypes
  import opened EvseControl
  import opened EvseRegulation
  import opened EvseAllocation
  import EvseSteps
  import Distribution
  import Shortage

  /** Lines 1217-1221: the current offered when a car is connected. */
  function ConnectCurrent(cfg: Config): nat {
    if cfg.maxCurrent > cfg.maxCapacity && cfg.maxCapacity != 0 then ToUint16(cfg.maxCapacity * 10)
    else ToUint16(cfg.minCurrent * 10)
  }

  predicate Connects(cfg: Config, c: Control, pilot: Pilot, available: bool) {
    MayConnect(c, pilot) && cfg.loadBl <= 1 && available
  }

  function ConnectedRegulator(cfg: Config, c: Control, pilot: Pilot, r: Regulator): Regulator {
    if MayConnect(c, pilot) then r.(chargeCurrent := ConnectCurrent(cfg)) else r
  }

  ghost function WithState(f: Fleet, s: State): (g: Fleet)
    requires Sized(f)
    ensures Sized(g)
  {
    f.(states := f.states[0 := s])
  }

  /** Lines 1228-1229: once a car is connected. */
  function OfferedMax(cfg: Config, connects: bool, max: seq<nat>): seq<nat>
    requires |max| > 0
  {
    if connects then max[0 := ToUint16(cfg.maxCapacity * 10)] else max
  }

  function Offered(cfg: Config, connects: bool, balanced: seq<nat>): seq<nat>
    requires |balanced| > 0
  {
    if connects then balanced[0 := ConnectCurrent(cfg)] else balanced
  }

  ghost function ConnectedNodes(cfg: Config, connects: bool, f: Fleet): (g: Fleet)
    requires Sized(f)
    ensures Sized(g) && g.states == f.states
  {
    f.(max := OfferedMax(cfg, connects, f.max), balanced := Offered(cfg, connects, f.balanced))
  }

  /** Line 1275. */
  ghost function AskingNodes(r: Regulator, f: Fleet): (g: Fleet)
    requires Sized(f)
    ensures Sized(g) && g.states == f.states
  {
    f.(max := f.max[0 := r.chargeCurrent])
  }

  /** Lines 1258-1300: the request for current is served, from regulation and nodes (r, f) to (q, g)
      but for the state of node 0; `after` is the control state after the evaluation, if there is one. */
  ghost predicate Served(cfg: Config, c: Control, pilot: Pilot, available: bool, r: Regulator, f: Fleet,
                         after: Control, q: Regulator, g: Fleet, h: Fleet, how: Account)
  {
    Sized(f) && Sized(g) &&
    if Starts(cfg, c, pilot, available) then
      var asked := AskingNodes(r, f);
      Evaluated(cfg, true, Counted(c), r, asked.(balanced := asked.balanced[0 := ToUint16(cfg.minCurrent * 10)]),
                after, q, g.(states := f.states), h, how)
    else
      && q == r && after == Counted(c)
      && g.(states := f.states) == if MayCharge(c, pilot) && cfg.loadBl <= 1 then AskingNodes(r, f) else f
  }

  /** The answer about current does not depend on which states other than C nodes are in. */
  lemma {:induction false} LoadOfCharging(a: seq<State>, b: seq<State>, balanced: seq<nat>)
    requires |a| == |b| == |balanced| && forall i :: 0 <= i < |a| ==> (a[i] == C <==> b[i] == C)
    ensures LoadOf(a, balanced) == LoadOf(b, balanced)
  {
    assert Shortage.Drawn(a, balanced) == Shortage.Drawn(b, balanced);
    assert Shortage.Drawn(a, Distribution.Ones(|a|)) == Shortage.Drawn(b, Distribution.Ones(|b|));
  }

  /** Before a request for current is served nothing happens to the question whether there is any. */
  lemma SameAnswer(cfg: Config, c: Control, available: bool)
    ensures var b := BeforeB(cfg, c, V6, available);
            b.nrPhases == c.nrPhases && (b.state == c.state || (c.state == CommBOk && b.state == B))
    ensures !Connects(cfg, c, V6, available)
  {
    hide CheckSwitchingPhases;
  }

  lemma NothingOffered(cfg: Config, f: Fleet)
    requires Sized(f)
    ensures OfferedMax(cfg, false, f.max) == f.max && Offered(cfg, false, f.balanced) == f.balanced
  {
  }

  /** Only a request asks whether there is current. */
  lemma AnswerOnlyForRequest(cfg: Config, c: Control, pilot: Pilot, after: Control)
    ensures pilot != V6 ==> HandleB(cfg, c, pilot, true, after) == HandleB(cfg, c, pilot, false, after)
  {
    hide SetState;
  }

  lemma ServedOnRequest(cfg: Config, c: Control, pilot: Pilot, r: Regulator, f: Fleet,
                        after: Control, q: Regulator, g: Fleet, h: Fleet, how: Account)
    ensures pilot != V6 ==>
              Served(cfg, c, pilot, true, r, f, after, q, g, h, how)
                  == Served(cfg, c, pilot, false, r, f, after, q, g, h, how)
  {
  }

  /** Nobody asks, nobody is served. */
  lemma NotServed(cfg: Config, c: Control, pilot: Pilot, available: bool, r: Regulator, f: Fleet, h: Fleet,
                  how: Account)
    requires Sized(f) && (c.state !in {B, CommC} || pilot != V6)
    ensures forall s :: Served(cfg, c, pilot, available, r, f, Counted(c), r, WithState(f, s), h, how)
  {
  }

  lemma CountedIsBalance(c: Control)
    ensures EvseSteps.Balanced(Counted(c), Counted(c))
  {
  }

  /** The state of node 0 at the end does not matter. */
  lemma ServedButState(cfg: Config, c: Control, pilot: Pilot, available: bool, r: Regulator, f: Fleet,
                       after: Control, q: Regulator, g: Fleet, g': Fleet, h: Fleet, how: Account)
    requires Sized(g) && Sized(g') && g.(states := f.states) == g'.(states := f.states)
             && |g.states| == |f.states| == |g'.states|
    ensures Served(cfg, c, pilot, available, r, f, after, q, g, h, how)
              == Served(cfg, c, pilot, available, r, f, after, q, g', h, how)
  {
    hide Evaluated;
  }
}
