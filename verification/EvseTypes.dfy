/** The enumerations of the charge controller. */
module EvseTypes {

  datatype State =
    | A | B | C | D | CommB | CommBOk | CommC | CommCOk | ActStart | B1 | C1
    | ModemRequest | ModemWait | ModemDone | ModemDenied

  datatype Mode = Normal | Smart

  datatype Access = Off | On | Pause

  datatype EnableC2 = NotPresent | AlwaysOff | Reserved | AlwaysOn | Auto

  datatype PhaseSwitch = NoSwitch | To1P | To3P

  datatype Pilot = V12 | V9 | V6 | V3 | Diode | Short | NotOk

  datatype Schedule = Inactive | Active | Paused

  datatype Strategy = ModbusAddress | FirstConnected | LastConnected

  /** The nodes that are charging. */
  predicate Charging(states: seq<State>, i: int) {
    0 <= i < |states| && states[i] == C
  }
}
