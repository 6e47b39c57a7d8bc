/** Calls that can fail, and whose failure can hide that they took effect. */
module Faults {

  /** The calls a run makes to the outside: `callsLeft` of them succeed; the next one fails, and
      takes effect all the same if `lastCallLands`; none succeeds after that. */
  class Client {
    var callsLeft: nat
    var lastCallLands: bool

    constructor (calls: nat, lands: bool)
      ensures callsLeft == calls && lastCallLands == lands
    {
      callsLeft, lastCallLands := calls, lands;
    }

    /** `ok` is what the caller sees, `lands` what the other side did. */
    method Call() returns (ok: bool, lands: bool)
      modifies this
      ensures ok == (old(callsLeft) > 0) && (ok ==> lands)
      ensures callsLeft == if ok then old(callsLeft) - 1 else 0
      ensures !ok ==> lands == old(lastCallLands) && !lastCallLands
    {
      if callsLeft > 0 {
        callsLeft := callsLeft - 1;
        return true, true;
      }
      ok, lands := false, lastCallLands;
      lastCallLands := false;
    }
  }
}
