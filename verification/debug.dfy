/** The debug helpers the service relies on: the result-check macro, which only logs,
    and the debug-LED state update, whose pin write is an output of the model. */
module Debug {
  import opened Types
  import SoftDevice

  datatype Severity = Info | Error

  /** A log line, reduced to its severity and the name of the checked call. */
  datatype LogLine = LogLine(severity: Severity, what: string)

  /** The result-check macro `APP_CHECK_RES_C(err, what)`: one log line, at error
      severity exactly when `err` is not success. It yields no value that the caller
      could branch on, so it cannot change control flow. */
  function AppCheckResC(err: u32, what: string): (line: LogLine)
    ensures line.what == what
    ensures line.severity == Error <==> err != SoftDevice.NRF_SUCCESS
  {
    LogLine(if err == SoftDevice.NRF_SUCCESS then Info else Error, what)
  }

  /** `dbg_state_t`, whose enumerators are 0, 1 and 2 in declaration order. */
  datatype DbgState = DbgOff | DbgOn | DbgToggle

  function Ordinal(d: DbgState): u8 {
    match d
    case DbgOff => 0
    case DbgOn => 1
    case DbgToggle => 2
  }

  /** C's logical negation of a byte. */
  function Not(x: u8): u8 {
    if x == 0 then 1 else 0
  }

  /** What `led_debug` does to the pin. */
  datatype PinAction = PinSet | PinClear

  /** One call of `led_debug`: the pin action and the new `led_debug_last_state`. */
  datatype LedStep = LedStep(pin: PinAction, state: u8)

  /** `led_debug(cmd)` with `led_debug_last_state == last`. */
  function LedDebug(last: u8, cmd: DbgState): (r: LedStep)
    // the stored state is a truth value
    ensures r.state == 0 || r.state == 1
    // the stored state is the level driven onto the pin
    ensures r.pin == PinSet <==> r.state != 0
    // toggling inverts the previous state, read as a truth value
    ensures cmd == DbgToggle ==> (r.state == 1 <==> last == 0)
    // on and off ignore the previous state
    ensures cmd == DbgOn ==> r.state == 1
    ensures cmd == DbgOff ==> r.state == 0
  {
    var newState := if cmd == DbgToggle then Not(last) else Ordinal(cmd);
    LedStep(if newState != 0 then PinSet else PinClear, newState)
  }

  /** `led_debug_last_state` after a series of `led_debug` calls. */
  function LedAfter(last: u8, cmds: seq<DbgState>): u8
    decreases |cmds|
  {
    if cmds == [] then last else LedAfter(LedDebug(last, cmds[0]).state, cmds[1..])
  }

  /** Switching on or off twice is the same as doing it once. */
  lemma OnOffIdempotent(last: u8, cmd: DbgState)
    requires cmd != DbgToggle
    ensures LedDebug(LedDebug(last, cmd).state, cmd) == LedDebug(last, cmd)
  {
  }

  /** Two toggles restore a state that was 0 or 1; from any other byte they land on 1. */
  lemma ToggleTwice(last: u8)
    ensures last == 0 || last == 1 ==> LedAfter(last, [DbgToggle, DbgToggle]) == last
    ensures last > 1 ==> LedAfter(last, [DbgToggle, DbgToggle]) == 1
  {
  }

  /** A run of `n` toggles leaves the state alone when `n` is 0 and otherwise inverts it
      when `n` is odd and normalises it to a truth value when `n` is even. */
  lemma {:induction false} OnlyToggles(last: u8, cmds: seq<DbgState>)
    requires forall i :: 0 <= i < |cmds| ==> cmds[i] == DbgToggle
    ensures LedAfter(last, cmds) ==
      if |cmds| == 0 then last
      else if |cmds| % 2 == 1 then Not(last)
      else Not(Not(last))
    decreases |cmds|
  {
    if cmds != [] {
      OnlyToggles(Not(last), cmds[1..]);
    }
  }

  /** After any series of calls, the LED shows the last on/off setting, inverted exactly
      when an odd number of toggles followed it. */
  lemma {:induction false} LedFollowsLastSetting(last: u8, cmds: seq<DbgState>, i: nat)
    requires i < |cmds| && cmds[i] != DbgToggle
    requires forall j :: i < j < |cmds| ==> cmds[j] == DbgToggle
    ensures LedAfter(last, cmds) ==
      if (|cmds| - 1 - i) % 2 == 0 then Ordinal(cmds[i]) else Not(Ordinal(cmds[i]))
    decreases i
  {
    if i == 0 {
      OnlyToggles(Ordinal(cmds[0]), cmds[1..]);
    } else {
      LedFollowsLastSetting(LedDebug(last, cmds[0]).state, cmds[1..], i - 1);
    }
  }
}
