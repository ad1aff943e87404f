/** The STM32F4 GPIO provider: the per-pin reservation, drive-mode and
    debounce tables, the 16 interrupt-line bindings, and the registers it
    drives (the GPIO ports, SYSCFG EXTICR and EXTI IMR/PR/RTSR/FTSR).

    Pins are numbered `port * 16 + line`. The EXTI registers are kept as one
    flag per line. Each provider call and each interrupt is one atomic
    step; the tick counter is a `now` parameter, and handler calls are
    appended to the `dispatched` log. */
module Stm32f4Gpio {
  import opened Hal
  import opened GpioRegisters
  import opened GpioLines

  const DebounceDefaultMs: nat := 20

  /** A pin's bit number (`pin & 0x0F`), as an index. */
  function LineNum(pin: nat): (num: nat)
    ensures num < MaxInt
  {
    pin % 16
  }

  /** A pin's port (`pin >> 4`), as an index. */
  function PortNum(pin: nat): nat {
    pin / 16
  }

  /** EXTI_IMR after disabling line `num` when the pin's port owns it. */
  function MaskLine(imr: seq<bool>, owned: bool, num: nat): seq<bool>
    requires num < |imr|
  {
    if owned then imr[num := false] else imr
  }

  /** The line table after disabling line `num` when the pin's port owns it:
      the line's handler is dropped. */
  function Unhook(states: seq<IntState>, owned: bool, num: nat): seq<IntState>
    requires num < |states|
  {
    if owned then states[num := states[num].(handler := None)] else states
  }

  /** What the ISR does for a line in state `st`: the level it samples from
      the pin's port and the step of the debounce rule with the pin's
      window. (A bound pin always has both; the fallbacks keep the function
      total.) */
  function LineStep(ports: seq<PortRegs>, windows: seq<nat>, st: IntState, now: nat): IsrResult {
    var level := st.pin < 256 && PortNum(st.pin) < |ports| && PinLevel(ports[PortNum(st.pin)], LineOf(st.pin));
    var window := if st.pin < |windows| then windows[st.pin] else 0;
    IsrStep(st, window, now, level)
  }

  /** What the ISR would do for each line, from the line's state in
      `states`, with the given ports, windows and tick count. */
  function LineSteps(ports: seq<PortRegs>, windows: seq<nat>, states: seq<IntState>, now: nat): (steps: seq<IsrResult>)
    ensures |steps| == |states|
  {
    seq(|states|, k requires 0 <= k < |states| => LineStep(ports, windows, states[k], now))
  }

  /** Reference: the handler calls of running the ISR for each of `lines`
      in turn, line `k` taking step `steps[k]`. */
  function LineEvents(steps: seq<IsrResult>, lines: seq<nat>): seq<Dispatch>
    decreases |lines|
  {
    if lines == [] then []
    else
      var k := lines[|lines| - 1];
      LineEvents(steps, lines[..|lines| - 1]) + (if k < |steps| then steps[k].events else [])
  }

  /** Servicing one more line appends that line's handler calls. */
  lemma LineEventsSnoc(steps: seq<IsrResult>, lines: seq<nat>, k: nat)
    requires k < |steps|
    ensures LineEvents(steps, lines + [k]) == LineEvents(steps, lines) + steps[k].events
  {
    var longer := lines + [k];
    assert longer[..|longer| - 1] == lines && longer[|longer| - 1] == k;
  }

  /** Reference: the line table once the ISR has run, in ascending order,
      for every pending and enabled line among `lo .. num-1`. */
  function ServicedLines(states: seq<IntState>, steps: seq<IsrResult>,
                         pending: seq<bool>, enabled: seq<bool>, lo: nat, num: nat): (r: seq<IntState>)
    requires |states| == MaxInt && |steps| == MaxInt && |pending| == MaxInt && |enabled| == MaxInt && num <= MaxInt
    ensures |r| == MaxInt
    decreases num
  {
    if num <= lo then states
    else
      var r := ServicedLines(states, steps, pending, enabled, lo, num - 1);
      if pending[num - 1] && enabled[num - 1] then r[num - 1 := steps[num - 1].state] else r
  }

  /** Each line takes its step once exactly when it lies in the range and
      is pending and enabled; every other line keeps its state. */
  lemma {:induction false} ServicedLinesAt(states: seq<IntState>, steps: seq<IsrResult>,
                                           pending: seq<bool>, enabled: seq<bool>, lo: nat, num: nat, k: nat)
    requires |states| == MaxInt && |steps| == MaxInt && |pending| == MaxInt && |enabled| == MaxInt
    requires num <= MaxInt && k < MaxInt
    ensures ServicedLines(states, steps, pending, enabled, lo, num)[k]
            == if lo <= k < num && pending[k] && enabled[k] then steps[k].state else states[k]
    decreases num
  {
    if num > lo {
      ServicedLinesAt(states, steps, pending, enabled, lo, num - 1, k);
    }
  }

  /** Lines above `num` that are not pending are not stepped. */
  lemma {:induction false} ServicedLinesTail(states: seq<IntState>, steps: seq<IsrResult>,
                                             pending: seq<bool>, enabled: seq<bool>, lo: nat, num: nat, hi: nat)
    requires |states| == MaxInt && |steps| == MaxInt && |pending| == MaxInt && |enabled| == MaxInt
    requires num <= hi <= MaxInt
    requires forall k :: num <= k < hi ==> !(pending[k] && enabled[k])
    ensures ServicedLines(states, steps, pending, enabled, lo, hi) == ServicedLines(states, steps, pending, enabled, lo, num)
    decreases hi - num
  {
    if num < hi {
      ServicedLinesTail(states, steps, pending, enabled, lo, num, hi - 1);
    }
  }

  /** The handler calls of running the ISR, in ascending order, for every
      pending and enabled line among `lo .. num-1`. */
  function RangeEvents(steps: seq<IsrResult>, pending: seq<bool>, enabled: seq<bool>, lo: nat, num: nat): seq<Dispatch>
    requires |steps| == MaxInt && |pending| == MaxInt && |enabled| == MaxInt && num <= MaxInt
    decreases num
  {
    if num <= lo then []
    else
      RangeEvents(steps, pending, enabled, lo, num - 1)
      + (if pending[num - 1] && enabled[num - 1] then steps[num - 1].events else [])
  }

  /** The handler calls of a range are those of its serviced lines, one
      ISR run per line, in the order the lines are serviced. */
  lemma {:induction false} RangeEventsAreLineEvents(steps: seq<IsrResult>, pending: seq<bool>, enabled: seq<bool>,
                                                    lo: nat, num: nat)
    requires |steps| == MaxInt && |pending| == MaxInt && |enabled| == MaxInt && lo <= num <= MaxInt
    ensures RangeEvents(steps, pending, enabled, lo, num) == LineEvents(steps, PendingLines(pending, enabled, lo, num))
    decreases num
  {
    if num > lo {
      RangeEventsAreLineEvents(steps, pending, enabled, lo, num - 1);
      PendingLinesSnoc(pending, enabled, lo, num - 1);
      var prefix := PendingLines(pending, enabled, lo, num - 1);
      if pending[num - 1] && enabled[num - 1] {
        LineEventsSnoc(steps, prefix, num - 1);
      }
    }
  }

  /** Lines above `num` that are not pending call no handler. */
  lemma {:induction false} RangeEventsTail(steps: seq<IsrResult>, pending: seq<bool>, enabled: seq<bool>,
                                           lo: nat, num: nat, hi: nat)
    requires |steps| == MaxInt && |pending| == MaxInt && |enabled| == MaxInt && num <= hi <= MaxInt
    requires forall k :: num <= k < hi ==> !(pending[k] && enabled[k])
    ensures RangeEvents(steps, pending, enabled, lo, hi) == RangeEvents(steps, pending, enabled, lo, num)
    decreases hi - num
  {
    if num < hi {
      RangeEventsTail(steps, pending, enabled, lo, num, hi - 1);
    }
  }

  /** EXTI_PR once the ISR has run for every pending and enabled line among
      `lo .. num-1`. */
  function ClearedFlags(pr: seq<bool>, imr: seq<bool>, lo: nat, num: nat): (r: seq<bool>)
    requires |pr| == MaxInt && |imr| == MaxInt && num <= MaxInt
    ensures |r| == MaxInt
    decreases num
  {
    if num <= lo then pr
    else
      var r := ClearedFlags(pr, imr, lo, num - 1);
      if pr[num - 1] && imr[num - 1] then r[num - 1 := false] else r
  }

  /** The flags of the enabled lines in the range are cleared, and no other
      flag changes. */
  lemma {:induction false} ClearedFlagsAt(pr: seq<bool>, imr: seq<bool>, lo: nat, num: nat, k: nat)
    requires |pr| == MaxInt && |imr| == MaxInt && num <= MaxInt && k < MaxInt
    ensures ClearedFlags(pr, imr, lo, num)[k] == (pr[k] && !(lo <= k < num && imr[k]))
    decreases num
  {
    if num > lo {
      ClearedFlagsAt(pr, imr, lo, num - 1, k);
    }
  }

  /** Lines above `num` that are not pending clear nothing. */
  lemma {:induction false} ClearedFlagsTail(pr: seq<bool>, imr: seq<bool>, lo: nat, num: nat, hi: nat)
    requires |pr| == MaxInt && |imr| == MaxInt && num <= hi <= MaxInt
    requires forall k :: num <= k < hi ==> !(pr[k] && imr[k])
    ensures ClearedFlags(pr, imr, lo, hi) == ClearedFlags(pr, imr, lo, num)
    decreases hi - num
  {
    if num < hi {
      ClearedFlagsTail(pr, imr, lo, num, hi - 1);
    }
  }

  class GpioController {
    const portCount: nat
    const ticksPerMs: nat
    const reserved: array<bool>          // g_pinReserved
    const driveMode: array<DriveMode>    // g_pinDriveMode
    const debounceTicks: array<nat>      // g_debounceTicksPin
    const intState: array<IntState>      // g_int_state
    const ports: array<PortRegs>

    var exticr: ExtiWords
    var imr: LineFlags
    var pr: LineFlags
    var rtsr: LineFlags
    var ftsr: LineFlags
    /** Handler calls, in order. */
    var dispatched: seq<Dispatch>

    function MaxPins(): nat {
      portCount * 16
    }

    /** The table sizes, fixed at construction. */
    ghost predicate Shape() {
      && 1 <= portCount <= 16 && ticksPerMs > 0
      && reserved.Length == MaxPins() && driveMode.Length == MaxPins()
      && debounceTicks.Length == MaxPins() && intState.Length == MaxInt && ports.Length == portCount
    }

    /** Every line is bound to an existing pin. */
    ghost predicate LinesBound()
      reads intState
    {
      forall k :: 0 <= k < intState.Length ==> intState[k].pin < MaxPins()
    }

    /** Every debounce window is below 10000 ms. */
    ghost predicate WindowsBound()
      reads debounceTicks
    {
      forall p :: 0 <= p < debounceTicks.Length ==> debounceTicks[p] < MsToTicks(10000, ticksPerMs)
    }

    ghost predicate Tables()
      reads intState, debounceTicks
    {
      LinesBound() && WindowsBound()
    }

    /** Every recorded drive mode is one the driver accepts. */
    ghost predicate ModesSupported()
      reads driveMode
    {
      AllSupported(driveMode[..])
    }

    ghost predicate Valid()
      reads this, intState, debounceTicks
    {
      Shape() && Tables()
    }

    /** The zero-initialised driver state before Reset. */
    constructor (portCount: nat, ticksPerMs: nat)
      requires 1 <= portCount <= 16 && ticksPerMs > 0
      ensures Valid()
      ensures this.portCount == portCount && this.ticksPerMs == ticksPerMs
      ensures forall p :: 0 <= p < MaxPins() ==> !reserved[p] && driveMode[p] == Input && debounceTicks[p] == 0
      ensures forall k :: 0 <= k < MaxInt ==> intState[k] == IdleLine && !imr[k]
      ensures dispatched == []
      ensures ModesSupported()
    {
      this.portCount := portCount;
      this.ticksPerMs := ticksPerMs;
      reserved := new bool[portCount * 16](_ => false);
      driveMode := new DriveMode[portCount * 16](_ => Input);
      debounceTicks := new nat[portCount * 16](_ => 0);
      intState := new IntState[MaxInt](_ => IdleLine);
      ports := new PortRegs[portCount](_ => ResetPort);
      exticr := [0, 0, 0, 0];
      imr := seq(MaxInt, _ => false);
      pr := seq(MaxInt, _ => false);
      rtsr := seq(MaxInt, _ => false);
      ftsr := seq(MaxInt, _ => false);
      dispatched := [];
      new;
      assert MsToTicks(10000, ticksPerMs) > 0;
    }

    lemma PinIndices(pin: nat)
      requires portCount <= 16 && pin < MaxPins()
      ensures pin < 256 && PortNum(pin) < portCount
    {
    }

    // -------------------------------------------------------------------
    // Reservation

    /** AcquirePin: NotFound past the last pin, SharingViolation for a
        reserved pin, otherwise reserves it. */
    method AcquirePin(pin: nat) returns (r: HalResult)
      requires Shape()
      modifies reserved
      ensures r == (if pin >= MaxPins() then NotFound
                    else if old(reserved[pin]) then SharingViolation else Success)
      ensures r == Success ==> reserved[..] == old(reserved[..])[pin := true]
      ensures r != Success ==> reserved[..] == old(reserved[..])
    {
      if pin >= MaxPins() {
        return NotFound;
      }
      if reserved[pin] {
        return SharingViolation;
      }
      reserved[pin] := true;
      r := Success;
    }

    /** ReleasePin: clears the reservation and switches the pin back to
        input. */
    method ReleasePin(pin: nat) returns (r: HalResult)
      requires Valid()
      modifies reserved, driveMode, ports, intState, this`imr
      ensures Valid()
      ensures r == (if pin >= MaxPins() then NotFound else Success)
      ensures old(ModesSupported()) ==> ModesSupported()
      ensures r == NotFound ==> unchanged(reserved, driveMode, ports, intState) && imr == old(imr)
      ensures r == Success ==>
        && reserved[..] == old(reserved[..])[pin := false]
        && driveMode[..] == old(driveMode[..])[pin := Input]
        && ports[..] == old(ports[..])[PortNum(pin) := ModeConfig(old(ports[PortNum(pin)]), LineOf(pin), Input)]
        && imr == MaskLine(old(imr), old(ExtiOwned(exticr, pin)), LineNum(pin))
        && intState[..] == Unhook(old(intState[..]), old(ExtiOwned(exticr, pin)), LineNum(pin))
    {
      if pin >= MaxPins() {
        return NotFound;
      }
      reserved[pin] := false;
      var _ := SetDriveMode(pin, Input);
      r := Success;
    }

    /** Acquire after Release succeeds, whatever the pin's state before. */
    method ReacquireAfterRelease(pin: nat) returns (released: HalResult, acquired: HalResult)
      requires Valid() && pin < MaxPins()
      modifies reserved, driveMode, ports, intState, this`imr
      ensures released == Success && acquired == Success && reserved[pin]
    {
      released := ReleasePin(pin);
      acquired := AcquirePin(pin);
    }

    // -------------------------------------------------------------------
    // Levels and drive modes

    /** Read: the level on the pin's IDR bit. */
    method Read(pin: nat) returns (r: HalResult, high: bool)
      requires Shape()
      ensures r == (if pin >= MaxPins() then ArgumentOutOfRange else Success)
      ensures r == Success ==> high == PinLevel(ports[PortNum(pin)], LineOf(pin))
    {
      if pin >= MaxPins() {
        return ArgumentOutOfRange, false;
      }
      PinIndices(pin);
      high := PinLevel(ports[PortNum(pin)], LineOf(pin));
      r := Success;
    }

    /** Write: sets or resets the pin's output bit. */
    method Write(pin: nat, high: bool) returns (r: HalResult)
      requires Shape()
      modifies ports
      ensures r == (if pin >= MaxPins() then ArgumentOutOfRange else Success)
      ensures r != Success ==> ports[..] == old(ports[..])
      ensures r == Success ==>
        ports[..] == old(ports[..])[PortNum(pin) := WriteLevel(old(ports[PortNum(pin)]), LineOf(pin), high)]
    {
      if pin >= MaxPins() {
        return ArgumentOutOfRange;
      }
      PinIndices(pin);
      ports[PortNum(pin)] := WriteLevel(ports[PortNum(pin)], LineOf(pin), high);
      r := Success;
    }

    /** Pin_Config on the pin's port (the driver does not range-check the pin). */
    method PinConfigure(pin: nat, mode: bv32, resistor: DriveMode, alternate: bv32)
      requires Shape() && pin < MaxPins()
      modifies ports
      ensures
        ports[..] == old(ports[..])[PortNum(pin) := PinConfig(old(ports[PortNum(pin)]), LineOf(pin), mode, resistor, alternate)]
    {
      PinIndices(pin);
      ports[PortNum(pin)] := PinConfig(ports[PortNum(pin)], LineOf(pin), mode, resistor, alternate);
    }

    /** IsDriveModeSupported: input, pulled input and push-pull output. */
    function IsDriveModeSupported(pin: nat, mode: DriveMode): (b: bool)
      ensures b <==> pin < MaxPins() && (mode == Output || mode == Input || mode == InputPullUp || mode == InputPullDown)
      ensures b ==> mode != OutputOpenDrain && mode != OutputOpenSource
    {
      pin < MaxPins() && SupportedMode(mode)
    }

    /** GetDriveMode (the driver does not range-check the pin). */
    function GetDriveMode(pin: nat): (m: DriveMode)
      requires Shape() && pin < MaxPins() && ModesSupported()
      reads driveMode
      ensures IsDriveModeSupported(pin, m)
    {
      driveMode[pin]
    }

    /** Disable_Interrupt: when the pin's port owns its line, masks the line
        and forgets its handler; otherwise changes nothing. Always true. */
    method DisableInterrupt(pin: nat) returns (ok: bool)
      requires Valid() && pin < MaxPins()
      modifies intState, this`imr
      ensures Valid() && ok
      ensures imr == MaskLine(old(imr), old(ExtiOwned(exticr, pin)), LineNum(pin))
      ensures intState[..] == Unhook(old(intState[..]), old(ExtiOwned(exticr, pin)), LineNum(pin))
    {
      PinIndices(pin);
      var num := LineNum(pin);
      if ExtiOwned(exticr, pin) {
        imr := imr[num := false];
        intState[num] := intState[num].(handler := None);
      }
      ok := true;
    }

    /** EnableOutputPin: for a pin in range, drives the initial level, makes
        the pin a push-pull output and disables its interrupt; a pin out of
        range changes nothing. */
    method EnableOutputPin(pin: nat, initialState: bool)
      requires Valid()
      modifies ports, intState, this`imr
      ensures Valid()
      ensures pin >= MaxPins() ==> unchanged(ports, intState) && imr == old(imr)
      ensures pin < MaxPins() ==>
        && ports[..] == old(ports[..])[PortNum(pin) := PinConfig(WriteLevel(old(ports[PortNum(pin)]), LineOf(pin), initialState),
                                                                   LineOf(pin), 1, Input, 0)]
        && imr == MaskLine(old(imr), old(ExtiOwned(exticr, pin)), LineNum(pin))
        && intState[..] == Unhook(old(intState[..]), old(ExtiOwned(exticr, pin)), LineNum(pin))
    {
      if pin < MaxPins() {
        var _ := Write(pin, initialState);
        PinConfigure(pin, 1, Input, 0);
        var _ := DisableInterrupt(pin);
      }
    }

    /** EnableInputPin: makes the pin an input with the resistor's pull and
        disables its interrupt (the driver does not range-check the pin). */
    method EnableInputPin(pin: nat, resistor: DriveMode) returns (ok: bool)
      requires Valid() && pin < MaxPins()
      modifies ports, intState, this`imr
      ensures Valid() && ok
      ensures ports[..] == old(ports[..])[PortNum(pin) := PinConfig(old(ports[PortNum(pin)]), LineOf(pin), 0, resistor, 0)]
      ensures imr == MaskLine(old(imr), old(ExtiOwned(exticr, pin)), LineNum(pin))
      ensures intState[..] == Unhook(old(intState[..]), old(ExtiOwned(exticr, pin)), LineNum(pin))
    {
      PinConfigure(pin, 0, resistor, 0);
      ok := DisableInterrupt(pin);
    }

    /** SetDriveMode: NotFound past the last pin; NotSupported, with nothing
        changed, for the open-drain and open-source modes; otherwise the
        port is reconfigured (an output first drives the level it reads),
        the pin's interrupt is disabled and the mode is recorded. */
    method SetDriveMode(pin: nat, mode: DriveMode) returns (r: HalResult)
      requires Valid()
      modifies ports, driveMode, intState, this`imr
      ensures Valid()
      ensures r == (if pin >= MaxPins() then NotFound else if SupportedMode(mode) then Success else NotSupported)
      ensures r == Success <==> IsDriveModeSupported(pin, mode)
      ensures old(ModesSupported()) ==> ModesSupported()
      ensures r != Success ==> unchanged(ports, driveMode, intState) && imr == old(imr)
      ensures r == Success ==>
        && driveMode[..] == old(driveMode[..])[pin := mode]
        && ports[..] == old(ports[..])[PortNum(pin) := ModeConfig(old(ports[PortNum(pin)]), LineOf(pin), mode)]
        && imr == MaskLine(old(imr), old(ExtiOwned(exticr, pin)), LineNum(pin))
        && intState[..] == Unhook(old(intState[..]), old(ExtiOwned(exticr, pin)), LineNum(pin))
    {
      if pin >= MaxPins() {
        return NotFound;
      }
      if !SupportedMode(mode) {
        return NotSupported;
      }
      if mode == Output {
        var _, high := Read(pin);
        EnableOutputPin(pin, high);
      } else {
        var _ := EnableInputPin(pin, mode);
      }
      driveMode[pin] := mode;
      if old(ModesSupported()) {
        RecordKeepsSupported(old(driveMode[..]), pin, mode);
      }
      r := Success;
    }

    /** EnableAlternatePin: configures the pin for analog, an alternate
        function or the given output mode, and disables its interrupt. */
    method EnableAlternatePin(pin: nat, resistor: DriveMode, output: bv32, alternate: bv32) returns (r: HalResult)
      requires Valid()
      modifies ports, intState, this`imr
      ensures Valid()
      ensures r == (if pin < MaxPins() then Success else ArgumentOutOfRange)
      ensures r != Success ==> unchanged(ports, intState) && imr == old(imr)
      ensures r == Success ==>
        && ports[..] == old(ports[..])[PortNum(pin) := PinConfig(old(ports[PortNum(pin)]), LineOf(pin),
                                                                   AlternateMode(output, alternate), resistor, alternate)]
        && imr == MaskLine(old(imr), old(ExtiOwned(exticr, pin)), LineNum(pin))
        && intState[..] == Unhook(old(intState[..]), old(ExtiOwned(exticr, pin)), LineNum(pin))
    {
      if pin >= MaxPins() {
        return ArgumentOutOfRange;
      }
      PinConfigure(pin, AlternateMode(output, alternate), resistor, alternate);
      var _ := DisableInterrupt(pin);
      r := Success;
    }

    // -------------------------------------------------------------------
    // Debounce

    /** GetDebounceTimeout: the pin's window in whole milliseconds (the
        driver does not range-check the pin). */
    function GetDebounceTimeout(pin: nat): (ms: nat)
      requires ticksPerMs > 0 && pin < debounceTicks.Length && WindowsBound()
      reads debounceTicks
      ensures ms < 10000
    {
      DebounceRoundTrip(0, debounceTicks[pin], ticksPerMs);
      TicksToMs(debounceTicks[pin], ticksPerMs)
    }

    /** SetDebounceTimeout: NotFound past the last pin; stores a window of
        1 to 9999 ms, converted to ticks; WrongType for any other value. */
    method SetDebounceTimeout(pin: nat, ms: int) returns (r: HalResult)
      requires Valid()
      modifies debounceTicks
      ensures Valid()
      ensures r == (if pin >= MaxPins() then NotFound else if 0 < ms < 10000 then Success else WrongType)
      ensures r != Success ==> debounceTicks[..] == old(debounceTicks[..])
      ensures r == Success ==> debounceTicks[..] == old(debounceTicks[..])[pin := MsToTicks(ms, ticksPerMs)]
                               && GetDebounceTimeout(pin) == ms
    {
      if pin >= MaxPins() {
        return NotFound;
      }
      if 0 < ms < 10000 {
        MulMonotone(ms, 9999, ticksPerMs);
        debounceTicks[pin] := MsToTicks(ms, ticksPerMs);
        DebounceRoundTrip(ms, 0, ticksPerMs);
        return Success;
      }
      r := WrongType;
    }

    // -------------------------------------------------------------------
    // Interrupt lines

    /** The binding half of SetValueChangedHandler: routes the line to the
        pin's port, binds it to the pin with the handler, the current
        debounce setting and `now` as watermark, arms it for both edges,
        clears its pending flag until it stays clear, and enables it. */
    method HookLine(pin: nat, handler: nat, now: nat, relatches: nat)
      requires Valid() && pin < MaxPins()
      modifies this`exticr, this`imr, this`pr, this`rtsr, this`ftsr, intState
      ensures Tables()
      ensures exticr == (if old(ExtiOwned(exticr, pin)) then old(exticr) else ExtiClaim(old(exticr), pin))
      ensures ExtiOwned(exticr, pin)
      ensures intState[..] == old(intState[..])[LineNum(pin) := IntState(pin, GetDebounceTimeout(pin), now, Some(handler),
                                                                        old(intState[LineNum(pin)].currentValue))]
      ensures imr == old(imr)[LineNum(pin) := true] && pr == old(pr)[LineNum(pin) := false]
      ensures rtsr == old(rtsr)[LineNum(pin) := true] && ftsr == old(ftsr)[LineNum(pin) := true]
    {
      PinIndices(pin);
      var num := LineNum(pin);
      if !ExtiOwned(exticr, pin) {
        ExtiClaimIsLocal(exticr, pin, pin);
        exticr := ExtiClaim(exticr, pin);
      }
      intState[num] := IntState(pin, GetDebounceTimeout(pin), now, Some(handler), intState[num].currentValue);
      rtsr := rtsr[num := false];
      ftsr := ftsr[num := false];
      ftsr := ftsr[num := true];
      rtsr := rtsr[num := true];
      ClearPending(num, relatches);
      imr := imr[num := true];
    }

    /** SetValueChangedHandler. With a handler: SharingViolation, with
        nothing changed, when another port owns the line and the line is
        enabled; otherwise HookLine. Without a handler: the line is masked
        and its handler forgotten only when the pin's port owns it (what
        DisableInterrupt does). */
    method SetValueChangedHandler(pin: nat, isr: Option<nat>, now: nat, relatches: nat) returns (r: HalResult)
      requires Valid() && pin < MaxPins()
      modifies this`exticr, this`imr, this`pr, this`rtsr, this`ftsr, intState
      ensures Tables()
      ensures r == (if isr.Some? && !old(ExtiOwned(exticr, pin)) && old(imr[LineNum(pin)]) then SharingViolation else Success)
      ensures r == SharingViolation ==>
        && exticr == old(exticr) && imr == old(imr) && pr == old(pr) && rtsr == old(rtsr) && ftsr == old(ftsr)
        && intState[..] == old(intState[..])
      ensures r == Success && isr.Some? ==>
        && exticr == (if old(ExtiOwned(exticr, pin)) then old(exticr) else ExtiClaim(old(exticr), pin))
        && ExtiOwned(exticr, pin)
        && intState[..] == old(intState[..])[LineNum(pin) := IntState(pin, GetDebounceTimeout(pin), now, isr,
                                                                      old(intState[LineNum(pin)].currentValue))]
        && imr == old(imr)[LineNum(pin) := true] && pr == old(pr)[LineNum(pin) := false]
        && rtsr == old(rtsr)[LineNum(pin) := true] && ftsr == old(ftsr)[LineNum(pin) := true]
      ensures isr.None? ==>
        && exticr == old(exticr) && pr == old(pr) && rtsr == old(rtsr) && ftsr == old(ftsr)
        && imr == MaskLine(old(imr), old(ExtiOwned(exticr, pin)), LineNum(pin))
        && intState[..] == Unhook(old(intState[..]), old(ExtiOwned(exticr, pin)), LineNum(pin))
    {
      if isr.Some? {
        if !ExtiOwned(exticr, pin) && imr[LineNum(pin)] {
          return SharingViolation;
        }
        HookLine(pin, isr.value, now, relatches);
      } else {
        var _ := DisableInterrupt(pin);
      }
      r := Success;
    }

    /** The clear loop of SetValueChangedHandler: write the pending flag
        clear and repeat while it reads set again. `relatches` is how many
        times an edge latches the line again during the loop. */
    method ClearPending(num: nat, relatches: nat)
      requires |pr| == MaxInt && num < MaxInt
      modifies this`pr
      ensures pr == old(pr)[num := false]
    {
      var again := relatches;
      var pending := true;
      while pending
        invariant |pr| == MaxInt
        invariant pr[num := false] == old(pr)[num := false]
        invariant pending || !pr[num]
        decreases again, pending
      {
        pr := pr[num := false];
        if again > 0 {
          pr := pr[num := true];
          again := again - 1;
        }
        pending := pr[num];
      }
    }

    /** STM32F4_Gpio_ISR for line `num`: sample the level, clear the pending
        flag, then dispatch under the debounce rule. */
    method Isr(num: nat, now: nat)
      requires Valid() && num < MaxInt
      modifies this`pr, intState, this`dispatched
      ensures Valid()
      ensures var step := LineStep(ports[..], debounceTicks[..], old(intState[num]), now);
        && pr == old(pr)[num := false]
        && intState[..] == old(intState[..])[num := step.state]
        && dispatched == old(dispatched) + step.events
    {
      var st := intState[num];
      PinIndices(st.pin);
      var level := PinLevel(ports[PortNum(st.pin)], LineOf(st.pin));
      pr := pr[num := false];
      var step := IsrStep(st, debounceTicks[st.pin], now, level);
      intState[num] := step.state;
      dispatched := dispatched + step.events;
    }

    /** One step of a demultiplexer at line `num`: runs the ISR for the
        line when it was pending and enabled on entry. Stated against the
        state after lines `lo .. num-1`, it yields the state after
        `lo .. num`. */
    method ServiceLine(lo: nat, num: nat, now: nat, pending: LineFlags, enabled: LineFlags,
                       ghost s0: seq<IntState>, ghost steps: seq<IsrResult>, ghost d0: seq<Dispatch>)
      requires Valid() && lo <= num < MaxInt && imr == enabled && |s0| == MaxInt
      requires steps == LineSteps(ports[..], debounceTicks[..], s0, now)
      requires intState[..] == ServicedLines(s0, steps, pending, enabled, lo, num)
      requires dispatched == d0 + RangeEvents(steps, pending, enabled, lo, num)
      requires pr == ClearedFlags(pending, enabled, lo, num)
      modifies this`pr, intState, this`dispatched
      ensures Tables()
      ensures intState[..] == ServicedLines(s0, steps, pending, enabled, lo, num + 1)
      ensures dispatched == d0 + RangeEvents(steps, pending, enabled, lo, num + 1)
      ensures pr == ClearedFlags(pending, enabled, lo, num + 1)
    {
      if pending[num] && enabled[num] {
        ServicedLinesAt(s0, steps, pending, enabled, lo, num, num);
        Isr(num, now);
        AppendAssociates(d0, RangeEvents(steps, pending, enabled, lo, num), steps[num].events);
      }
    }

    /** The shared-vector demultiplexer for lines `lo .. hi-1`: takes the
        pending-and-enabled lines once on entry, then runs the ISR for each
        of them in ascending order, stopping once no pending line is left
        above the current one. Each such line is stepped once, its flag is
        cleared, its handler calls are logged in that order, and nothing
        else changes. */
    method Service(lo: nat, hi: nat, now: nat) returns (serviced: seq<nat>)
      requires Valid() && lo < hi <= MaxInt
      modifies this`pr, intState, this`dispatched
      ensures Tables()
      ensures serviced == PendingLines(old(pr), old(imr), lo, hi)
      ensures var steps := LineSteps(ports[..], debounceTicks[..], old(intState[..]), now);
        && intState[..] == ServicedLines(old(intState[..]), steps, old(pr), old(imr), lo, hi)
        && dispatched == old(dispatched) + LineEvents(steps, serviced)
      ensures pr == ClearedFlags(old(pr), old(imr), lo, hi)
    {
      var pending: LineFlags, enabled: LineFlags := pr, imr;
      ghost var s0, d0 := intState[..], dispatched;
      ghost var steps := LineSteps(ports[..], debounceTicks[..], s0, now);
      var num := lo;
      while PendingLines(pending, enabled, num, hi) != []
        invariant Tables() && lo <= num <= hi && imr == enabled
        invariant intState[..] == ServicedLines(s0, steps, pending, enabled, lo, num)
        invariant dispatched == d0 + RangeEvents(steps, pending, enabled, lo, num)
        invariant pr == ClearedFlags(pending, enabled, lo, num)
        decreases hi - num
      {
        ServiceLine(lo, num, now, pending, enabled, s0, steps, d0);
        num := num + 1;
      }
      PendingLinesTail(pending, enabled, lo, num, hi);
      ClearedFlagsTail(pending, enabled, lo, num, hi);
      ServicedLinesTail(s0, steps, pending, enabled, lo, num, hi);
      RangeEventsTail(steps, pending, enabled, lo, num, hi);
      RangeEventsAreLineEvents(steps, pending, enabled, lo, hi);
      serviced := PendingLines(pending, enabled, lo, hi);
    }

    /** STM32F4_Gpio_Interrupt5: the shared vector of lines 5 to 9. */
    method Interrupt5(now: nat) returns (serviced: seq<nat>)
      requires Valid()
      modifies this`pr, intState, this`dispatched
      ensures Valid()
      ensures serviced == PendingLines(old(pr), old(imr), 5, 10)
      ensures var steps := LineSteps(ports[..], debounceTicks[..], old(intState[..]), now);
        && intState[..] == ServicedLines(old(intState[..]), steps, old(pr), old(imr), 5, 10)
        && dispatched == old(dispatched) + LineEvents(steps, serviced)
      ensures pr == ClearedFlags(old(pr), old(imr), 5, 10)
    {
      serviced := Service(5, 10, now);
    }

    /** STM32F4_Gpio_Interrupt10: the shared vector of lines 10 to 15. */
    method Interrupt10(now: nat) returns (serviced: seq<nat>)
      requires Valid()
      modifies this`pr, intState, this`dispatched
      ensures Valid()
      ensures serviced == PendingLines(old(pr), old(imr), 10, 16)
      ensures var steps := LineSteps(ports[..], debounceTicks[..], old(intState[..]), now);
        && intState[..] == ServicedLines(old(intState[..]), steps, old(pr), old(imr), 10, 16)
        && dispatched == old(dispatched) + LineEvents(steps, serviced)
      ensures pr == ClearedFlags(old(pr), old(imr), 10, 16)
    {
      serviced := Service(10, 16, now);
    }

    // -------------------------------------------------------------------
    // Reset

    /** STM32F4_Gpio_Reset: every reservation dropped, every pin's debounce
        window set to the 20 ms default, and every interrupt line masked. */
    method Reset()
      requires Valid()
      modifies reserved, debounceTicks, this`imr
      ensures Valid()
      ensures forall p :: 0 <= p < MaxPins() ==>
                !reserved[p] && debounceTicks[p] == MsToTicks(DebounceDefaultMs, ticksPerMs)
      ensures forall k :: 0 <= k < MaxInt ==> !imr[k]
    {
      var i := 0;
      while i < MaxPins()
        invariant Tables() && 0 <= i <= MaxPins()
        invariant forall p :: 0 <= p < i ==>
                    !reserved[p] && debounceTicks[p] == MsToTicks(DebounceDefaultMs, ticksPerMs)
      {
        reserved[i] := false;
        var _ := SetDebounceTimeout(i, DebounceDefaultMs);
        i := i + 1;
      }
      imr := seq(MaxInt, _ => false);
    }
  }
}
