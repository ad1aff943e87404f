/** Register arithmetic of the STM32F4 GPIO driver: the per-pin fields that
    STM32F4_Gpio_Pin_Config writes into a port's MODER, PUPDR, OSPEEDR, AFR
    and OTYPER, the input and output bits behind Read and Write, and the
    4-bit port fields of SYSCFG EXTICR that decide which port owns each of the
    16 external interrupt lines.

    Line numbers and port numbers are kept as 32-bit words, as the driver
    computes them (`pin & 0x0F`, `pin >> 4`). */
module GpioRegisters {

  /** The drive modes of the provider interface. */
  datatype DriveMode =
    | Input
    | Output
    | InputPullUp
    | InputPullDown
    | OutputOpenDrain
    | OutputOpenDrainPullUp
    | OutputOpenSource
    | OutputOpenSourcePullDown

  /** The registers of one GPIO port that the driver reads or writes. */
  datatype PortRegs = PortRegs(moder: bv32, otyper: bv32, ospeedr: bv32, pupdr: bv32,
                               idr: bv32, odr: bv32, afrl: bv32, afrh: bv32)

  const ResetPort := PortRegs(0, 0, 0, 0, 0, 0, 0, 0)

  /** The bit number of a pin within its port (`pin & 0x0F`). */
  function LineOf(pin: nat): (line: bv32)
    requires pin < 256
    ensures line < 16
  {
    (pin % 16) as bv32
  }

  /** The port number of a pin (`pin >> 4`). */
  function PortOf(pin: nat): (port: bv32)
    requires pin < 256
    ensures port < 16
  {
    (pin / 16) as bv32
  }

  // ---------------------------------------------------------------------
  // Per-pin fields

  /** The 2-bit field of `line` in MODER, PUPDR or OSPEEDR. */
  function Field2(w: bv32, line: bv32): bv32
    requires line < 16
  {
    (w >> (line << 1)) & 3
  }

  /** Clear-and-or of the 2-bit field of `line`. */
  function SetField2(w: bv32, line: bv32, v: bv32): bv32
    requires line < 16
  {
    (w & !(3 << (line << 1))) | (v << (line << 1))
  }

  /** The 4-bit field in slot `k` (bits 4k..4k+3) of an AFR or EXTICR word. */
  function Nibble(w: bv32, k: bv32): bv32
    requires k < 8
  {
    (w >> (k << 2)) & 0xF
  }

  /** Clear-and-or of the 4-bit field in slot `k`. */
  function SetNibble(w: bv32, k: bv32, v: bv32): bv32
    requires k < 8
  {
    (w & !(0xF << (k << 2))) | (v << (k << 2))
  }

  /** The bit of `line` in OTYPER, IDR or ODR. */
  function Bit(w: bv32, line: bv32): bool
    requires line < 16
  {
    (w >> line) & 1 != 0
  }

  /** Setting (`|=`) or clearing (`&= ~`) the bit of `line`. */
  function SetBit(w: bv32, line: bv32, high: bool): bv32
    requires line < 16
  {
    if high then w | (1 << line) else w & !(1 << line)
  }

  /** Writing a 2-bit field changes that field only. */
  lemma SetField2IsLocal(w: bv32, line: bv32, v: bv32, j: bv32)
    requires line < 16 && j < 16 && v < 4
    ensures Field2(SetField2(w, line, v), j) == if j == line then v else Field2(w, j)
  {
  }

  /** Writing a 4-bit field changes that field only. */
  lemma SetNibbleIsLocal(w: bv32, k: bv32, v: bv32, j: bv32)
    requires k < 8 && j < 8 && v < 16
    ensures Nibble(SetNibble(w, k, v), j) == if j == k then v else Nibble(w, j)
  {
  }

  /** Writing a bit changes that bit only. */
  lemma SetBitIsLocal(w: bv32, line: bv32, high: bool, j: bv32)
    requires line < 16 && j < 16
    ensures Bit(SetBit(w, line, high), j) == if j == line then high else Bit(w, j)
  {
  }

  /** Whether a line's alternate function lives in AFRH (`line >> 3` is 1). */
  predicate HighAf(line: bv32) {
    line >> 3 != 0
  }

  /** The 4-bit alternate-function field of `line` in AFR[line >> 3]. */
  function AfField(regs: PortRegs, line: bv32): bv32
    requires line < 16
  {
    Nibble(if HighAf(line) then regs.afrh else regs.afrl, line & 7)
  }

  /** Writing the alternate-function field of `line`. */
  function SetAf(regs: PortRegs, line: bv32, af: bv32): PortRegs
    requires line < 16
  {
    if HighAf(line) then regs.(afrh := SetNibble(regs.afrh, line & 7, af))
    else regs.(afrl := SetNibble(regs.afrl, line & 7, af))
  }

  /** Two lines of one AFR word sit in the same slot only if they are the same line. */
  lemma SameAfWord(line: bv32, j: bv32)
    requires line < 16 && j < 16
    ensures line & 7 < 8 && j & 7 < 8
    ensures HighAf(j) == HighAf(line) ==> (j & 7 == line & 7 <==> j == line)
  {
  }

  /** Writing an alternate-function field sets that field. */
  lemma SetAfSetsField(regs: PortRegs, line: bv32, af: bv32)
    requires line < 16 && af < 16
    ensures AfField(SetAf(regs, line, af), line) == af
  {
    var w := if HighAf(line) then regs.afrh else regs.afrl;
    SetNibbleIsLocal(w, line & 7, af, line & 7);
  }

  /** Writing an alternate-function field leaves the other fields of the
      same AFR word. */
  lemma SetAfKeepsSameWord(regs: PortRegs, line: bv32, af: bv32, j: bv32)
    requires line < 16 && j < 16 && af < 16 && j != line && HighAf(j) == HighAf(line)
    ensures AfField(SetAf(regs, line, af), j) == AfField(regs, j)
  {
    SameAfWord(line, j);
    SetNibbleIsLocal(if HighAf(line) then regs.afrh else regs.afrl, line & 7, af, j & 7);
  }

  /** Writing an alternate-function field leaves the other AFR word. */
  lemma SetAfKeepsOtherWord(regs: PortRegs, line: bv32, af: bv32, j: bv32)
    requires line < 16 && j < 16 && HighAf(j) != HighAf(line)
    ensures AfField(SetAf(regs, line, af), j) == AfField(regs, j)
  {
  }

  /** The PUPDR code of a drive mode: pull-up 01, pull-down 10, otherwise 00. */
  function PullCode(resistor: DriveMode): (code: bv32)
    ensures code < 4
  {
    if resistor == InputPullDown then 2 else if resistor == InputPullUp then 1 else 0
  }

  /** STM32F4_Gpio_Pin_Config on one port: MODER gets `mode`, PUPDR the pull
      code of `resistor`, OSPEEDR the highest speed (3), AFR the function in
      bits 4..7 of `alternate`, and OTYPER open drain iff bit 0 of
      `alternate` is set. */
  function PinConfig(regs: PortRegs, line: bv32, mode: bv32, resistor: DriveMode, alternate: bv32): PortRegs
    requires line < 16
  {
    SetAf(regs, line, (alternate >> 4) & 0xF).(
      moder := SetField2(regs.moder, line, mode),
      pupdr := SetField2(regs.pupdr, line, PullCode(resistor)),
      ospeedr := SetField2(regs.ospeedr, line, 3),
      otyper := SetBit(regs.otyper, line, alternate & 1 != 0))
  }

  /** Pin_Config sets the pin's mode, pull and speed fields and leaves
      every other pin's fields in MODER, PUPDR and OSPEEDR as they were. */
  lemma PinConfigSetsModeFields(regs: PortRegs, line: bv32, mode: bv32, resistor: DriveMode, alternate: bv32, j: bv32)
    requires line < 16 && j < 16 && mode < 4
    ensures var r := PinConfig(regs, line, mode, resistor, alternate);
      && Field2(r.moder, j) == (if j == line then mode else Field2(regs.moder, j))
      && Field2(r.pupdr, j) == (if j == line then PullCode(resistor) else Field2(regs.pupdr, j))
      && Field2(r.ospeedr, j) == (if j == line then 3 else Field2(regs.ospeedr, j))
  {
    SetField2IsLocal(regs.moder, line, mode, j);
    SetField2IsLocal(regs.pupdr, line, PullCode(resistor), j);
    SetField2IsLocal(regs.ospeedr, line, 3, j);
  }

  /** Pin_Config sets the pin's output type and leaves every other pin's
      OTYPER bit, and the data registers, as they were. */
  lemma PinConfigSetsOutputType(regs: PortRegs, line: bv32, mode: bv32, resistor: DriveMode, alternate: bv32, j: bv32)
    requires line < 16 && j < 16
    ensures var r := PinConfig(regs, line, mode, resistor, alternate);
      && Bit(r.otyper, j) == (if j == line then alternate & 1 != 0 else Bit(regs.otyper, j))
      && r.idr == regs.idr && r.odr == regs.odr
  {
    SetBitIsLocal(regs.otyper, line, alternate & 1 != 0, j);
  }

  /** Pin_Config sets the pin's alternate function and leaves every other
      pin's AFR field as it was. */
  lemma PinConfigSetsFunction(regs: PortRegs, line: bv32, mode: bv32, resistor: DriveMode, alternate: bv32, j: bv32)
    requires line < 16 && j < 16
    ensures AfField(PinConfig(regs, line, mode, resistor, alternate), j)
            == if j == line then (alternate >> 4) & 0xF else AfField(regs, j)
  {
    if j == line {
      SetAfSetsField(regs, line, (alternate >> 4) & 0xF);
    } else if HighAf(j) == HighAf(line) {
      SetAfKeepsSameWord(regs, line, (alternate >> 4) & 0xF, j);
    } else {
      SetAfKeepsOtherWord(regs, line, (alternate >> 4) & 0xF, j);
    }
  }

  /** The level STM32F4_Gpio_Read reports: the pin's IDR bit. */
  function PinLevel(regs: PortRegs, line: bv32): bool
    requires line < 16
  {
    Bit(regs.idr, line)
  }

  /** STM32F4_Gpio_Write: BSRRL sets, BSRRH resets the pin's ODR bit. */
  function WriteLevel(regs: PortRegs, line: bv32, high: bool): PortRegs
    requires line < 16
  {
    regs.(odr := SetBit(regs.odr, line, high))
  }

  /** Write drives exactly the pin's output bit to the requested level and
      leaves every other register as it was. */
  lemma WriteLevelIsLocal(regs: PortRegs, line: bv32, high: bool, j: bv32)
    requires line < 16 && j < 16
    ensures Bit(WriteLevel(regs, line, high).odr, j) == if j == line then high else Bit(regs.odr, j)
    ensures WriteLevel(regs, line, high).(odr := regs.odr) == regs
  {
    SetBitIsLocal(regs.odr, line, high, j);
  }

  // ---------------------------------------------------------------------
  // Drive modes

  /** The modes SetDriveMode accepts and IsDriveModeSupported reports. */
  predicate SupportedMode(mode: DriveMode) {
    mode == Output || mode == Input || mode == InputPullUp || mode == InputPullDown
  }

  /** Every mode in a drive-mode table is one the driver accepts. */
  predicate AllSupported(modes: seq<DriveMode>) {
    forall k :: 0 <= k < |modes| ==> SupportedMode(modes[k])
  }

  /** Recording an accepted mode keeps the table accepted. */
  lemma RecordKeepsSupported(modes: seq<DriveMode>, pin: nat, mode: DriveMode)
    requires AllSupported(modes) && pin < |modes| && SupportedMode(mode)
    ensures AllSupported(modes[pin := mode])
  {
  }

  /** The port after SetDriveMode switches a pin to a supported mode. An
      output first gets the level its input reads (Read, then Write in
      EnableOutputPin), then general-purpose output mode without pull; an
      input gets input mode with the mode's pull resistor. */
  function ModeConfig(regs: PortRegs, line: bv32, mode: DriveMode): PortRegs
    requires line < 16 && SupportedMode(mode)
  {
    if mode == Output then PinConfig(WriteLevel(regs, line, PinLevel(regs, line)), line, 1, Input, 0)
    else PinConfig(regs, line, 0, mode, 0)
  }

  /** Switching to output drives the level the pin was reading, so the
      switch causes no glitch; the pin becomes a push-pull output without
      pull resistor. */
  lemma OutputKeepsLevel(regs: PortRegs, line: bv32)
    requires line < 16
    ensures var r := ModeConfig(regs, line, Output);
      && Bit(r.odr, line) == PinLevel(regs, line)
      && Field2(r.moder, line) == 1 && Field2(r.pupdr, line) == 0 && !Bit(r.otyper, line)
  {
    var w := WriteLevel(regs, line, PinLevel(regs, line));
    WriteLevelIsLocal(regs, line, PinLevel(regs, line), line);
    PinConfigSetsModeFields(w, line, 1, Input, 0, line);
    PinConfigSetsOutputType(w, line, 1, Input, 0, line);
  }

  /** Switching to an input mode selects input mode and the mode's pull
      resistor, and leaves the output latch alone. */
  lemma InputSetsPull(regs: PortRegs, line: bv32, mode: DriveMode)
    requires line < 16 && SupportedMode(mode) && mode != Output
    ensures var r := ModeConfig(regs, line, mode);
      && Field2(r.moder, line) == 0 && Field2(r.pupdr, line) == PullCode(mode) && r.odr == regs.odr
  {
    PinConfigSetsModeFields(regs, line, 0, mode, 0, line);
    PinConfigSetsOutputType(regs, line, 0, mode, 0, line);
  }

  /** The MODER value EnableAlternatePin selects from the low nibble of
      `alternate`: 1 is analog (3), any other nonzero value is an alternate
      function (2), and 0 keeps the caller's `output` mode. */
  function AlternateMode(output: bv32, alternate: bv32): bv32 {
    var altMode := alternate & 0x0F;
    if altMode == 1 then 3 else if altMode != 0 then 2 else output
  }

  /** The selected mode fits the 2-bit MODER field whenever the caller's
      output mode does, so Pin_Config then writes only the pin's fields. */
  lemma AlternateModeFits(output: bv32, alternate: bv32)
    requires output < 4
    ensures AlternateMode(output, alternate) < 4
    ensures alternate & 0x0F != 0 ==> AlternateMode(output, alternate) >= 2
  {
  }

  // ---------------------------------------------------------------------
  // EXTICR: which port drives each external interrupt line

  /** The EXTICR word holding a pin's line (`num >> 2`). */
  function ExtiIndex(pin: nat): (idx: nat)
    requires pin < 256
    ensures idx < 4
  {
    (pin % 16) / 4
  }

  /** The slot of a pin's line within its EXTICR word (`num & 3`). */
  function ExtiSlot(pin: nat): (k: bv32)
    ensures k < 4
  {
    ((pin % 16) % 4) as bv32
  }

  /** The port recorded for a pin's line. */
  function ExtiPort(exticr: seq<bv32>, pin: nat): bv32
    requires |exticr| == 4 && pin < 256
  {
    Nibble(exticr[ExtiIndex(pin)], ExtiSlot(pin))
  }

  /** The driver's ownership test on one EXTICR word: the word masked to
      slot `k` equals `port << (k << 2)`. */
  predicate MaskedMatch(w: bv32, k: bv32, port: bv32)
    requires k < 8
  {
    w & (0xF << (k << 2)) == port << (k << 2)
  }

  /** The masked test holds exactly when the slot holds the port. */
  lemma MaskedMatchMeansNibble(w: bv32, k: bv32, port: bv32)
    requires k < 8 && port < 16
    ensures MaskedMatch(w, k, port) <==> Nibble(w, k) == port
  {
  }

  /** A pin's port owns the pin's line: the line's EXTICR field names that
      port (by MaskedMatchMeansNibble, exactly the driver's masked test). */
  predicate ExtiOwned(exticr: seq<bv32>, pin: nat)
    requires |exticr| == 4 && pin < 256
  {
    ExtiPort(exticr, pin) == PortOf(pin)
  }

  /** SYSCFG_EXTICR1..4. */
  type ExtiWords = s: seq<bv32> | |s| == 4 witness [0, 0, 0, 0]

  /** Routing the pin's line to the pin's port (`EXTICR[idx] & ~mask | config`). */
  function ExtiClaim(exticr: seq<bv32>, pin: nat): (e: seq<bv32>)
    requires |exticr| == 4 && pin < 256
    ensures |e| == 4
  {
    exticr[ExtiIndex(pin) := SetNibble(exticr[ExtiIndex(pin)], ExtiSlot(pin), PortOf(pin))]
  }

  lemma LinesInOneWord(a: nat, b: nat)
    requires a != b && a / 4 == b / 4
    ensures a % 4 != b % 4
  {
  }

  lemma SmallCastsDiffer(a: nat, b: nat)
    requires a < 4 && b < 4 && a != b
    ensures a as bv32 != b as bv32
  {
  }

  /** Distinct lines in one EXTICR word sit in distinct slots. */
  lemma ExtiSlotsDiffer(pin: nat, other: nat)
    requires pin < 256 && other < 256
    requires other % 16 != pin % 16 && ExtiIndex(other) == ExtiIndex(pin)
    ensures ExtiSlot(other) != ExtiSlot(pin)
  {
    LinesInOneWord(other % 16, pin % 16);
    SmallCastsDiffer((other % 16) % 4, (pin % 16) % 4);
  }

  /** After a claim the pin's port owns its line, and every other line keeps
      the port it had (so also its ownership). */
  lemma ExtiClaimIsLocal(exticr: seq<bv32>, pin: nat, other: nat)
    requires |exticr| == 4 && pin < 256 && other < 256
    ensures ExtiOwned(ExtiClaim(exticr, pin), pin)
    ensures other % 16 != pin % 16 ==>
      ExtiPort(ExtiClaim(exticr, pin), other) == ExtiPort(exticr, other)
  {
    var w := exticr[ExtiIndex(pin)];
    SetNibbleIsLocal(w, ExtiSlot(pin), PortOf(pin), ExtiSlot(pin));
    if other % 16 != pin % 16 && ExtiIndex(other) == ExtiIndex(pin) {
      ExtiSlotsDiffer(pin, other);
      SetNibbleIsLocal(w, ExtiSlot(pin), PortOf(pin), ExtiSlot(other));
    }
  }
}
