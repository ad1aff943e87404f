/** Pure line-level logic of the LPC24 UART driver: line-status bits and their
    error classification, the baud-rate table and formula, the LCR encoding
    of a line configuration, the field helper `setFieldValue`, and which
    configurations `SetActiveSettings` accepts.

    Bit values are those of the LPC24xx UART register map; the ones the
    driver writes as literals (0x02, 0x04, 0x08, 0x80) agree with them. */
module UartLine {
  import opened Hal

  // Line status register (LSR) bits.
  const LsrRdr: bv32 := 0x01   // receiver data ready (UART_LSR_RFDR)
  const LsrOe: bv32 := 0x02    // overrun error
  const LsrPe: bv32 := 0x04    // parity error
  const LsrFe: bv32 := 0x08    // framing error
  const LsrTemt: bv32 := 0x40  // transmitter empty (UART_LSR_TE)
  const LsrRxfe: bv32 := 0x80  // error somewhere in the receive FIFO

  /** The bits that make the receive path discard a byte (PE, OE, FE). */
  const LsrRxErrors: bv32 := LsrPe | LsrOe | LsrFe

  // Line control register (LCR) bits.
  const LcrWlsShift: bv32 := 0
  const LcrWlsMask: bv32 := 0x03
  const LcrStopBits: bv32 := 0x04  // UART_LCR_NSB_15_STOPBITS (2, or 1.5 with 5 data bits)
  const LcrOneStopBit: bv32 := 0x00
  const LcrPbe: bv32 := 0x08       // parity enable
  const LcrEpe: bv32 := 0x10       // even parity select
  const LcrSpe: bv32 := 0x20       // stick parity
  const LcrDlab: bv32 := 0x80      // divisor latch access

  /** Interrupt identification, the IID field of IIR after masking. */
  datatype InterruptId = IirThre | IirRda | IirTimeout | IirOther

  datatype UartError = TransmitFull | ReceiveFull | ReceiveParity | Frame | BufferOverrun

  /** A callback delivered by the driver: to the error handler or to the
      data-received handler. */
  datatype UartEvent = ErrorReceived(error: UartError) | DataReceived(count: nat)

  datatype Parity = ParityNone | Odd | Even | Mark | Space | ParityUnknown
  datatype StopBits = StopNone | One | OnePointFive | Two
  datatype Handshake = HandshakeNone | XOnXOff | RequestToSend | RequestToSendXOnXOff

  // ---------------------------------------------------------------------
  // Error classification

  /** Reference: every line error an LSR snapshot shows. */
  function ErrorsIn(lsr: bv32): set<UartError> {
    (if lsr & LsrPe != 0 then {ReceiveParity} else {}) +
    (if lsr & LsrFe != 0 || lsr & LsrRxfe != 0 then {Frame} else {}) +
    (if lsr & LsrOe != 0 then {BufferOverrun} else {})
  }

  /** Reporting priority among line errors: parity, then framing, then overrun. */
  function Priority(e: UartError): nat {
    match e
    case ReceiveParity => 0
    case Frame => 1
    case BufferOverrun => 2
    case _ => 3
  }

  /** The one error the driver reports for an LSR snapshot, if any. */
  function Classify(lsr: bv32): (r: Option<UartError>)
    ensures r.None? <==> lsr & 0x8E == 0
    ensures r.Some? ==> r.value == ReceiveParity || r.value == Frame || r.value == BufferOverrun
  {
    if lsr & 0x04 != 0 then Some(ReceiveParity)
    else if lsr & 0x08 != 0 || lsr & 0x80 != 0 then Some(Frame)
    else if lsr & 0x02 != 0 then Some(BufferOverrun)
    else None
  }

  /** At most one error is reported per snapshot; it is reported exactly
      when the snapshot shows one, and it is the one of highest priority. */
  lemma ClassifyPicksHighestPriority(lsr: bv32)
    ensures Classify(lsr).None? <==> ErrorsIn(lsr) == {}
    ensures Classify(lsr).Some? ==>
      Classify(lsr).value in ErrorsIn(lsr) &&
      forall e :: e in ErrorsIn(lsr) ==> Priority(Classify(lsr).value) <= Priority(e)
  {
    if lsr & 0x04 != 0 {
      assert ReceiveParity in ErrorsIn(lsr);
    } else if lsr & 0x08 != 0 || lsr & 0x80 != 0 {
      assert Frame in ErrorsIn(lsr);
    } else if lsr & 0x02 != 0 {
      assert BufferOverrun in ErrorsIn(lsr);
    }
  }

  /** The events one classification produces: none without an error
      handler (LPC24_Uart_SetErrorEvent checks for one). */
  function ErrorEvents(errorHandlerSet: bool, lsr: bv32): (evs: seq<UartEvent>)
    ensures |evs| <= 1
    ensures |evs| == 1 <==> errorHandlerSet && Classify(lsr).Some?
  {
    if errorHandlerSet && Classify(lsr).Some? then [ErrorReceived(Classify(lsr).value)] else []
  }

  // ---------------------------------------------------------------------
  // Register field helper

  /** setFieldValue: clears the bits of `mask` and ors in `val << shift`. */
  function SetFieldValue(oldVal: bv32, shift: bv32, mask: bv32, val: bv32): bv32
    requires shift < 32
  {
    (oldVal & !mask) | (val << shift)
  }

  /** When the shifted value fits the mask, the helper writes exactly the
      field: inside the mask the result is the value, outside it the old word. */
  lemma SetFieldValueWritesOnlyField(oldVal: bv32, shift: bv32, mask: bv32, val: bv32)
    requires shift < 32
    requires (val << shift) & !mask == 0
    ensures SetFieldValue(oldVal, shift, mask, val) & mask == val << shift
    ensures SetFieldValue(oldVal, shift, mask, val) & !mask == oldVal & !mask
  {
  }

  // ---------------------------------------------------------------------
  // Baud rate

  /** Peripheral-clock selection, fractional divider and divisor for a baud rate. */
  datatype BaudConfig = BaudConfig(clockSelect: nat, fdr: nat, divisor: nat)

  /** The fixed table of standard rates. */
  function BaudTable(baudRate: nat): Option<BaudConfig> {
    if baudRate == 2400 then Some(BaudConfig(0, 0x41, 0x177))
    else if baudRate == 4800 then Some(BaudConfig(0, 0xE3, 0xC1))
    else if baudRate == 9600 then Some(BaudConfig(0, 0xC7, 0x4A))
    else if baudRate == 14400 then Some(BaudConfig(0, 0xA1, 0x47))
    else if baudRate == 19200 then Some(BaudConfig(0, 0xC7, 0x25))
    else if baudRate == 38400 then Some(BaudConfig(0, 0xB3, 0x17))
    else if baudRate == 57600 then Some(BaudConfig(0, 0x92, 0x10))
    else if baudRate == 115200 then Some(BaudConfig(0, 0x92, 0x08))
    else if baudRate == 230400 then Some(BaudConfig(0, 0x92, 0x04))
    else if baudRate == 460800 then Some(BaudConfig(1, 0x92, 0x08))
    else if baudRate == 921600 then Some(BaudConfig(1, 0x92, 0x04))
    else None
  }

  /** `baudRate * 16` as the driver computes it, in uint32_t. */
  function Baud16(baudRate: nat): nat {
    (baudRate * 16) % TwoTo32
  }

  /** The configuration for a rate: from the table, or the formula
      `clockRate / (baudRate * 16)` with fractional divider 0x10. The
      formula divides by zero when `baudRate * 16` wraps to 0 in 32 bits. */
  function BaudSetting(baudRate: nat, clockRate: nat): BaudConfig
    requires BaudTable(baudRate).Some? || Baud16(baudRate) != 0
  {
    if BaudTable(baudRate).Some? then BaudTable(baudRate).value
    else BaudConfig(1, 0x10, Quotient(clockRate, Baud16(baudRate)))
  }

  function Quotient(a: nat, b: nat): nat
    requires b > 0
  {
    a / b
  }

  /** 9600 baud selects fractional divider 0xC7 and divisor 0x4A. */
  lemma Baud9600(clockRate: nat)
    ensures BaudSetting(9600, clockRate) == BaudConfig(0, 0xC7, 0x4A)
  {
  }

  /** Off the table (and without 32-bit wrap of `baudRate * 16`), the divisor
      is the largest one whose 16x rate does not exceed the clock. */
  lemma FormulaDivisorIsLargestFit(baudRate: nat, clockRate: nat)
    requires BaudTable(baudRate).None? && 0 < baudRate && baudRate * 16 < TwoTo32
    ensures BaudSetting(baudRate, clockRate).fdr == 0x10
    ensures BaudSetting(baudRate, clockRate).divisor * (baudRate * 16) <= clockRate
    ensures clockRate < (BaudSetting(baudRate, clockRate).divisor + 1) * (baudRate * 16)
  {
    var d := baudRate * 16;
    assert Baud16(baudRate) == d;
    var q := Quotient(clockRate, d);
    assert BaudSetting(baudRate, clockRate).divisor == q;
    assert clockRate == q * d + clockRate % d;
  }

  /** The two divisor-latch bytes written to DLL and DLM. */
  function DivisorLow(divisor: nat): nat { divisor % 0x100 }
  function DivisorHigh(divisor: nat): nat { (divisor / 0x100) % 0x100 }

  /** DLL and DLM together hold a 16-bit divisor exactly. */
  lemma DivisorLatchRoundTrip(divisor: nat)
    requires divisor < 0x1_0000
    ensures DivisorHigh(divisor) * 0x100 + DivisorLow(divisor) == divisor
  {
    var hi := divisor / 0x100;
    assert divisor == hi * 0x100 + divisor % 0x100;
    assert hi < 0x100;
  }

  // ---------------------------------------------------------------------
  // Line configuration

  /** Reference: the data-bit, stop-bit and parity combinations the LCR
      encoding accepts. */
  predicate LineSupported(dataBits: nat, parity: Parity, stopBits: StopBits) {
    && 5 <= dataBits <= 8
    && (stopBits == One || (stopBits == OnePointFive && dataBits == 5) || (stopBits == Two && dataBits != 5))
    && parity != ParityUnknown
  }

  /** Reference: the handshake modes a port accepts (only port 2 has RTS/CTS). */
  predicate HandshakeSupported(portNum: nat, handshake: Handshake) {
    handshake == HandshakeNone || (portNum == 2 && handshake == RequestToSend)
  }

  /** Reference: the configurations SetActiveSettings accepts on a port. */
  predicate SettingsSupported(portNum: nat, dataBits: nat, parity: Parity, stopBits: StopBits, handshake: Handshake) {
    LineSupported(dataBits, parity, stopBits) && HandshakeSupported(portNum, handshake)
  }

  /** The word-length select field for 5 to 8 data bits, `dataBits - 5`. */
  function WordLengthSelect(dataBits: nat): (w: bv32)
    requires 5 <= dataBits <= 8
    ensures w & !LcrWlsMask == 0
  {
    if dataBits == 5 then 0 else if dataBits == 6 then 1 else if dataBits == 7 then 2 else 3
  }

  /** Reference: the LCR word a supported configuration is encoded as. */
  function LineControlWord(dataBits: nat, parity: Parity, stopBits: StopBits): bv32
    requires 5 <= dataBits <= 8
  {
    WordLengthSelect(dataBits)
    | (if stopBits == One then 0 else LcrStopBits)
    | (match parity
       case Odd => LcrPbe
       case Even => LcrPbe | LcrEpe
       case Mark => LcrPbe | LcrSpe
       case Space => LcrPbe | LcrEpe | LcrSpe
       case _ => 0)
  }
}
