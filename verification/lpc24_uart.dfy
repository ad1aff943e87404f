/** One LPC24 UART port (an entry of g_LPC24_Uart_Controller together with
    the registers of its UART block that the driver writes).

    The transmit and receive rings are byte arrays with Count/In/Out
    indices, updated in place; `TxContents` and `RxContents` give the queued
    bytes in first-in first-out order. Registered callbacks are modelled as
    the `events` log they would be delivered to, bytes written to THR as the
    `transmitted` log, and each provider call or interrupt as one atomic
    step. */
module Lpc24Uart {
  import opened Hal
  import opened UartRing
  import opened UartLine
  import opened UartReceive

  const TotalUartControllers: nat := 4

  class UartController {
    const portNum: nat
    const txBuffer: array<Byte>
    const rxBuffer: array<Byte>

    var tx: RingState
    var rx: RingState
    var isOpened: bool
    var handshakeEnable: bool
    var errorHandlerSet: bool
    var dataHandlerSet: bool

    // Registers of the UART block and of the system controller.
    var lcr: bv32
    var dll: nat
    var dlm: nat
    var fdr: nat
    var autoFlow: bool      // MCR bits 6 and 7: automatic RTS and CTS flow control
    var clockSelect: nat    // PCLKSEL field of the port
    var rdaIE: bool         // IER receive-data-available enable
    var threIE: bool        // IER transmit-holding-register-empty enable
    var interruptForced: bool
    var interruptEnabled: bool
    var powered: bool       // PCONP bit of the port

    /** Callbacks delivered to the registered handlers, in order. */
    var events: seq<UartEvent>
    /** Bytes written to the transmit holding register, in order. */
    var transmitted: seq<Byte>

    ghost predicate Valid()
      reads this
    {
      txBuffer != rxBuffer && RingOk(tx, txBuffer.Length) && RingOk(rx, rxBuffer.Length)
    }

    ghost function TxContents(): seq<Byte>
      reads this, txBuffer
      requires Valid()
    {
      Window(txBuffer[..], tx.outIdx, tx.count)
    }

    ghost function RxContents(): seq<Byte>
      reads this, rxBuffer
      requires Valid()
    {
      Window(rxBuffer[..], rx.outIdx, rx.count)
    }

    /** A port with rings of the configured sizes, as the zero-initialised
        controller table leaves it. */
    constructor (portNum: nat, txSize: nat, rxSize: nat)
      requires 0 < txSize && 0 < rxSize
      ensures Valid() && fresh(txBuffer) && fresh(rxBuffer)
      ensures this.portNum == portNum && txBuffer.Length == txSize && rxBuffer.Length == rxSize
      ensures TxContents() == [] && RxContents() == []
      ensures !isOpened && !handshakeEnable && !errorHandlerSet && !dataHandlerSet
      ensures events == [] && transmitted == []
    {
      this.portNum := portNum;
      txBuffer := new Byte[txSize];
      rxBuffer := new Byte[rxSize];
      tx, rx := EmptyRing, EmptyRing;
      isOpened, handshakeEnable := false, false;
      errorHandlerSet, dataHandlerSet := false, false;
      lcr, dll, dlm, fdr, clockSelect, autoFlow := 0, 0, 0, 0, 0, false;
      rdaIE, threIE, interruptForced, interruptEnabled, powered := false, false, false, false, false;
      events, transmitted := [], [];
    }

    /** The error callback, when a handler is registered (LPC24_Uart_SetErrorEvent). */
    function ErrorEvent(error: UartError): (evs: seq<UartEvent>)
      reads this
      ensures evs == [] || evs == [ErrorReceived(error)]
      ensures |evs| == 1 <==> errorHandlerSet
    {
      if errorHandlerSet then [ErrorReceived(error)] else []
    }

    /** Acquire: rejects a port number past the controller table, otherwise
        empties both rings and powers the port. */
    method Acquire() returns (r: HalResult)
      requires Valid()
      modifies this`tx, this`rx, this`powered
      ensures Valid()
      ensures r == (if portNum >= TotalUartControllers then ArgumentInvalid else Success)
      ensures r == ArgumentInvalid ==> tx == old(tx) && rx == old(rx) && powered == old(powered)
      ensures r == Success ==> TxContents() == [] && RxContents() == [] && powered
    {
      if portNum >= TotalUartControllers {
        return ArgumentInvalid;
      }
      tx, rx := EmptyRing, EmptyRing;
      powered := true;
      r := Success;
    }

    /** Release: on an open port disables the interrupt, both interrupt
        enables, auto flow control and the line; then always empties both
        rings, marks the port closed and removes its power. */
    method Release() returns (r: HalResult)
      requires Valid() && portNum < TotalUartControllers
      modifies this`tx, this`rx, this`isOpened, this`handshakeEnable, this`powered,
               this`interruptEnabled, this`rdaIE, this`threIE, this`autoFlow, this`lcr
      ensures Valid() && r == Success
      ensures TxContents() == [] && RxContents() == []
      ensures !isOpened && !handshakeEnable && !powered
      ensures old(isOpened) ==> !interruptEnabled && !rdaIE && !threIE && lcr == 0
      ensures autoFlow == (old(autoFlow) && !(old(isOpened) && old(handshakeEnable)))
      ensures !old(isOpened) ==> interruptEnabled == old(interruptEnabled) && rdaIE == old(rdaIE)
                                 && threIE == old(threIE) && lcr == old(lcr)
    {
      if isOpened {
        interruptEnabled := false;
        threIE := false;
        rdaIE := false;
        if handshakeEnable {
          autoFlow := false;
        }
        lcr := 0;
      }
      tx, rx := EmptyRing, EmptyRing;
      isOpened := false;
      handshakeEnable := false;
      powered := false;
      r := Success;
    }

    /** Write: copies as many of the first `length` bytes as the transmit
        ring has room for, after what is queued, and starts transmission
        when it copied any. `written` is the updated `length`. */
    method Write(buffer: seq<Byte>, length: nat) returns (r: HalResult, written: nat)
      requires Valid() && portNum < TotalUartControllers && length <= |buffer|
      modifies this`tx, this`events, this`threIE, this`interruptForced, txBuffer
      ensures Valid()
      ensures !old(isOpened) ==>
        r == NotAvailable && written == length && tx == old(tx) && txBuffer[..] == old(txBuffer[..])
        && events == old(events) && threIE == old(threIE) && interruptForced == old(interruptForced)
      ensures old(isOpened) && old(tx.count) == txBuffer.Length ==>
        r == Busy && written == length && tx == old(tx) && txBuffer[..] == old(txBuffer[..])
        && events == old(events) + ErrorEvent(TransmitFull)
        && threIE == old(threIE) && interruptForced == old(interruptForced)
      ensures old(isOpened) && old(tx.count) < txBuffer.Length ==>
        && r == Success
        && written == Min(txBuffer.Length - old(tx.count), length)
        && TxContents() == old(TxContents()) + buffer[..written]
        && events == old(events)
        && (written > 0 ==> threIE && interruptForced)
        && (written == 0 ==> threIE == old(threIE) && interruptForced == old(interruptForced))
    {
      if !isOpened {
        return NotAvailable, length;
      }
      if tx.count == txBuffer.Length {
        events := events + ErrorEvent(TransmitFull);
        return Busy, length;
      }
      var n := Min(txBuffer.Length - tx.count, length);
      var i := 0;
      while i < n
        invariant 0 <= i <= n
        invariant Valid() && tx.count == old(tx.count) + i
        invariant TxContents() == old(TxContents()) + buffer[..i]
        invariant events == old(events) && threIE == old(threIE) && interruptForced == old(interruptForced)
      {
        WindowPush(txBuffer[..], tx.outIdx, tx.count, buffer[i]);
        txBuffer[tx.inIdx] := buffer[i];
        tx := RingState(tx.count + 1, if tx.inIdx + 1 == txBuffer.Length then 0 else tx.inIdx + 1, tx.outIdx);
        assert buffer[..i + 1] == buffer[..i] + [buffer[i]];
        i := i + 1;
      }
      if n > 0 {
        TxBufferEmptyInterruptEnable(true);
      }
      r, written := Success, n;
    }

    /** Read: moves the first min(queued, `length`) received bytes, in the
        order they arrived, to the front of `buffer` and removes exactly
        those from the receive ring. `count` is the updated `length`. */
    method Read(buffer: array<Byte>, length: nat) returns (r: HalResult, count: nat)
      requires Valid() && portNum < TotalUartControllers
      requires buffer != rxBuffer && buffer != txBuffer && length <= buffer.Length
      modifies this`rx, buffer
      ensures Valid()
      ensures !old(isOpened) ==>
        r == NotAvailable && count == length && rx == old(rx) && buffer[..] == old(buffer[..])
      ensures old(isOpened) ==>
        && r == Success
        && count == Min(old(rx.count), length)
        && buffer[..count] == old(RxContents())[..count]
        && buffer[count..] == old(buffer[count..])
        && RxContents() == old(RxContents())[count..]
    {
      if !isOpened {
        return NotAvailable, length;
      }
      var n := Min(rx.count, length);
      var i := 0;
      while i < n
        invariant 0 <= i <= n
        invariant Valid() && rx.count == old(rx.count) - i
        invariant RxContents() == old(RxContents())[i..]
        invariant buffer[..i] == old(RxContents())[..i]
        invariant buffer[n..] == old(buffer[n..])
      {
        WindowPop(rxBuffer[..], rx.outIdx, rx.count);
        buffer[i] := rxBuffer[rx.outIdx];
        rx := RingState(rx.count - 1, rx.inIdx, if rx.outIdx + 1 == rxBuffer.Length then 0 else rx.outIdx + 1);
        i := i + 1;
      }
      r, count := Success, n;
    }

    /** The receive half of the interrupt. When RDA interrupts are enabled
        and the snapshot or the interrupt identification shows received
        data, it drains the hardware FIFO into the receive ring: the ring
        becomes the old contents followed by as many of the accepted bytes as
        fit (`DrainIsBoundedFifo`). */
    method ReceiveData(lsr: bv32, iir: InterruptId, fifo: seq<FifoEntry>)
      requires Valid() && portNum < TotalUartControllers
      modifies this`rx, this`events, rxBuffer
      ensures Valid()
      ensures var d := Drain(old(RxContents()), rxBuffer.Length, errorHandlerSet, dataHandlerSet, lsr, fifo);
        if old(rdaIE) && (DataReady(lsr) || iir == IirRda || iir == IirTimeout) then
          RxContents() == d.contents && events == old(events) + d.events
        else
          rx == old(rx) && rxBuffer[..] == old(rxBuffer[..]) && events == old(events)
      ensures var acc := Accepted(lsr, fifo);
        old(rdaIE) && (DataReady(lsr) || iir == IirRda || iir == IirTimeout) ==>
          RxContents() == old(RxContents()) + acc[..Min(rxBuffer.Length - old(rx.count), |acc|)]
    {
      if rdaIE && (DataReady(lsr) || iir == IirRda || iir == IirTimeout) {
        DrainIsBoundedFifo(RxContents(), rxBuffer.Length, errorHandlerSet, dataHandlerSet, lsr, fifo);
        DrainFifo(lsr, fifo);
      }
    }

    /** The do-while loop of the receive half: store or drop a byte, read
        LSR again and report its error, and go on while it shows data. */
    method DrainFifo(lsr: bv32, fifo: seq<FifoEntry>)
      requires Valid()
      modifies this`rx, this`events, rxBuffer
      ensures Valid()
      ensures var d := Drain(old(RxContents()), rxBuffer.Length, errorHandlerSet, dataHandlerSet, lsr, fifo);
        RxContents() == d.contents && events == old(events) + d.events
    {
      var n := rxBuffer.Length;
      ghost var target := Drain(old(RxContents()), n, errorHandlerSet, dataHandlerSet, lsr, fifo);
      ghost var emitted: seq<UartEvent> := [];
      var current, rest, more := lsr, fifo, true;
      while more
        invariant Valid()
        invariant events == old(events) + emitted
        invariant more ==> Drain(RxContents(), n, errorHandlerSet, dataHandlerSet, current, rest).contents == target.contents
        invariant more ==> emitted + Drain(RxContents(), n, errorHandlerSet, dataHandlerSet, current, rest).events == target.events
        invariant !more ==> RxContents() == target.contents && emitted == target.events
        decreases more, |rest|
      {
        ghost var step := Drain(RxContents(), n, errorHandlerSet, dataHandlerSet, current, rest);
        var added := StoreReceived(current, NextByte(rest));
        var next := NextLsr(rest);
        added := added + ErrorEvents(errorHandlerSet, next);
        AppendAssociates(old(events), emitted, added);
        events := events + added;
        more := rest != [] && DataReady(next);
        if more {
          ghost var tail := Drain(RxContents(), n, errorHandlerSet, dataHandlerSet, next, Rest(rest));
          assert step == Drained(tail.contents, added + tail.events);
          AppendAssociates(emitted, added, tail.events);
        } else {
          assert step == Drained(RxContents(), added);
          assert RxContents() == target.contents && emitted + added == target.events;
        }
        emitted := emitted + added;
        rest := Rest(rest);
        current := next;
      }
    }

    /** One pass of the receive loop before LSR is read again: a byte read
        under a clean snapshot is queued, or dropped with a ReceiveFull event
        when the ring is full; a byte under a line error is dropped. */
    method StoreReceived(lsr: bv32, data: Byte) returns (added: seq<UartEvent>)
      requires Valid()
      modifies this`rx, rxBuffer
      ensures Valid()
      ensures var st := Store(old(RxContents()), rxBuffer.Length, errorHandlerSet, dataHandlerSet, lsr, data);
        RxContents() == st.contents && added == st.events
    {
      added := [];
      if CleanLsr(lsr) {
        if rx.count == rxBuffer.Length {
          added := ErrorEvent(ReceiveFull);
        } else {
          WindowPush(rxBuffer[..], rx.outIdx, rx.count, data);
          rxBuffer[rx.inIdx] := data;
          rx := RingState(rx.count + 1, if rx.inIdx + 1 == rxBuffer.Length then 0 else rx.inIdx + 1, rx.outIdx);
          if dataHandlerSet {
            added := [DataReceived(1)];
          }
        }
      }
    }

    /** The transmit half of the interrupt. When the transmitter is empty or
        the interrupt identification is THRE, it sends the oldest queued byte,
        or disables the THRE interrupt when nothing is queued. CTS is taken
        as always asserted (LPC24_Uart_TxHandshakeEnabledState). */
    method TransmitData(lsr: bv32, iir: InterruptId)
      requires Valid() && portNum < TotalUartControllers
      modifies this`tx, this`transmitted, this`threIE
      ensures Valid()
      ensures var ready := lsr & LsrTemt != 0 || iir == IirThre;
        && (ready && old(tx.count) > 0 ==>
              transmitted == old(transmitted) + [old(TxContents())[0]]
              && TxContents() == old(TxContents())[1..] && threIE == old(threIE))
        && (ready && old(tx.count) == 0 ==> !threIE && tx == old(tx) && transmitted == old(transmitted))
        && (!ready ==> tx == old(tx) && transmitted == old(transmitted) && threIE == old(threIE))
    {
      if lsr & LsrTemt != 0 || iir == IirThre {
        if tx.count > 0 {
          WindowPop(txBuffer[..], tx.outIdx, tx.count);
          var data := txBuffer[tx.outIdx];
          tx := RingState(tx.count - 1, tx.inIdx, if tx.outIdx + 1 == txBuffer.Length then 0 else tx.outIdx + 1);
          transmitted := transmitted + [data];
        } else {
          // LPC24_Uart_TxBufferEmptyInterruptEnable(portNum, false)
          threIE := false;
        }
      }
    }

    /** The port interrupt: reports the line error of the entry snapshot,
        then runs the receive half and the transmit half. */
    method InterruptHandler(lsr: bv32, iir: InterruptId, fifo: seq<FifoEntry>)
      requires Valid() && portNum < TotalUartControllers
      modifies this`rx, this`events, rxBuffer, this`tx, this`transmitted, this`threIE
      ensures Valid()
      ensures var reported := old(events) + ErrorEvents(errorHandlerSet, lsr);
        |events| >= |reported| && events[..|reported|] == reported
      ensures !old(rdaIE) ==> rx == old(rx) && events == old(events) + ErrorEvents(errorHandlerSet, lsr)
    {
      events := events + ErrorEvents(errorHandlerSet, lsr);
      ReceiveData(lsr, iir, fifo);
      TransmitData(lsr, iir);
    }

    /** LPC24_Uart_TxBufferEmptyInterruptEnable: enabling forces the port
        interrupt and sets THREIE; disabling clears THREIE. */
    method TxBufferEmptyInterruptEnable(enable: bool)
      modifies this`threIE, this`interruptForced
      ensures threIE == enable
      ensures interruptForced == (enable || old(interruptForced))
    {
      if enable {
        interruptForced := true;
        threIE := true;
      } else {
        threIE := false;
      }
    }

    /** Flush: NotAvailable on a closed port; otherwise arms the THRE
        interrupt and waits until the transmit ring is empty. Each wait step
        stands for one transmit interrupt sending the oldest byte; the wait
        has no timeout, so the model assumes those interrupts keep coming. */
    method Flush() returns (r: HalResult)
      requires Valid() && portNum < TotalUartControllers
      modifies this`tx, this`transmitted, this`threIE, this`interruptForced
      ensures Valid()
      ensures !old(isOpened) ==>
        r == NotAvailable && tx == old(tx) && transmitted == old(transmitted)
        && threIE == old(threIE) && interruptForced == old(interruptForced)
      ensures old(isOpened) ==>
        r == Success && TxContents() == [] && transmitted == old(transmitted) + old(TxContents())
    {
      if !isOpened {
        return NotAvailable;
      }
      TxBufferEmptyInterruptEnable(true);
      while tx.count > 0
        invariant Valid()
        invariant transmitted + TxContents() == old(transmitted) + old(TxContents())
        decreases tx.count
      {
        ghost var before := TxContents();
        TransmitData(LsrTemt, IirThre);
        assert before == [before[0]] + before[1..];
      }
      r := Success;
    }

    /** The first half of SetActiveSettings: selects the peripheral clock,
        clears LCR and the interrupt enables, and loads the divisor latches
        (through DLAB) and the fractional divider. */
    method ProgramBaudRate(cfg: BaudConfig)
      modifies this`clockSelect, this`lcr, this`rdaIE, this`threIE, this`dll, this`dlm, this`fdr
      ensures clockSelect == cfg.clockSelect && fdr == cfg.fdr
      ensures dll == DivisorLow(cfg.divisor) && dlm == DivisorHigh(cfg.divisor)
      ensures lcr == 0 && !rdaIE && !threIE
    {
      clockSelect := cfg.clockSelect;
      lcr := 0;
      rdaIE, threIE := false, false;
      lcr := lcr | LcrDlab;
      dll := DivisorLow(cfg.divisor);
      dlm := DivisorHigh(cfg.divisor);
      lcr := lcr & !LcrDlab;
      fdr := cfg.fdr;
    }

    /** The line-format half of SetActiveSettings, starting from a cleared
        LCR: writes the word length, then the stop bits, then the parity,
        stopping at the first field it rejects; an accepted format leaves
        exactly its encoding in LCR. */
    method EncodeLineFormat(dataBits: nat, parity: Parity, stopBits: StopBits) returns (ok: bool)
      requires lcr == 0
      modifies this`lcr
      ensures ok == LineSupported(dataBits, parity, stopBits)
      ensures ok ==> lcr == LineControlWord(dataBits, parity, stopBits)
    {
      if !(5 <= dataBits <= 8) {
        return false;
      }
      lcr := SetFieldValue(lcr, LcrWlsShift, LcrWlsMask, WordLengthSelect(dataBits));

      match stopBits {
        case Two =>
          lcr := lcr | LcrStopBits;
          if dataBits == 5 {
            return false;
          }
        case One =>
          lcr := lcr | LcrOneStopBit;
        case OnePointFive =>
          lcr := lcr | LcrStopBits;
          if dataBits != 5 {
            return false;
          }
        case StopNone =>
          return false;
      }

      // Space and Mark set the stick bit and fall through to Even and Odd.
      match parity {
        case Space =>
          lcr := lcr | LcrSpe;
          lcr := lcr | (LcrEpe | LcrPbe);
        case Even =>
          lcr := lcr | (LcrEpe | LcrPbe);
        case Mark =>
          lcr := lcr | LcrSpe;
          lcr := lcr | LcrPbe;
        case Odd =>
          lcr := lcr | LcrPbe;
        case ParityNone =>
          lcr := lcr & !LcrPbe;
        case ParityUnknown =>
          return false;
      }
      ok := true;
    }

    /** SetActiveSettings. It programs the clock selection, the divisor
        latches and the fractional divider, clears LCR and the interrupt
        enables, and only then checks the line configuration; a rejected
        configuration returns NotSupported with those registers already
        written but the software state of the port untouched. An accepted one
        encodes data bits, stop bits and parity in LCR, enables auto flow
        control for RequestToSend, enables both interrupts and opens the
        port. `clockRate` is the UART peripheral clock. */
    method SetActiveSettings(baudRate: nat, dataBits: nat, parity: Parity, stopBits: StopBits,
                             handshake: Handshake, clockRate: nat) returns (r: HalResult)
      requires Valid() && portNum < TotalUartControllers
      requires BaudTable(baudRate).Some? || Baud16(baudRate) != 0
      modifies this`lcr, this`dll, this`dlm, this`fdr, this`autoFlow, this`clockSelect, this`rdaIE, this`threIE,
               this`interruptForced, this`interruptEnabled, this`isOpened, this`handshakeEnable
      ensures Valid()
      ensures r == Success || r == NotSupported
      ensures r == Success <==> SettingsSupported(portNum, dataBits, parity, stopBits, handshake)
      ensures var cfg := BaudSetting(baudRate, clockRate);
        clockSelect == cfg.clockSelect && fdr == cfg.fdr
        && dll == DivisorLow(cfg.divisor) && dlm == DivisorHigh(cfg.divisor)
      ensures r == NotSupported ==> isOpened == old(isOpened) && handshakeEnable == old(handshakeEnable)
      ensures r == NotSupported ==>
        && !rdaIE && !threIE && autoFlow == old(autoFlow)
        && interruptEnabled == old(interruptEnabled) && interruptForced == old(interruptForced)
      ensures r == Success ==>
        && isOpened && rdaIE && threIE && interruptEnabled && interruptForced
        && lcr == LineControlWord(dataBits, parity, stopBits)
        && handshakeEnable == (old(handshakeEnable) || handshake == RequestToSend)
        && autoFlow == (old(autoFlow) || handshake == RequestToSend)
    {
      ProgramBaudRate(BaudSetting(baudRate, clockRate));
      var ok := ApplyLineSettings(dataBits, parity, stopBits, handshake);
      r := if ok then Success else NotSupported;
    }

    /** The checks and writes of SetActiveSettings after the baud rate:
        line format, handshake, then the interrupt enables and the open
        flag, stopping at the first configuration that is not supported. */
    method ApplyLineSettings(dataBits: nat, parity: Parity, stopBits: StopBits, handshake: Handshake) returns (ok: bool)
      requires lcr == 0
      modifies this`lcr, this`autoFlow, this`handshakeEnable,
               this`threIE, this`interruptForced, this`interruptEnabled, this`rdaIE, this`isOpened
      ensures ok == SettingsSupported(portNum, dataBits, parity, stopBits, handshake)
      ensures !ok ==> isOpened == old(isOpened) && handshakeEnable == old(handshakeEnable)
      ensures !ok ==>
        && rdaIE == old(rdaIE) && threIE == old(threIE) && autoFlow == old(autoFlow)
        && interruptEnabled == old(interruptEnabled) && interruptForced == old(interruptForced)
      ensures ok ==>
        && isOpened && rdaIE && threIE && interruptEnabled && interruptForced
        && lcr == LineControlWord(dataBits, parity, stopBits)
        && handshakeEnable == (old(handshakeEnable) || handshake == RequestToSend)
        && autoFlow == (old(autoFlow) || handshake == RequestToSend)
    {
      ok := EncodeLineFormat(dataBits, parity, stopBits);
      if ok {
        ok := ApplyHandshake(handshake);
      }
      if ok {
        EnableLine();
      }
    }

    /** The handshake part of SetActiveSettings: only port 2 has the modem
        lines, and of the handshakes only RequestToSend is implemented, by
        turning on auto flow control. */
    method ApplyHandshake(handshake: Handshake) returns (ok: bool)
      modifies this`autoFlow, this`handshakeEnable
      ensures ok == HandshakeSupported(portNum, handshake)
      ensures !ok ==> autoFlow == old(autoFlow) && handshakeEnable == old(handshakeEnable)
      ensures ok ==> handshakeEnable == (old(handshakeEnable) || handshake == RequestToSend)
      ensures ok ==> autoFlow == (old(autoFlow) || handshake == RequestToSend)
    {
      if handshake != HandshakeNone && portNum != 2 {
        return false;
      }
      match handshake {
        case RequestToSend =>
          autoFlow := true;
          handshakeEnable := true;
        case XOnXOff =>
          return false;
        case RequestToSendXOnXOff =>
          return false;
        case HandshakeNone =>
      }
      ok := true;
    }

    /** The tail of SetActiveSettings on an accepted configuration: the
        interrupt, both interrupt enables and the open flag. */
    method EnableLine()
      modifies this`threIE, this`interruptForced, this`interruptEnabled, this`rdaIE, this`isOpened
      ensures isOpened && rdaIE && threIE && interruptEnabled && interruptForced
    {
      interruptEnabled := true;
      // LPC24_Uart_PinConfiguration(portNum, true)
      TxBufferEmptyInterruptEnable(true);
      rdaIE := true;
      isOpened := true;
    }

    method SetErrorReceivedHandler(registered: bool) returns (r: HalResult)
      modifies this`errorHandlerSet
      ensures r == Success && errorHandlerSet == registered
    {
      errorHandlerSet := registered;
      r := Success;
    }

    method SetDataReceivedHandler(registered: bool) returns (r: HalResult)
      modifies this`dataHandlerSet
      ensures r == Success && dataHandlerSet == registered
    {
      dataHandlerSet := registered;
      r := Success;
    }
  }

  /** LPC24_Uart_Reset: releases every port of the controller table. */
  method Reset(ports: seq<UartController>)
    requires |ports| == TotalUartControllers
    requires forall i :: 0 <= i < |ports| ==> ports[i].Valid() && ports[i].portNum == i
    modifies set p | p in ports
    ensures forall i :: 0 <= i < |ports| ==>
      ports[i].Valid() && !ports[i].isOpened && ports[i].TxContents() == [] && ports[i].RxContents() == []
  {
    var k := 0;
    while k < |ports|
      invariant 0 <= k <= |ports|
      invariant forall i :: 0 <= i < |ports| ==> ports[i].Valid() && ports[i].portNum == i
      invariant forall i :: 0 <= i < k ==>
        !ports[i].isOpened && ports[i].TxContents() == [] && ports[i].RxContents() == []
    {
      var _ := ports[k].Release();
      k := k + 1;
    }
  }
}
