/** The AT91 I2C (TWI) master driver: the configuration record
    g_I2cConfiguration, SetActiveSettings, the blocking Read, Write and
    WriteRead transactions with their bounded status polls, and
    Acquire/Release.

    The TWI block is observed through `bus`, its register accesses in
    order. The device on the bus is a parameter of each transaction:
    `delays[n]` is the number of polls after which the n-th status wait of
    the transaction finds its flag set (0 past the end), and `incoming[i]`
    the byte the i-th read of the receive holding register returns. */
module At91I2c {
  import opened Hal
  import opened I2cClock

  /** I2C_TRANSACTION_TIMEOUT: the polls one status wait may take. */
  const TransactionTimeout: nat := 2000000

  /** The transfer statuses the driver reports. */
  datatype TransferStatus = FullTransfer | ClockStretchTimeout

  /** TWI_CR commands; `MasterStart` is MSEN | SVDIS | START. */
  datatype Command = MasterStart | Stop | MasterDisable | SoftwareReset

  /** TWI_SR flags the driver polls. */
  datatype StatusFlag = RxReady | TxReady | TxComplete

  datatype BusOp =
    | ClockWaveform(cldiv: nat, chdiv: nat, ckdiv: nat)   // TWI_CWGR
    | MasterMode(address: int, read: bool)                // TWI_MMR: device address and direction
    | Control(cmd: Command)                               // TWI_CR
    | Wait(flag: StatusFlag)                              // a bounded poll of TWI_SR
    | Receive(data: Byte)                                 // a read of TWI_RHR
    | Transmit(data: Byte)                                // a write of TWI_THR
    | DisableInterrupts                                   // TWI_IDR: NACK, RXRDY, TXCOMP, TXRDY

  function Delay(delays: seq<nat>, n: nat): nat {
    if n < |delays| then delays[n] else 0
  }

  function Incoming(incoming: seq<Byte>, i: nat): Byte {
    if i < |incoming| then incoming[i] else 0
  }

  /** The n-th wait uses up its whole budget. */
  predicate Late(delays: seq<nat>, n: nat) {
    Delay(delays, n) >= TransactionTimeout
  }

  /** Reference: each of the first `n` waits finds its flag within the
      budget. */
  predicate AllInTime(delays: seq<nat>, n: nat) {
    forall i :: 0 <= i < n ==> !Late(delays, i)
  }

  /** One more wait in time extends the run of waits in time. */
  lemma AllInTimeStep(delays: seq<nat>, n: nat)
    ensures AllInTime(delays, n + 1) <==> AllInTime(delays, n) && !Late(delays, n)
  {
    if AllInTime(delays, n) && !Late(delays, n) {
      forall i | 0 <= i < n + 1
        ensures !Late(delays, i)
      {
        if i < n {
          assert !Late(delays, i);
        }
      }
    }
  }

  /** Reference: the first late wait among `from .. n-1`, or `n`. */
  function FirstLate(delays: seq<nat>, from: nat, n: nat): (i: nat)
    requires from <= n
    ensures from <= i <= n
    ensures i < n ==> Late(delays, i)
    ensures forall j :: from <= j < i ==> !Late(delays, j)
    decreases n - from
  {
    if from == n || Late(delays, from) then from else FirstLate(delays, from + 1, n)
  }

  /** The bytes a transfer of `length` moves: all of them when no byte wait
      runs out, otherwise the bytes up to and including the one whose wait
      ran out (it is still read or written). */
  function Transferred(delays: seq<nat>, length: nat): (n: nat)
    ensures n <= length
    ensures n == length || (0 < n && Late(delays, n - 1) && AllInTime(delays, n - 1))
  {
    var i := FirstLate(delays, 0, length);
    if i < length then i + 1 else length
  }

  /** The accesses that open a transaction: the clock waveform, the mode
      with the device address and the direction, then the start. */
  function Setup(clockRate: nat, clockRate2: nat, address: int, read: bool): seq<BusOp> {
    [ClockWaveform(clockRate, clockRate, clockRate2), MasterMode(address, read), Control(MasterStart)]
  }

  /** Receiving byte `i` of a read of `length` bytes: STOP first when it is
      the last one, then the wait and the read of RHR. */
  function ReadStep(i: nat, b: Byte, length: nat): seq<BusOp> {
    (if i + 1 == length then [Control(Stop)] else []) + [Wait(RxReady), Receive(b)]
  }

  /** The accesses that receive `data`, the first bytes of a read of
      `length` bytes. */
  function ReadBytes(data: seq<Byte>, length: nat): seq<BusOp>
    decreases |data|
  {
    if data == [] then []
    else ReadBytes(data[..|data| - 1], length) + ReadStep(|data| - 1, data[|data| - 1], length)
  }

  /** The accesses that send `data`: a wait and a write of THR per byte. */
  function WriteBytes(data: seq<Byte>): seq<BusOp>
    decreases |data|
  {
    if data == [] then []
    else WriteBytes(data[..|data| - 1]) + [Wait(TxReady), Transmit(data[|data| - 1])]
  }

  /** The end of a read: wait for completion, disable the master. */
  const ReadEnd: seq<BusOp> := [Wait(TxComplete), Control(MasterDisable)]

  /** The end of a write: wait for the last byte, STOP, wait for
      completion, disable the master. */
  const WriteEnd: seq<BusOp> := [Wait(TxReady), Control(Stop), Wait(TxComplete), Control(MasterDisable)]

  /** The data bytes a trace moves across the bus, in order. */
  function Payload(ops: seq<BusOp>): seq<Byte>
    decreases |ops|
  {
    if ops == [] then []
    else
      var last := ops[|ops| - 1];
      Payload(ops[..|ops| - 1])
      + (if last.Receive? then [last.data] else if last.Transmit? then [last.data] else [])
  }

  /** The number of STOP commands in a trace. */
  function Stops(ops: seq<BusOp>): nat
    decreases |ops|
  {
    if ops == [] then 0
    else Stops(ops[..|ops| - 1]) + (if ops[|ops| - 1] == Control(Stop) then 1 else 0)
  }

  lemma {:induction false} PayloadAppend(a: seq<BusOp>, b: seq<BusOp>)
    ensures Payload(a + b) == Payload(a) + Payload(b)
    ensures Stops(a + b) == Stops(a) + Stops(b)
    decreases |b|
  {
    if b == [] {
      assert a + b == a;
    } else {
      var b' := b[..|b| - 1];
      assert (a + b)[..|a + b| - 1] == a + b';
      assert (a + b)[|a + b| - 1] == b[|b| - 1];
      PayloadAppend(a, b');
    }
  }

  /** One received byte: its trace carries that byte, and STOP exactly when
      it is the last byte. */
  lemma ReadStepProtocol(i: nat, b: Byte, length: nat)
    ensures Payload(ReadStep(i, b, length)) == [b]
    ensures Stops(ReadStep(i, b, length)) == (if i + 1 == length then 1 else 0)
  {
    var head: seq<BusOp> := if i + 1 == length then [Control(Stop)] else [];
    assert Payload(head) == [] && Stops(head) == (if i + 1 == length then 1 else 0) by {
      if i + 1 == length {
        assert head[..0] == [];
      }
    }
    assert Payload([Wait(RxReady)]) == [] && Stops([Wait(RxReady)]) == 0 by {
      assert [Wait(RxReady)][..0] == [];
    }
    assert Payload([Receive(b)]) == [b] && Stops([Receive(b)]) == 0 by {
      assert [Receive(b)][..0] == [];
    }
    PayloadAppend([Wait(RxReady)], [Receive(b)]);
    assert [Wait(RxReady)] + [Receive(b)] == [Wait(RxReady), Receive(b)];
    PayloadAppend(head, [Wait(RxReady), Receive(b)]);
  }

  /** A read trace carries exactly the received bytes, in order, and issues
      one STOP exactly when it reaches the last byte of the read. */
  lemma {:induction false} ReadBytesProtocol(data: seq<Byte>, length: nat)
    requires |data| <= length
    ensures Payload(ReadBytes(data, length)) == data
    ensures Stops(ReadBytes(data, length)) == (if 0 < |data| == length then 1 else 0)
    decreases |data|
  {
    if data != [] {
      var init := data[..|data| - 1];
      ReadBytesProtocol(init, length);
      PayloadAppend(ReadBytes(init, length), ReadStep(|data| - 1, data[|data| - 1], length));
      ReadStepProtocol(|data| - 1, data[|data| - 1], length);
      assert init + [data[|data| - 1]] == data;
    }
  }

  /** The STOP of a complete read comes just before the wait for its last
      byte, so the device is told to stop before that byte is clocked in. */
  lemma ReadBytesStopsBeforeLast(data: seq<Byte>, length: nat)
    requires 0 < |data| == length
    ensures var ops := ReadBytes(data, length);
            |ops| >= 3 && ops[|ops| - 3..] == [Control(Stop), Wait(RxReady), Receive(data[length - 1])]
  {
    var ops := ReadBytes(data, length);
    var step := ReadStep(|data| - 1, data[|data| - 1], length);
    assert step == [Control(Stop), Wait(RxReady), Receive(data[length - 1])];
    assert ops == ReadBytes(data[..|data| - 1], length) + step;
  }

  /** A write trace carries exactly the sent bytes, in order, and no STOP:
      the only STOP of a write comes after the last byte. */
  lemma {:induction false} WriteBytesProtocol(data: seq<Byte>)
    ensures Payload(WriteBytes(data)) == data
    ensures Stops(WriteBytes(data)) == 0
    decreases |data|
  {
    if data != [] {
      var init := data[..|data| - 1];
      var step := [Wait(TxReady), Transmit(data[|data| - 1])];
      WriteBytesProtocol(init);
      PayloadAppend(WriteBytes(init), step);
      assert step[..1] == [Wait(TxReady)] && [Wait(TxReady)][..0] == [];
      assert init + [data[|data| - 1]] == data;
    }
  }

  // ---------------------------------------------------------------------
  // Bus pins

  /** AT91_Gpio_OpenPin: reserve a pin unless it is reserved already. */
  function OpenPin(reserved: set<nat>, pin: nat): (bool, set<nat>) {
    if pin in reserved then (false, reserved) else (true, reserved + {pin})
  }

  /** The pin opening of Acquire as the driver writes it: SDA, then SCL only
      when SDA opened. When SCL fails, SDA stays reserved. */
  function OpenBusPinsAsWritten(reserved: set<nat>, sda: nat, scl: nat): (p: (bool, set<nat>))
    ensures p.0 <==> sda !in reserved && scl !in reserved && sda != scl
    ensures p.0 ==> p.1 == reserved + {sda, scl}
    ensures !p.0 ==> p.1 == if sda in reserved then reserved else reserved + {sda}
  {
    var (sdaOk, afterSda) := OpenPin(reserved, sda);
    if !sdaOk then (false, afterSda) else OpenPin(afterSda, scl)
  }

  /** The pin opening with SDA closed again when SCL cannot be opened: both
      pins are reserved together or neither is. */
  function OpenBusPins(reserved: set<nat>, sda: nat, scl: nat): (p: (bool, set<nat>))
    ensures p.0 <==> sda !in reserved && scl !in reserved && sda != scl
    ensures p.1 == if p.0 then reserved + {sda, scl} else reserved
  {
    var (sdaOk, afterSda) := OpenPin(reserved, sda);
    if !sdaOk then (false, reserved)
    else
      var (sclOk, afterScl) := OpenPin(afterSda, scl);
      if sclOk then (true, afterScl) else (false, afterScl - {sda})
  }

  /** As written, an Acquire that meets SCL reserved elsewhere leaves SDA
      reserved; once the other owner frees SCL, every later Acquire still
      fails on SDA, which nobody will release. The corrected opening leaves
      the reservations as they were, and succeeds once SCL is free. */
  lemma AsWrittenLeaksSda(sda: nat, scl: nat)
    requires sda != scl
    ensures OpenBusPinsAsWritten({scl}, sda, scl) == (false, {scl, sda})
    ensures OpenBusPinsAsWritten({sda}, sda, scl) == (false, {sda})
    ensures OpenBusPins({scl}, sda, scl) == (false, {scl})
    ensures OpenBusPins({}, sda, scl) == (true, {sda, scl})
  {
    assert {scl} + {sda} == {scl, sda};
    assert OpenPin({scl}, sda) == (true, {scl, sda});
    assert scl in {scl, sda};
    assert {} + {sda, scl} == {sda, scl};
  }

  /** Release after a successful Acquire gives the reservations back. */
  lemma AcquireReleaseRestoresPins(reserved: set<nat>, sda: nat, scl: nat)
    requires OpenBusPins(reserved, sda, scl).0
    ensures OpenBusPins(reserved, sda, scl).1 - {sda, scl} == reserved
  {
  }

  // ---------------------------------------------------------------------
  // The controller

  /** g_I2cConfiguration with the TWI block and the pins it uses. */
  class I2cController {
    /** AT91_SYSTEM_PERIPHERAL_CLOCK_HZ. */
    const peripheralClockHz: nat
    const sdaPin: nat
    const sclPin: nat

    var address: int
    var clockRate: nat
    var clockRate2: nat
    var initialized: bool
    /** The TWI clock in the power management controller. */
    var clockEnabled: bool
    /** The pins reserved through the AT91 GPIO driver, by any driver. */
    var reservedPins: set<nat>
    /** Accesses to the TWI registers, in order. */
    var bus: seq<BusOp>

    /** The zero-initialised configuration. */
    constructor (peripheralClockHz: nat, sdaPin: nat, sclPin: nat, reservedPins: set<nat>)
      ensures this.peripheralClockHz == peripheralClockHz && this.sdaPin == sdaPin && this.sclPin == sclPin
      ensures this.reservedPins == reservedPins
      ensures address == 0 && clockRate == 0 && clockRate2 == 0
      ensures !initialized && !clockEnabled && bus == []
    {
      this.peripheralClockHz := peripheralClockHz;
      this.sdaPin := sdaPin;
      this.sclPin := sclPin;
      this.reservedPins := reservedPins;
      address, clockRate, clockRate2 := 0, 0, 0;
      initialized, clockEnabled := false, false;
      bus := [];
    }

    function Config(read: bool): seq<BusOp>
      reads this
    {
      Setup(clockRate, clockRate2, address, read)
    }

    /** SetActiveSettings: an unknown speed class is NotSupported and
        changes nothing; otherwise the divisors for the class's rate and the
        device address are stored. */
    method SetActiveSettings(slaveAddress: int, speed: BusSpeed) returns (r: HalResult)
      modifies this`address, this`clockRate, this`clockRate2
      ensures r == (if RateKhz(speed).Some? then Success else NotSupported)
      ensures r == NotSupported ==>
        address == old(address) && clockRate == old(clockRate) && clockRate2 == old(clockRate2)
      ensures r == Success ==>
        address == slaveAddress
        && Divisors(clockRate, clockRate2) == ClockDivisors(RateKhz(speed).value, peripheralClockHz)
    {
      var rateKhz: nat;
      if speed == FastMode {
        rateKhz := 400;
      } else if speed == StandardMode {
        rateKhz := 100;
      } else {
        return NotSupported;
      }
      var d := DeriveClockDivisors(rateKhz, peripheralClockHz);
      clockRate := d.clockRate;
      clockRate2 := d.clockRate2;
      address := slaveAddress;
      r := Success;
    }

    /** A bounded status wait: one poll per tick until the flag shows, after
        `delay` polls, or the remaining budget `timeout` is used up. */
    method Poll(flag: StatusFlag, timeout: nat, delay: nat) returns (left: nat)
      modifies this`bus
      ensures left == if delay < timeout then timeout - delay else 0
      ensures bus == old(bus) + [Wait(flag)]
    {
      left := timeout;
      var polls := 0;
      while polls < delay && left > 0
        invariant polls <= delay && left + polls == timeout
      {
        left := left - 1;
        polls := polls + 1;
      }
      bus := bus + [Wait(flag)];
    }

    /** The byte loop of ReadTransaction: per byte, STOP when it is the
        last, wait for RXRDY and read RHR; the budget is restored after each
        wait that did not run out, and the loop stops after a wait that did. */
    method ReceiveBytes(buffer: array<Byte>, length: nat, delays: seq<nat>, incoming: seq<Byte>)
        returns (lengthOut: nat, timeout: nat)
      requires length <= buffer.Length
      modifies this`bus, buffer
      ensures lengthOut == Transferred(delays, length)
      ensures timeout > 0 <==> AllInTime(delays, lengthOut)
      ensures timeout > 0 ==> timeout == TransactionTimeout
      ensures forall i :: 0 <= i < lengthOut ==> buffer[i] == Incoming(incoming, i)
      ensures forall i :: lengthOut <= i < buffer.Length ==> buffer[i] == old(buffer[i])
      ensures bus == old(bus) + ReadBytes(buffer[..lengthOut], length)
    {
      timeout := TransactionTimeout;
      lengthOut := 0;
      var toGo := length;
      while toGo > 0 && timeout > 0
        invariant lengthOut + toGo == length
        invariant timeout == TransactionTimeout || timeout == 0
        invariant timeout > 0 ==> AllInTime(delays, lengthOut)
        invariant timeout == 0 ==> 0 < lengthOut && Late(delays, lengthOut - 1) && AllInTime(delays, lengthOut - 1)
        invariant forall i :: 0 <= i < lengthOut ==> buffer[i] == Incoming(incoming, i)
        invariant forall i :: lengthOut <= i < buffer.Length ==> buffer[i] == old(buffer[i])
        invariant bus == old(bus) + ReadBytes(buffer[..lengthOut], length)
      {
        ghost var before := bus;
        if toGo == 1 {
          bus := bus + [Control(Stop)];
        }
        timeout := Poll(RxReady, timeout, Delay(delays, lengthOut));
        buffer[lengthOut] := Incoming(incoming, lengthOut);
        bus := bus + [Receive(buffer[lengthOut])];
        assert bus == before + ReadStep(lengthOut, buffer[lengthOut], length);
        assert buffer[..lengthOut + 1][..lengthOut] == buffer[..lengthOut];
        AppendAssociates(old(bus), ReadBytes(buffer[..lengthOut], length), ReadStep(lengthOut, buffer[lengthOut], length));
        toGo := toGo - 1;
        lengthOut := lengthOut + 1;
        if timeout > 0 {
          timeout := TransactionTimeout;
        }
      }
    }

    /** ReadTransaction: set up the transfer, receive up to `length` bytes
        into `buffer`, then wait for TXCOMP and always disable the master.
        The transfer is full exactly when every wait it made found its flag
        within the budget; the result is Success exactly then. */
    method ReadTransaction(buffer: array<Byte>, length: nat, delays: seq<nat>, incoming: seq<Byte>)
        returns (r: HalResult, lengthOut: nat, status: TransferStatus)
      requires length <= buffer.Length
      modifies this`bus, buffer
      ensures lengthOut == Transferred(delays, length)
      ensures status == FullTransfer <==> AllInTime(delays, lengthOut + 1)
      ensures r == if status == FullTransfer then Success else TimedOut
      ensures forall i :: 0 <= i < lengthOut ==> buffer[i] == Incoming(incoming, i)
      ensures forall i :: lengthOut <= i < buffer.Length ==> buffer[i] == old(buffer[i])
      ensures bus == old(bus) + Config(true) + ReadBytes(buffer[..lengthOut], length) + ReadEnd
    {
      bus := bus + Config(true);
      ghost var start := bus;
      var timeout;
      lengthOut, timeout := ReceiveBytes(buffer, length, delays, incoming);
      if timeout > 0 {
        timeout := TransactionTimeout;
      }
      timeout := Poll(TxComplete, timeout, Delay(delays, lengthOut));
      bus := bus + [Control(MasterDisable)];
      assert bus == start + ReadBytes(buffer[..lengthOut], length) + ReadEnd;
      AllInTimeStep(delays, lengthOut);
      status := if timeout > 0 then FullTransfer else ClockStretchTimeout;
      r := if timeout > 0 then Success else TimedOut;
    }

    /** The byte loop of WriteTransaction: per byte, wait for TXRDY, restore
        the budget when the wait did not run out, and write THR; the loop
        stops after a wait that ran out. */
    method SendBytes(buffer: array<Byte>, length: nat, delays: seq<nat>) returns (lengthOut: nat, timeout: nat)
      requires length <= buffer.Length
      modifies this`bus
      ensures lengthOut == Transferred(delays, length)
      ensures timeout > 0 <==> AllInTime(delays, lengthOut)
      ensures timeout > 0 ==> timeout == TransactionTimeout
      ensures bus == old(bus) + WriteBytes(buffer[..lengthOut])
    {
      timeout := TransactionTimeout;
      lengthOut := 0;
      var toGo := length;
      while toGo > 0 && timeout > 0
        invariant lengthOut + toGo == length
        invariant timeout == TransactionTimeout || timeout == 0
        invariant timeout > 0 ==> AllInTime(delays, lengthOut)
        invariant timeout == 0 ==> 0 < lengthOut && Late(delays, lengthOut - 1) && AllInTime(delays, lengthOut - 1)
        invariant bus == old(bus) + WriteBytes(buffer[..lengthOut])
      {
        timeout := Poll(TxReady, timeout, Delay(delays, lengthOut));
        if timeout > 0 {
          timeout := TransactionTimeout;
        }
        bus := bus + [Transmit(buffer[lengthOut])];
        assert buffer[..lengthOut + 1][..lengthOut] == buffer[..lengthOut];
        AppendAssociates(old(bus), WriteBytes(buffer[..lengthOut]), [Wait(TxReady), Transmit(buffer[lengthOut])]);
        lengthOut := lengthOut + 1;
        toGo := toGo - 1;
      }
    }

    /** WriteTransaction: set up the transfer, send up to `length` bytes
        from `buffer`, wait for TXRDY, STOP, wait for TXCOMP and always
        disable the master. The transfer is full exactly when every wait it
        made found its flag within the budget; the result is Success exactly
        then. */
    method WriteTransaction(buffer: array<Byte>, length: nat, delays: seq<nat>)
        returns (r: HalResult, lengthOut: nat, status: TransferStatus)
      requires length <= buffer.Length
      modifies this`bus
      ensures lengthOut == Transferred(delays, length)
      ensures status == FullTransfer <==> AllInTime(delays, lengthOut + 2)
      ensures r == if status == FullTransfer then Success else TimedOut
      ensures bus == old(bus) + Config(false) + WriteBytes(buffer[..lengthOut]) + WriteEnd
    {
      bus := bus + Config(false);
      ghost var start := bus;
      var timeout;
      lengthOut, timeout := SendBytes(buffer, length, delays);
      if timeout > 0 {
        timeout := TransactionTimeout;
      }
      timeout := Poll(TxReady, timeout, Delay(delays, lengthOut));
      bus := bus + [Control(Stop)];
      if timeout > 0 {
        timeout := TransactionTimeout;
      }
      timeout := Poll(TxComplete, timeout, Delay(delays, lengthOut + 1));
      bus := bus + [Control(MasterDisable)];
      assert bus == start + WriteBytes(buffer[..lengthOut]) + WriteEnd;
      AllInTimeStep(delays, lengthOut);
      AllInTimeStep(delays, lengthOut + 1);
      status := if timeout > 0 then FullTransfer else ClockStretchTimeout;
      r := if timeout > 0 then Success else TimedOut;
    }

    /** WriteReadTransaction: the write, then the read only when the write
        was a full transfer. When the read is skipped its length is left as
        the caller passed it. Success exactly when the last phase run was a
        full transfer. */
    method WriteReadTransaction(writeBuffer: array<Byte>, writeLength: nat,
                                readBuffer: array<Byte>, readLength: nat,
                                writeDelays: seq<nat>, readDelays: seq<nat>, incoming: seq<Byte>)
        returns (r: HalResult, writeOut: nat, readOut: nat, status: TransferStatus)
      requires writeLength <= writeBuffer.Length && readLength <= readBuffer.Length
      modifies this`bus, readBuffer
      ensures writeOut == Transferred(writeDelays, writeLength)
      ensures readOut == if AllInTime(writeDelays, writeOut + 2) then Transferred(readDelays, readLength) else readLength
      ensures status == FullTransfer <==> AllInTime(writeDelays, writeOut + 2) && AllInTime(readDelays, readOut + 1)
      ensures r == if status == FullTransfer then Success else TimedOut
      ensures var written := old(bus) + Config(false) + WriteBytes(old(writeBuffer[..writeOut])) + WriteEnd;
              if AllInTime(writeDelays, writeOut + 2)
              then bus == written + Config(true) + ReadBytes(readBuffer[..readOut], readLength) + ReadEnd
              else bus == written && readBuffer[..] == old(readBuffer[..])
    {
      r, writeOut, status := WriteTransaction(writeBuffer, writeLength, writeDelays);
      readOut := readLength;
      if status == FullTransfer {
        r, readOut, status := ReadTransaction(readBuffer, readLength, readDelays, incoming);
      }
      r := if status == FullTransfer then Success else TimedOut;
    }

    /** Acquire: nothing to do on an initialised controller. Otherwise the
        bus pins are opened; when that fails the result is SharingViolation;
        when it succeeds the TWI clock is enabled, the mode register is
        loaded with the placeholder address 0x7E and the controller is
        initialised. */
    method Acquire() returns (r: HalResult)
      modifies this`initialized, this`clockEnabled, this`reservedPins, this`bus
      ensures r == Success || r == SharingViolation
      ensures old(initialized) ==>
        r == Success && initialized && clockEnabled == old(clockEnabled)
        && reservedPins == old(reservedPins) && bus == old(bus)
      ensures !old(initialized) ==>
        (var pins := OpenBusPins(old(reservedPins), sdaPin, sclPin);
         && (r == Success <==> pins.0)
         && reservedPins == pins.1
         && (r == Success ==> initialized && clockEnabled && bus == old(bus) + [MasterMode(0x7E, false)])
         && (r == SharingViolation ==> !initialized && clockEnabled == old(clockEnabled) && bus == old(bus)))
    {
      if !initialized {
        var pins := OpenBusPins(reservedPins, sdaPin, sclPin);
        reservedPins := pins.1;
        if !pins.0 {
          return SharingViolation;
        }
        // AT91_Gpio_ConfigurePin for SDA and SCL
        clockEnabled := true;
        bus := bus + [MasterMode(0x7E, false)];
        initialized := true;
      }
      r := Success;
    }

    /** Release: always a software reset of the TWI block; on an
        initialised controller also the TWI clock off, the master disabled,
        its interrupts disabled, and both pins closed. Always Success, and
        the controller is no longer initialised. */
    method Release() returns (r: HalResult)
      modifies this`initialized, this`clockEnabled, this`reservedPins, this`bus
      ensures r == Success && !initialized
      ensures old(initialized) ==>
        !clockEnabled && reservedPins == old(reservedPins) - {sdaPin, sclPin}
        && bus == old(bus) + [Control(SoftwareReset), Control(MasterDisable), DisableInterrupts]
      ensures !old(initialized) ==>
        clockEnabled == old(clockEnabled) && reservedPins == old(reservedPins)
        && bus == old(bus) + [Control(SoftwareReset)]
    {
      bus := bus + [Control(SoftwareReset)];
      if initialized {
        // AT91_Interrupt_Disable(AT91C_ID_TWI)
        clockEnabled := false;
        bus := bus + [Control(MasterDisable), DisableInterrupts];
        initialized := false;
        reservedPins := reservedPins - {sdaPin} - {sclPin};
      }
      r := Success;
    }
  }
}
