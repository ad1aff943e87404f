/** The receive half of the LPC24 UART interrupt (LPC24_Uart_ReceiveData) as
    pure functions over the queued receive bytes.

    The hardware receive FIFO is a finite sequence of entries: reading RBR
    pops the next entry's byte, and reading LSR afterwards yields that
    entry's `lsrAfter`, the status describing the following byte. Reading
    RBR from an empty FIFO yields 0 and LSR then reads `IdleLsr` (no data
    ready, no error).

    `Drain` is the loop with the drop path falling through to the LSR
    refresh; `DrainAsWritten` is the loop exactly as the driver has it,
    where the drop path `continue`s to the loop test with the stale LSR. */
module UartReceive {
  import opened Hal
  import opened UartLine

  datatype FifoEntry = FifoEntry(data: Byte, lsrAfter: bv32)

  /** What a drain leaves behind: the queued receive bytes and the events
      delivered along the way. */
  datatype Drained = Drained(contents: seq<Byte>, events: seq<UartEvent>)

  const IdleLsr: bv32 := 0

  /** A snapshot that lets the byte it describes into the ring. */
  predicate CleanLsr(lsr: bv32) {
    lsr & LsrRxErrors == 0
  }

  predicate DataReady(lsr: bv32) {
    lsr & LsrRdr != 0
  }

  function NextByte(fifo: seq<FifoEntry>): Byte {
    if fifo == [] then 0 else fifo[0].data
  }

  function NextLsr(fifo: seq<FifoEntry>): bv32 {
    if fifo == [] then IdleLsr else fifo[0].lsrAfter
  }

  function Rest(fifo: seq<FifoEntry>): seq<FifoEntry> {
    if fifo == [] then [] else fifo[1..]
  }

  /** Storing one byte: dropped on a line error, dropped with a ReceiveFull
      event when the ring is full, otherwise appended with a DataReceived(1)
      event (events only where a handler is registered). */
  function Store(contents: seq<Byte>, capacity: nat, errorHandlerSet: bool, dataHandlerSet: bool,
                 lsr: bv32, data: Byte): (r: Drained)
    ensures r.contents == contents || (CleanLsr(lsr) && |contents| != capacity && r.contents == contents + [data])
    ensures |r.events| <= 1
  {
    if !CleanLsr(lsr) then Drained(contents, [])
    else if |contents| == capacity then
      Drained(contents, if errorHandlerSet then [ErrorReceived(ReceiveFull)] else [])
    else
      Drained(contents + [data], if dataHandlerSet then [DataReceived(1)] else [])
  }

  /** The receive loop: store or drop the next byte, refresh LSR and report
      its error, and go on while LSR shows more data. */
  function Drain(contents: seq<Byte>, capacity: nat, errorHandlerSet: bool, dataHandlerSet: bool,
                 lsr: bv32, fifo: seq<FifoEntry>): (r: Drained)
    ensures contents <= r.contents
    ensures |contents| <= capacity ==> |r.contents| <= capacity
    decreases |fifo|
  {
    var stored := Store(contents, capacity, errorHandlerSet, dataHandlerSet, lsr, NextByte(fifo));
    var lsr' := NextLsr(fifo);
    var events := stored.events + ErrorEvents(errorHandlerSet, lsr');
    if fifo != [] && DataReady(lsr') then
      var rest := Drain(stored.contents, capacity, errorHandlerSet, dataHandlerSet, lsr', Rest(fifo));
      Drained(rest.contents, events + rest.events)
    else
      Drained(stored.contents, events)
  }

  /** Reference: the bytes the loop reads under a clean snapshot, in order,
      whatever room the ring has. */
  function Accepted(lsr: bv32, fifo: seq<FifoEntry>): seq<Byte>
    decreases |fifo|
  {
    var head := if CleanLsr(lsr) then [NextByte(fifo)] else [];
    if fifo != [] && DataReady(NextLsr(fifo)) then head + Accepted(NextLsr(fifo), Rest(fifo))
    else head
  }

  function Min(a: nat, b: nat): nat {
    if a <= b then a else b
  }

  function CountReceiveFull(events: seq<UartEvent>): nat {
    if events == [] then 0
    else (if events[0] == ErrorReceived(ReceiveFull) then 1 else 0) + CountReceiveFull(events[1..])
  }

  function CountDataReceived(events: seq<UartEvent>): nat {
    if events == [] then 0
    else (if events[0].DataReceived? then 1 else 0) + CountDataReceived(events[1..])
  }

  lemma CountsDistribute(a: seq<UartEvent>, b: seq<UartEvent>)
    ensures CountReceiveFull(a + b) == CountReceiveFull(a) + CountReceiveFull(b)
    ensures CountDataReceived(a + b) == CountDataReceived(a) + CountDataReceived(b)
  {
    if a == [] {
      assert a + b == b;
    } else {
      assert (a + b)[0] == a[0];
      assert (a + b)[1..] == a[1..] + b;
      CountsDistribute(a[1..], b);
    }
  }

  /** One store step: what it keeps, appends and announces. */
  lemma StoreStep(contents: seq<Byte>, capacity: nat, errorHandlerSet: bool, dataHandlerSet: bool,
                  lsr: bv32, data: Byte)
    requires |contents| <= capacity
    ensures var st := Store(contents, capacity, errorHandlerSet, dataHandlerSet, lsr, data);
            var kept := CleanLsr(lsr) && |contents| < capacity;
            && st.contents == (if kept then contents + [data] else contents)
            && CountDataReceived(st.events) == (if dataHandlerSet && kept then 1 else 0)
            && CountReceiveFull(st.events) == (if errorHandlerSet && CleanLsr(lsr) && !kept then 1 else 0)
  {
    var st := Store(contents, capacity, errorHandlerSet, dataHandlerSet, lsr, data);
    if st.events != [] {
      assert st.events[1..] == [];
    }
  }

  lemma ErrorEventsAreLineErrors(errorHandlerSet: bool, lsr: bv32)
    ensures CountReceiveFull(ErrorEvents(errorHandlerSet, lsr)) == 0
    ensures CountDataReceived(ErrorEvents(errorHandlerSet, lsr)) == 0
  {
  }

  /** The contents equation of one recursive step of `DrainKeepsPrefix`:
      storing (or dropping) the head and then the rest under the remaining
      room is storing the whole accepted sequence under the original room. */
  lemma PrefixAfterStore(contents: seq<Byte>, capacity: nat, clean: bool, data: Byte, accRest: seq<Byte>,
                         stored: seq<Byte>, result: seq<Byte>)
    requires |contents| <= capacity
    requires stored == if clean && |contents| < capacity then contents + [data] else contents
    requires result == stored + accRest[..Min(capacity - |stored|, |accRest|)]
    ensures var acc := (if clean then [data] else []) + accRest;
            result == contents + acc[..Min(capacity - |contents|, |acc|)]
  {
    var acc := (if clean then [data] else []) + accRest;
    var storedRest := Min(capacity - |stored|, |accRest|);
    if clean && |contents| < capacity {
      assert acc[..storedRest + 1] == [data] + accRest[..storedRest];
      AppendAssociates(contents, [data], accRest[..storedRest]);
    } else if clean {
      assert storedRest == 0;
    } else {
      assert acc == accRest;
    }
  }

  /** The contents half of `DrainIsBoundedFifo`. */
  lemma {:induction false} DrainKeepsPrefix(contents: seq<Byte>, capacity: nat, errorHandlerSet: bool,
                                            dataHandlerSet: bool, lsr: bv32, fifo: seq<FifoEntry>)
    requires |contents| <= capacity
    ensures var d := Drain(contents, capacity, errorHandlerSet, dataHandlerSet, lsr, fifo);
            d.contents == contents + Accepted(lsr, fifo)[..Min(capacity - |contents|, |Accepted(lsr, fifo)|)]
    decreases |fifo|
  {
    var data := NextByte(fifo);
    var st := Store(contents, capacity, errorHandlerSet, dataHandlerSet, lsr, data);
    var lsr' := NextLsr(fifo);
    StoreStep(contents, capacity, errorHandlerSet, dataHandlerSet, lsr, data);
    if fifo != [] && DataReady(lsr') {
      var rest := Drain(st.contents, capacity, errorHandlerSet, dataHandlerSet, lsr', Rest(fifo));
      DrainKeepsPrefix(st.contents, capacity, errorHandlerSet, dataHandlerSet, lsr', Rest(fifo));
      PrefixAfterStore(contents, capacity, CleanLsr(lsr), data, Accepted(lsr', Rest(fifo)), st.contents, rest.contents);
    }
  }

  /** The room arithmetic of one recursive step: the head takes one slot
      exactly when it is clean and the ring has room. */
  lemma RoomAfterStore(len: nat, capacity: nat, clean: bool, accRestLen: nat, storedLen: nat)
    requires len <= capacity
    requires storedLen == if clean && len < capacity then len + 1 else len
    ensures Min(capacity - len, (if clean then 1 else 0) + accRestLen)
            == (if clean && len < capacity then 1 else 0) + Min(capacity - storedLen, accRestLen)
  {
  }

  /** The DataReceived half of the events of `DrainIsBoundedFifo`. */
  lemma {:induction false} DrainAnnouncesStored(contents: seq<Byte>, capacity: nat, errorHandlerSet: bool,
                          dataHandlerSet: bool, lsr: bv32, fifo: seq<FifoEntry>)
    requires |contents| <= capacity
    ensures var d := Drain(contents, capacity, errorHandlerSet, dataHandlerSet, lsr, fifo);
            var stored := Min(capacity - |contents|, |Accepted(lsr, fifo)|);
            CountDataReceived(d.events) == (if dataHandlerSet then stored else 0)
    decreases |fifo|
  {
    var data := NextByte(fifo);
    var st := Store(contents, capacity, errorHandlerSet, dataHandlerSet, lsr, data);
    var lsr' := NextLsr(fifo);
    var events := st.events + ErrorEvents(errorHandlerSet, lsr');
    StoreStep(contents, capacity, errorHandlerSet, dataHandlerSet, lsr, data);
    CountsDistribute(st.events, ErrorEvents(errorHandlerSet, lsr'));
    ErrorEventsAreLineErrors(errorHandlerSet, lsr');
    if fifo != [] && DataReady(lsr') {
      DrainAnnouncesStored(st.contents, capacity, errorHandlerSet, dataHandlerSet, lsr', Rest(fifo));
      var rest := Drain(st.contents, capacity, errorHandlerSet, dataHandlerSet, lsr', Rest(fifo));
      CountsDistribute(events, rest.events);
      RoomAfterStore(|contents|, capacity, CleanLsr(lsr), |Accepted(lsr', Rest(fifo))|, |st.contents|);
    }
  }

  /** The ReceiveFull half of the events of `DrainIsBoundedFifo`. */
  lemma {:induction false} DrainAnnouncesDropped(contents: seq<Byte>, capacity: nat, errorHandlerSet: bool,
                          dataHandlerSet: bool, lsr: bv32, fifo: seq<FifoEntry>)
    requires |contents| <= capacity
    ensures var d := Drain(contents, capacity, errorHandlerSet, dataHandlerSet, lsr, fifo);
            var stored := Min(capacity - |contents|, |Accepted(lsr, fifo)|);
            CountReceiveFull(d.events) == (if errorHandlerSet then |Accepted(lsr, fifo)| - stored else 0)
    decreases |fifo|
  {
    var data := NextByte(fifo);
    var st := Store(contents, capacity, errorHandlerSet, dataHandlerSet, lsr, data);
    var lsr' := NextLsr(fifo);
    var events := st.events + ErrorEvents(errorHandlerSet, lsr');
    StoreStep(contents, capacity, errorHandlerSet, dataHandlerSet, lsr, data);
    CountsDistribute(st.events, ErrorEvents(errorHandlerSet, lsr'));
    ErrorEventsAreLineErrors(errorHandlerSet, lsr');
    if fifo != [] && DataReady(lsr') {
      DrainAnnouncesDropped(st.contents, capacity, errorHandlerSet, dataHandlerSet, lsr', Rest(fifo));
      var rest := Drain(st.contents, capacity, errorHandlerSet, dataHandlerSet, lsr', Rest(fifo));
      CountsDistribute(events, rest.events);
      RoomAfterStore(|contents|, capacity, CleanLsr(lsr), |Accepted(lsr', Rest(fifo))|, |st.contents|);
    }
  }

  /** The receive ring is a bounded FIFO that never overwrites: the loop
      keeps the bytes already queued, appends the accepted bytes in arrival
      order as far as there is room and drops the rest. Every stored byte is
      announced by one DataReceived(1) event and every dropped accepted byte
      by one ReceiveFull event (where the handlers are registered). */
  lemma DrainIsBoundedFifo(contents: seq<Byte>, capacity: nat, errorHandlerSet: bool,
                           dataHandlerSet: bool, lsr: bv32, fifo: seq<FifoEntry>)
    requires |contents| <= capacity
    ensures var d := Drain(contents, capacity, errorHandlerSet, dataHandlerSet, lsr, fifo);
            var stored := Min(capacity - |contents|, |Accepted(lsr, fifo)|);
            && d.contents == contents + Accepted(lsr, fifo)[..stored]
            && |d.contents| <= capacity
            && CountDataReceived(d.events) == (if dataHandlerSet then stored else 0)
            && CountReceiveFull(d.events) == (if errorHandlerSet then |Accepted(lsr, fifo)| - stored else 0)
  {
    DrainKeepsPrefix(contents, capacity, errorHandlerSet, dataHandlerSet, lsr, fifo);
    DrainAnnouncesStored(contents, capacity, errorHandlerSet, dataHandlerSet, lsr, fifo);
    DrainAnnouncesDropped(contents, capacity, errorHandlerSet, dataHandlerSet, lsr, fifo);
  }

  /** One iteration of the loop as the driver writes it: what it stores and
      announces, the LSR snapshot the loop test then sees, and whether the
      loop goes on. On the full-ring path it `continue`s to the loop test
      without reading LSR again, so the stale snapshot decides. */
  function StepAsWritten(contents: seq<Byte>, capacity: nat, errorHandlerSet: bool, dataHandlerSet: bool,
                         lsr: bv32, fifo: seq<FifoEntry>): (s: (Drained, bv32))
    ensures contents <= s.0.contents
    ensures |contents| <= capacity ==> |s.0.contents| <= capacity
  {
    if CleanLsr(lsr) && |contents| >= capacity then
      (Drained(contents, if errorHandlerSet then [ErrorReceived(ReceiveFull)] else []), lsr)
    else
      var stored := Store(contents, capacity, errorHandlerSet, dataHandlerSet, lsr, NextByte(fifo));
      var lsr' := NextLsr(fifo);
      (Drained(stored.contents, stored.events + ErrorEvents(errorHandlerSet, lsr')), lsr')
  }

  /** The loop as the driver writes it, run for at most `fuel` iterations
      (None when the fuel runs out). */
  function DrainAsWritten(contents: seq<Byte>, capacity: nat, errorHandlerSet: bool, dataHandlerSet: bool,
                          lsr: bv32, fifo: seq<FifoEntry>, fuel: nat): (r: Option<Drained>)
    ensures r.Some? ==> contents <= r.value.contents
    ensures r.Some? && |contents| <= capacity ==> |r.value.contents| <= capacity
    decreases fuel
  {
    if fuel == 0 then None
    else
      var (step, lsr') := StepAsWritten(contents, capacity, errorHandlerSet, dataHandlerSet, lsr, fifo);
      if DataReady(lsr') then
        var tail := DrainAsWritten(step.contents, capacity, errorHandlerSet, dataHandlerSet, lsr', Rest(fifo), fuel - 1);
        if tail.None? then None else Some(Drained(tail.value.contents, step.events + tail.value.events))
      else Some(step)
  }

  /** As written, the interrupt never returns once a clean byte finds the
      receive ring full while the entry snapshot shows data ready: whatever
      the FIFO holds and however many iterations are allowed, the loop is
      still running. */
  lemma {:induction false} AsWrittenSpinsWhenFull(contents: seq<Byte>, capacity: nat, errorHandlerSet: bool,
                                                  dataHandlerSet: bool, lsr: bv32, fifo: seq<FifoEntry>, fuel: nat)
    requires |contents| == capacity && CleanLsr(lsr) && DataReady(lsr)
    ensures DrainAsWritten(contents, capacity, errorHandlerSet, dataHandlerSet, lsr, fifo, fuel).None?
    decreases fuel
  {
    if fuel > 0 {
      AsWrittenSpinsWhenFull(contents, capacity, errorHandlerSet, dataHandlerSet, lsr, Rest(fifo), fuel - 1);
    }
  }

  /** While the ring has room for every queued byte the full-ring path is
      never taken, and the loop as written ends with what `Drain` computes. */
  lemma {:induction false} AsWrittenAgreesWithRoom(contents: seq<Byte>, capacity: nat, errorHandlerSet: bool,
                                                   dataHandlerSet: bool, lsr: bv32, fifo: seq<FifoEntry>, fuel: nat)
    requires |contents| + |fifo| < capacity && |fifo| < fuel
    ensures DrainAsWritten(contents, capacity, errorHandlerSet, dataHandlerSet, lsr, fifo, fuel)
            == Some(Drain(contents, capacity, errorHandlerSet, dataHandlerSet, lsr, fifo))
    decreases |fifo|
  {
    var stored := Store(contents, capacity, errorHandlerSet, dataHandlerSet, lsr, NextByte(fifo));
    if fifo != [] && DataReady(NextLsr(fifo)) {
      AsWrittenAgreesWithRoom(stored.contents, capacity, errorHandlerSet, dataHandlerSet, NextLsr(fifo), Rest(fifo), fuel - 1);
    }
  }
}
