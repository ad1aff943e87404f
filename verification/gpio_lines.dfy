/** The per-line interrupt logic of the STM32F4 GPIO driver as pure
    functions: the state kept for each of the 16 external interrupt lines,
    the ISR's debounce rule, the set of lines the shared-vector
    demultiplexers service, and the millisecond/tick conversion of the
    debounce window.

    Times are 64-bit tick counts; the ISR compares them with a 64-bit
    unsigned subtraction, which `Sub64` writes out. */
module GpioLines {
  import opened Hal

  const TwoTo64: nat := 0x1_0000_0000_0000_0000

  /** Number of external interrupt lines. */
  const MaxInt: nat := 16

  /** One flag per interrupt line (a 16-bit EXTI register). */
  type LineFlags = s: seq<bool> | |s| == MaxInt witness seq(16, _ => false)

  /** `a - b` in uint64_t. */
  function Sub64(a: nat, b: nat): (r: nat)
    ensures r < TwoTo64
  {
    (a - b) % TwoTo64
  }

  /** A handler call: the handler's identity, the pin and the level it reports. */
  datatype Dispatch = Dispatch(handler: nat, pin: nat, high: bool)

  /** STM32F4_Int_State: the pin bound to a line, its debounce setting in
      milliseconds at registration (only compared with 0), the tick count
      of the last dispatched edge, the handler (None when no handler is set)
      and the last sampled level. */
  datatype IntState = IntState(pin: nat, debounce: nat, lastDebounceTicks: nat,
                               handler: Option<nat>, currentValue: bool)

  const IdleLine := IntState(0, 0, 0, None, false)

  /** What one ISR invocation leaves behind. */
  datatype IsrResult = IsrResult(state: IntState, events: seq<Dispatch>)

  /** Reference: whether an edge at `now` reaches the handler. Without a
      debounce setting every edge does; with one, only an edge at least
      `window` ticks after the last dispatched one. */
  predicate Passes(st: IntState, window: nat, now: nat) {
    st.handler.Some? && (st.debounce == 0 || Sub64(now, st.lastDebounceTicks) >= window)
  }

  /** STM32F4_Gpio_ISR for one line: sample the level, and call the handler
      unless the debounce window suppresses the edge; a dispatch under
      debounce moves the watermark to `now`. */
  function IsrStep(st: IntState, window: nat, now: nat, level: bool): (r: IsrResult)
    ensures r.state.currentValue == level
    ensures r.state.(lastDebounceTicks := st.lastDebounceTicks, currentValue := st.currentValue) == st
    ensures r.events == (if Passes(st, window, now) then [Dispatch(st.handler.value, st.pin, level)] else [])
    ensures r.state.lastDebounceTicks == (if Passes(st, window, now) && st.debounce != 0 then now else st.lastDebounceTicks)
  {
    var sampled := st.(currentValue := level);
    if st.handler.None? then IsrResult(sampled, [])
    else if st.debounce != 0 then
      if Sub64(now, st.lastDebounceTicks) >= window then
        IsrResult(sampled.(lastDebounceTicks := now), [Dispatch(st.handler.value, st.pin, level)])
      else IsrResult(sampled, [])
    else IsrResult(sampled, [Dispatch(st.handler.value, st.pin, level)])
  }

  /** The debounce window at work: after an edge dispatched at `t1`, an edge
      less than `window` ticks later is suppressed and leaves the watermark
      at `t1`, and the next edge at least `window` ticks after `t1` is
      dispatched again. */
  lemma DebounceSuppressesBounce(st: IntState, window: nat, t1: nat, t2: nat, t3: nat, l1: bool, l2: bool, l3: bool)
    requires st.handler.Some? && st.debounce != 0
    requires Passes(st, window, t1)
    requires t1 <= t2 < t1 + window && t1 + window <= t3 < TwoTo64
    ensures var s1 := IsrStep(st, window, t1, l1);
            var s2 := IsrStep(s1.state, window, t2, l2);
            var s3 := IsrStep(s2.state, window, t3, l3);
            && s1.events == [Dispatch(st.handler.value, st.pin, l1)]
            && s2.events == [] && s2.state.lastDebounceTicks == t1
            && s3.events == [Dispatch(st.handler.value, st.pin, l3)] && s3.state.lastDebounceTicks == t3
  {
    var s1 := IsrStep(st, window, t1, l1);
    assert t2 - t1 < TwoTo64;
    assert Sub64(t2, t1) == t2 - t1;
    assert Sub64(t3, t1) == t3 - t1;
    assert !Passes(s1.state, window, t2);
  }

  /** The unsigned subtraction measures elapsed ticks across a wrap of the
      64-bit counter too. */
  lemma ElapsedAcrossWrap(last: nat, elapsed: nat)
    requires last < TwoTo64 && elapsed < TwoTo64
    ensures Sub64((last + elapsed) % TwoTo64, last) == elapsed
  {
    if last + elapsed >= TwoTo64 {
      assert (last + elapsed) % TwoTo64 == last + elapsed - TwoTo64;
    }
  }

  // ---------------------------------------------------------------------
  // Shared-vector demultiplexing

  /** Reference: the lines in `from .. hi-1` that are pending and enabled
      (`PR & IMR` restricted to the vector's range), in ascending order. */
  function PendingLines(pr: seq<bool>, imr: seq<bool>, from: nat, hi: nat): (lines: seq<nat>)
    requires |pr| == MaxInt && |imr| == MaxInt && hi <= MaxInt
    ensures forall i :: 0 <= i < |lines| ==> from <= lines[i] < hi
    decreases hi - from
  {
    if from >= hi then []
    else (if pr[from] && imr[from] then [from] else []) + PendingLines(pr, imr, from + 1, hi)
  }

  /** A line is serviced exactly when it lies in the range and its pending
      and enable bits are both set. */
  lemma {:induction false} PendingLinesMembers(pr: seq<bool>, imr: seq<bool>, from: nat, hi: nat, k: nat)
    requires |pr| == MaxInt && |imr| == MaxInt && hi <= MaxInt
    ensures k in PendingLines(pr, imr, from, hi) <==> from <= k < hi && pr[k] && imr[k]
    decreases hi - from
  {
    if from < hi {
      PendingLinesMembers(pr, imr, from + 1, hi, k);
    }
  }

  predicate StrictlyAscending(s: seq<nat>) {
    forall i, j :: 0 <= i < j < |s| ==> s[i] < s[j]
  }

  /** A number below every element of an ascending sequence keeps it
      ascending when put in front. */
  lemma AscendingCons(x: nat, rest: seq<nat>)
    requires StrictlyAscending(rest)
    requires forall i :: 0 <= i < |rest| ==> x < rest[i]
    ensures StrictlyAscending([x] + rest)
  {
    var s := [x] + rest;
    forall i, j | 0 <= i < j < |s|
      ensures s[i] < s[j]
    {
      assert s[j] == rest[j - 1];
      if i > 0 {
        assert s[i] == rest[i - 1];
      }
    }
  }

  /** Lines are serviced in strictly ascending order, each at most once. */
  lemma {:induction false} PendingLinesAscending(pr: seq<bool>, imr: seq<bool>, from: nat, hi: nat)
    requires |pr| == MaxInt && |imr| == MaxInt && hi <= MaxInt
    ensures StrictlyAscending(PendingLines(pr, imr, from, hi))
    decreases hi - from
  {
    if from < hi {
      PendingLinesAscending(pr, imr, from + 1, hi);
      if pr[from] && imr[from] {
        AscendingCons(from, PendingLines(pr, imr, from + 1, hi));
      }
    }
  }

  /** Splitting the range at `from`: the lines pending at `from` come
      before the lines pending above it. */
  lemma PendingLinesStep(pr: seq<bool>, imr: seq<bool>, from: nat, hi: nat)
    requires |pr| == MaxInt && |imr| == MaxInt && from < hi <= MaxInt
    ensures PendingLines(pr, imr, from, hi)
            == (if pr[from] && imr[from] then [from] else []) + PendingLines(pr, imr, from + 1, hi)
  {
  }

  /** Extending the range by one line at the top appends that line when it
      is pending and enabled. */
  lemma {:induction false} PendingLinesSnoc(pr: seq<bool>, imr: seq<bool>, from: nat, num: nat)
    requires |pr| == MaxInt && |imr| == MaxInt && from <= num < MaxInt
    ensures PendingLines(pr, imr, from, num + 1)
            == if pr[num] && imr[num] then PendingLines(pr, imr, from, num) + [num] else PendingLines(pr, imr, from, num)
    decreases num - from
  {
    if from < num {
      PendingLinesSnoc(pr, imr, from + 1, num);
      var head: seq<nat> := if pr[from] && imr[from] then [from] else [];
      if pr[num] && imr[num] {
        AppendAssociates(head, PendingLines(pr, imr, from + 1, num), [num]);
      }
    } else {
      assert PendingLines(pr, imr, num + 1, num + 1) == [] && PendingLines(pr, imr, num, num) == [];
      if pr[num] && imr[num] {
        assert [num] + [] == [] + [num];
      }
    }
  }

  /** Nothing pending above `num` adds nothing. */
  lemma {:induction false} PendingLinesTail(pr: seq<bool>, imr: seq<bool>, from: nat, num: nat, hi: nat)
    requires |pr| == MaxInt && |imr| == MaxInt && from <= num <= hi <= MaxInt
    requires PendingLines(pr, imr, num, hi) == []
    ensures PendingLines(pr, imr, from, hi) == PendingLines(pr, imr, from, num)
    ensures forall k :: num <= k < hi ==> !(pr[k] && imr[k])
    decreases hi - num
  {
    if num < hi {
      PendingLinesSnoc(pr, imr, num, hi - 1);
      PendingLinesTail(pr, imr, from, num, hi - 1);
      PendingLinesSnoc(pr, imr, from, hi - 1);
    }
  }

  // ---------------------------------------------------------------------
  // Debounce window

  /** STM32F4_Time_MillisecondsToTicks, taken as a linear conversion. */
  function MsToTicks(ms: nat, ticksPerMs: nat): nat {
    ms * ticksPerMs
  }

  /** GetDebounceTimeout: ticks back to whole milliseconds. */
  function TicksToMs(ticks: nat, ticksPerMs: nat): nat
    requires ticksPerMs > 0
  {
    ticks / ticksPerMs
  }

  /** A stored window reads back as the milliseconds it was set from, and a
      window below 10000 ms reads back below 10000 (so the int32 result
      never truncates). */
  lemma DebounceRoundTrip(ms: nat, ticks: nat, ticksPerMs: nat)
    requires ticksPerMs > 0
    ensures TicksToMs(MsToTicks(ms, ticksPerMs), ticksPerMs) == ms
    ensures ticks < MsToTicks(10000, ticksPerMs) ==> TicksToMs(ticks, ticksPerMs) < 10000
  {
    QuotientUnique(ms * ticksPerMs, ticksPerMs, ms, 0);
    var q := ticks / ticksPerMs;
    assert ticks == q * ticksPerMs + ticks % ticksPerMs;
    if q >= 10000 {
      MulMonotone(10000, q, ticksPerMs);
    }
  }
}
