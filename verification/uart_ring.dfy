/** Index arithmetic of the fixed-capacity byte rings that the LPC24 UART
    driver keeps per port (TxBuffer/RxBuffer with their Count/In/Out
    indices). The driver advances an index by incrementing it and resetting
    it to 0 when it reaches the capacity; `Wrap` is that step. */
module UartRing {

  /** Count/In/Out indices of one ring (txBufferCount, txBufferIn, ...). */
  datatype RingState = RingState(count: nat, inIdx: nat, outIdx: nat)

  const EmptyRing := RingState(0, 0, 0)

  /** The slot `k` names in a ring of `n` slots, for `k < 2n`: the driver's
      "increment, and reset to 0 at the capacity". */
  function Wrap(k: nat, n: nat): (r: nat)
    requires 0 < n && k < 2 * n
    ensures r < n
    ensures r == k % n
  {
    if k < n then k else k - n
  }

  /** The ring invariant: the count never exceeds the capacity and the write
      index is `count` slots past the read index, modulo the capacity. */
  ghost predicate RingOk(r: RingState, n: nat) {
    0 < n && r.count <= n && r.inIdx < n && r.outIdx < n &&
    r.inIdx == Wrap(r.outIdx + r.count, n)
  }

  /** The queued contents of a ring: `count` slots starting at `out`, in
      first-in first-out order. */
  function Window<T>(buf: seq<T>, out: nat, count: nat): (s: seq<T>)
    requires out < |buf| && count <= |buf|
    ensures |s| == count
  {
    seq(count, i requires 0 <= i < count => buf[Wrap(out + i, |buf|)])
  }

  /** The queued contents are the `count` slots from `out` on in the ring
      laid out twice over, so that the wrap-around is a plain slice. */
  lemma WindowIsDoubledSlice<T>(buf: seq<T>, out: nat, count: nat)
    requires out < |buf| && count <= |buf|
    ensures Window(buf, out, count) == (buf + buf)[out .. out + count]
  {
    var n := |buf|;
    forall i | 0 <= i < count
      ensures Window(buf, out, count)[i] == (buf + buf)[out .. out + count][i]
    {
      assert Window(buf, out, count)[i] == buf[Wrap(out + i, n)];
      assert (buf + buf)[out .. out + count][i] == (buf + buf)[out + i];
      if out + i < n {
        assert (buf + buf)[out + i] == buf[out + i];
      } else {
        assert (buf + buf)[out + i] == buf[out + i - n];
      }
    }
  }

  /** Storing a byte at the write index and advancing it appends exactly that
      byte to the queued contents and overwrites nothing that is queued. */
  lemma WindowPush<T>(buf: seq<T>, out: nat, count: nat, x: T)
    requires out < |buf| && count < |buf|
    ensures Window(buf[Wrap(out + count, |buf|) := x], out, count + 1) == Window(buf, out, count) + [x]
  {
    var n := |buf|;
    var slot := Wrap(out + count, n);
    var buf' := buf[slot := x];
    forall i | 0 <= i < count
      ensures Window(buf', out, count + 1)[i] == Window(buf, out, count)[i]
    {
      assert Wrap(out + i, n) != slot;
    }
  }

  /** Taking the byte at the read index and advancing it removes exactly the
      front of the queued contents. */
  lemma WindowPop<T>(buf: seq<T>, out: nat, count: nat)
    requires out < |buf| && 0 < count <= |buf|
    ensures Window(buf, out, count)[0] == buf[out]
    ensures Window(buf, Wrap(out + 1, |buf|), count - 1) == Window(buf, out, count)[1..]
  {
    var n := |buf|;
    var next := Wrap(out + 1, n);
    assert Window(buf, out, count)[0] == buf[Wrap(out, n)];
    forall i | 0 <= i < count - 1
      ensures Window(buf, next, count - 1)[i] == Window(buf, out, count)[1..][i]
    {
      assert Wrap(next + i, n) == Wrap(out + 1 + i, n);
    }
  }
}
