/** Shared vocabulary of the three drivers: the closed set of result codes
    returned across the provider boundary, bytes, and the option type used
    for registered handlers. */
module Hal {

  /** The result codes a provider call may return. */
  datatype HalResult =
    | Success
    | TimedOut
    | Busy
    | NotAvailable
    | NotSupported
    | NotFound
    | NotImplemented
    | ArgumentOutOfRange
    | ArgumentInvalid
    | SharingViolation
    | WrongType

  /** An 8-bit data byte (uint8_t). */
  newtype Byte = b: int | 0 <= b < 0x100

  datatype Option<+T> = None | Some(value: T)

  /** 2^32: the modulus of uint32_t arithmetic. */
  const TwoTo32: nat := 0x1_0000_0000

  /** uint32_t subtraction, which wraps around modulo 2^32. */
  function Sub32(a: nat, b: nat): (r: nat)
    ensures r < TwoTo32
    ensures a < TwoTo32 && b <= a ==> r == a - b
  {
    (a - b) % TwoTo32
  }

  lemma MulMonotone(a: nat, b: nat, t: nat)
    requires a <= b
    ensures a * t <= b * t
  {
    assert b * t == a * t + (b - a) * t;
  }

  /** Integer division has a unique quotient. */
  lemma QuotientUnique(a: nat, t: nat, q: nat, r: nat)
    requires t > 0 && a == q * t + r && r < t
    ensures a / t == q
  {
    var q' := a / t;
    assert a == q' * t + a % t;
    if q' < q {
      MulMonotone(q' + 1, q, t);
    } else if q' > q {
      MulMonotone(q + 1, q', t);
    }
  }

  /** Concatenation regroups; used where event logs grow step by step. */
  lemma AppendAssociates<T>(a: seq<T>, b: seq<T>, c: seq<T>)
    ensures (a + b) + c == a + (b + c)
  {
  }
}
