/** The bus-clock derivation of the AT91 I2C driver (AT91_I2c_SetActiveSettings):
    from the requested rate in kHz and the peripheral clock in Hz, the
    8-bit low/high divisor CLDIV = CHDIV and the 3-bit exponent CKDIV of the
    TWI clock waveform generator. The half period it yields is
    `(CLDIV * 2^CKDIV + 4)` peripheral clock cycles.

    `ClockDivisors` is the closed form; `DeriveClockDivisors` is the
    driver's computation with its halving loop. */
module I2cClock {
  import opened Hal

  /** CLOCK_RATE_CONSTANT: the fixed cycles added to every half period. */
  const ClockRateConstant: nat := 4

  /** MAX_CLK_RATE: the fastest bus clock, in kHz. */
  const MaxClkRate: nat := 400

  /** The bus-speed classes of the provider interface; `OtherSpeed` stands
      for any other value of the enumeration. */
  datatype BusSpeed = StandardMode | FastMode | OtherSpeed(code: int)

  /** The bus rate of a speed class in kHz, or None for an unknown class. */
  function RateKhz(speed: BusSpeed): (r: Option<nat>)
    ensures r.Some? <==> !speed.OtherSpeed?
    ensures r.Some? ==> 0 < r.value <= MaxClkRate
  {
    match speed
    case FastMode => Some(400)
    case StandardMode => Some(100)
    case OtherSpeed(_) => None
  }

  /** MIN_CLK_RATE: the slowest rate in kHz the divisors can produce, with
      CLDIV 255 and CKDIV 7. */
  function MinClkRate(pclk: nat): nat {
    (pclk / 1000) / (128 * 255 + ClockRateConstant)
  }

  /** The (uint8_t) conversion. */
  function Trunc8(x: int): (b: nat)
    ensures b < 0x100
    ensures 0 <= x < 0x100 ==> b == x
  {
    x % 0x100
  }

  function Pow2(k: nat): (p: nat)
    ensures p >= 1
  {
    if k == 0 then 1 else 2 * Pow2(k - 1)
  }

  /** `x` halved `k` times in integer arithmetic. */
  function Halved(x: nat, k: nat): nat {
    if k == 0 then x else Halved(x, k - 1) / 2
  }

  /** Reference: the least exponent `e` from `k` up to 7 with `x` halved
      `e` times at most 255, or 8 when there is none. */
  function LeastExponent(x: nat, k: nat): (e: nat)
    requires 1 <= k <= 8
    ensures k <= e <= 8
    ensures e <= 7 ==> Halved(x, e) <= 255
    decreases 8 - k
  {
    if k == 8 || Halved(x, k) <= 255 then k else LeastExponent(x, k + 1)
  }

  /** No exponent below the least one brings `x` into 8 bits. */
  lemma {:induction false} LeastExponentIsLeast(x: nat, k: nat, j: nat)
    requires 1 <= k <= 8 && k <= j < LeastExponent(x, k)
    ensures Halved(x, j) > 255
    decreases 8 - k
  {
    if k < j {
      LeastExponentIsLeast(x, k + 1, j);
    }
  }

  /** The two divisor bytes of the configuration: CLDIV (also used as
      CHDIV) and CKDIV. */
  datatype Divisors = Divisors(clockRate: nat, clockRate2: nat)

  /** The cycles per half period the driver aims at, `(pclk / 2000) / rate`
      (the uint32 quotient). */
  function Target(rateKhz: nat, pclk: nat): nat
    requires rateKhz > 0
  {
    (pclk / 2000) / rateKhz
  }

  /** Reference: the divisors for `rateKhz`. Below MIN_CLK_RATE the pair is
      clamped to (255, 7); at MAX_CLK_RATE and above the exponent is 0;
      otherwise they are the scaled divisors of the target. Both results
      are stored as uint8. */
  function ClockDivisors(rateKhz: nat, pclk: nat): (d: Divisors)
    requires rateKhz > 0
    ensures d.clockRate < 0x100 && d.clockRate2 < 0x100
  {
    if rateKhz < MinClkRate(pclk) then Divisors(255, 7)
    else if rateKhz >= MaxClkRate then
      Divisors(Trunc8((pclk / 2000) / MaxClkRate - ClockRateConstant), 0)
    else ScaledDivisors(Target(rateKhz, pclk))
  }

  /** Reference: the divisors for a target of `t` cycles: CLDIV is `t - 4`
      (in uint32) when that fits in 8 bits, with exponent 0; otherwise the
      exponent is the least one that brings the target into 8 bits and CLDIV
      is `t - 4` scaled down by it. */
  function ScaledDivisors(t: nat): (d: Divisors)
    ensures d.clockRate < 0x100 && d.clockRate2 < 0x100
  {
    var base := Sub32(t, ClockRateConstant);
    if base <= 255 then Divisors(Trunc8(base), 0)
    else
      var e := LeastExponent((base + ClockRateConstant) % TwoTo32, 1);
      Divisors(Trunc8(Halved(base, if e <= 7 then e else 7)), Trunc8(e))
  }

  /** Halving the quotient by a power of two halves by the next power. */
  lemma HalveQuotient(x: nat, p: nat)
    requires p > 0
    ensures (x / p) / 2 == x / (p * 2)
  {
    var q, r := x / p, x % p;
    var h, s := q / 2, q % 2;
    assert x == q * p + r;
    assert q * p == h * (p * 2) + s * p by {
      assert q == 2 * h + s;
    }
    assert s * p + r < p * 2 by {
      MulMonotone(s, 1, p);
    }
    QuotientUnique(x, p * 2, h, s * p + r);
  }

  /** Halving `k` times divides by 2^k. */
  lemma {:induction false} HalvedIsQuotient(x: nat, k: nat)
    ensures Halved(x, k) == x / Pow2(k)
  {
    if k > 0 {
      HalvedIsQuotient(x, k - 1);
      HalveQuotient(x, Pow2(k - 1));
    }
  }

  /** Halving preserves order. */
  lemma {:induction false} HalvedMonotone(a: nat, b: nat, k: nat)
    requires a <= b
    ensures Halved(a, k) <= Halved(b, k)
  {
    if k > 0 {
      HalvedMonotone(a, b, k - 1);
    }
  }

  /** A quotient at most `q` means the dividend is below `(q + 1) * b`. */
  lemma QuotientBound(a: nat, b: nat, q: nat)
    requires b > 0 && a / b <= q
    ensures a < (q + 1) * b
  {
    assert a == (a / b) * b + a % b;
    MulMonotone(a / b, q, b);
  }

  /** A dividend below `c * b` has a quotient below `c`. */
  lemma QuotientBelow(a: nat, b: nat, c: nat)
    requires b > 0 && a < c * b
    ensures a / b < c
  {
    assert a == (a / b) * b + a % b;
    if a / b >= c {
      MulMonotone(c, a / b, b);
    }
  }

  /** From MIN_CLK_RATE up, the target stays below 32644 cycles, so seven
      halvings always bring it into 8 bits. */
  lemma TargetBounded(rateKhz: nat, pclk: nat)
    requires rateKhz > 0 && rateKhz >= MinClkRate(pclk)
    ensures Target(rateKhz, pclk) < 32644
  {
    var m := pclk / 1000;
    QuotientBound(m, 128 * 255 + ClockRateConstant, rateKhz);
    HalveQuotient(pclk, 1000);
    var h := pclk / 2000;
    assert h * 2 <= m;
    assert h < (rateKhz + 1) * 16322;
    assert (rateKhz + 1) * 16322 <= 32644 * rateKhz;
    QuotientBelow(h, rateKhz, 32644);
  }

  /** Below 2^15, seven halvings bring a value into 8 bits. */
  lemma SevenHalvingsFit(x: nat)
    requires x < 32768
    ensures Halved(x, 7) <= 255
  {
    HalvedIsQuotient(x, 7);
    assert Pow2(7) == 128;
    QuotientBelow(x, 128, 256);
  }

  lemma {:induction false} ExponentFits(x: nat, k: nat)
    requires 1 <= k <= 7 && Halved(x, 7) <= 255
    ensures LeastExponent(x, k) <= 7
    decreases 8 - k
  {
    if k < 7 && Halved(x, k) > 255 {
      ExponentFits(x, k + 1);
    }
  }

  /** The wrapped `base + 4` of the loop is the target again. */
  lemma RestoresTarget(t: nat)
    requires t < TwoTo32
    ensures (Sub32(t, ClockRateConstant) + ClockRateConstant) % TwoTo32 == t
  {
  }

  /** For a target below 2^15 the exponent is at most 7, and it is 0
      exactly when the target less 4 already fits in 8 bits. */
  lemma ScaledExponentFits(t: nat)
    requires t < 32768
    ensures ScaledDivisors(t).clockRate2 <= 7
    ensures ScaledDivisors(t).clockRate2 == 0 <==> Sub32(t, ClockRateConstant) <= 255
  {
    if Sub32(t, ClockRateConstant) > 255 {
      RestoresTarget(t);
      SevenHalvingsFit(t);
      ExponentFits(t, 1);
    }
  }

  /** A nonzero exponent is the least one that brings the target into 8
      bits. */
  lemma ScaledExponentLeast(t: nat, j: nat)
    requires t < TwoTo32
    requires 1 <= j <= ScaledDivisors(t).clockRate2 <= 7
    ensures Halved(t, ScaledDivisors(t).clockRate2) <= 255
    ensures j < ScaledDivisors(t).clockRate2 ==> Halved(t, j) > 255
  {
    RestoresTarget(t);
    if j < LeastExponent(t, 1) {
      LeastExponentIsLeast(t, 1, j);
    }
  }

  /** For a target of at least 4 below 2^15, CLDIV is exactly `t - 4`
      halved CKDIV times (which `HalvedIsQuotient` turns into
      `(t - 4) / 2^CKDIV`): the uint8 store loses nothing. */
  lemma ScaledDivisorsExact(t: nat)
    requires ClockRateConstant <= t < 32768
    ensures ScaledDivisors(t).clockRate == Halved(t - ClockRateConstant, ScaledDivisors(t).clockRate2)
  {
    var base := t - ClockRateConstant;
    if base > 255 {
      RestoresTarget(t);
      SevenHalvingsFit(t);
      ExponentFits(t, 1);
      HalvedMonotone(base, t, LeastExponent(t, 1));
    }
  }

  /** Between MIN_CLK_RATE and MAX_CLK_RATE the exponent stays within its
      3-bit field and the divisors are the scaled target. */
  lemma GeneralDivisors(rateKhz: nat, pclk: nat)
    requires 0 < rateKhz < MaxClkRate && rateKhz >= MinClkRate(pclk)
    ensures Target(rateKhz, pclk) < 32644
    ensures ClockDivisors(rateKhz, pclk) == ScaledDivisors(Target(rateKhz, pclk))
    ensures ClockDivisors(rateKhz, pclk).clockRate2 <= 7
  {
    TargetBounded(rateKhz, pclk);
    ScaledExponentFits(Target(rateKhz, pclk));
  }

  /** In the general branch, whenever the target is at least the constant 4,
      the primary divisor is the reduced target divided by 2 to the power of
      the exponent. */
  lemma GeneralClockRate(rateKhz: nat, pclk: nat)
    requires 0 < rateKhz < MaxClkRate && rateKhz >= MinClkRate(pclk)
    requires Target(rateKhz, pclk) >= ClockRateConstant
    ensures var d := ClockDivisors(rateKhz, pclk);
            d.clockRate == (Target(rateKhz, pclk) - ClockRateConstant) / Pow2(d.clockRate2)
  {
    var t := Target(rateKhz, pclk);
    GeneralDivisors(rateKhz, pclk);
    ScaledDivisorsExact(t);
    HalvedIsQuotient(t - ClockRateConstant, ScaledDivisors(t).clockRate2);
  }

  /** For both bus speeds the driver supports, whatever the peripheral
      clock, the exponent fits the 3-bit CKDIV field of the clock waveform
      register. */
  lemma SupportedSpeedExponentFits(speed: BusSpeed, pclk: nat)
    requires RateKhz(speed).Some?
    ensures ClockDivisors(RateKhz(speed).value, pclk).clockRate2 <= 7
  {
    var rateKhz := RateKhz(speed).value;
    if MinClkRate(pclk) <= rateKhz < MaxClkRate {
      GeneralDivisors(rateKhz, pclk);
    }
  }

  /** The halving loop of the driver: starting from exponent 1, halve `x`
      and double the power until the halved value fits in 8 bits, for at
      most seven rounds. A loop that runs out leaves the exponent at 8 and
      the power at 2^7. */
  method Halvings(x: nat) returns (clkDiv: nat, power: nat)
    ensures clkDiv == LeastExponent(x, 1)
    ensures power == Pow2(if clkDiv <= 7 then clkDiv else 7)
  {
    var clkLHDiv := x;
    power := 1;
    clkDiv := 1;
    while clkDiv <= 7
      invariant 1 <= clkDiv <= 8
      invariant power == Pow2(clkDiv - 1)
      invariant clkLHDiv == Halved(x, clkDiv - 1)
      invariant LeastExponent(x, clkDiv) == LeastExponent(x, 1)
    {
      clkLHDiv := clkLHDiv / 2;
      power := power * 2;
      if clkLHDiv <= 255 {
        return;
      }
      clkDiv := clkDiv + 1;
    }
  }

  /** The general branch of the computation (rates between MIN_CLK_RATE and
      MAX_CLK_RATE): the target less 4, which when it does not fit in 8 bits
      is restored by adding 4 back, run through the halving loop, and
      finally recomputed as the target less 4 divided by the power the loop
      reached. */
  method ScaleTarget(target: nat) returns (d: Divisors)
    ensures d == ScaledDivisors(target)
  {
    var power: nat := 1;
    var clkDiv: nat := 0;
    var clkLHDiv := Sub32(target, ClockRateConstant);
    if clkLHDiv > 255 {
      clkLHDiv := (clkLHDiv + ClockRateConstant) % TwoTo32;
      clkDiv, power := Halvings(clkLHDiv);
      HalvedIsQuotient(Sub32(target, ClockRateConstant), if clkDiv <= 7 then clkDiv else 7);
      clkLHDiv := Sub32(target, ClockRateConstant) / power;
    }
    d := Divisors(Trunc8(clkLHDiv), Trunc8(clkDiv));
  }

  /** The divisor computation as the driver writes it: the clamp below
      MIN_CLK_RATE, the direct formula from MAX_CLK_RATE up, and the scaled
      target in between. */
  method DeriveClockDivisors(rateKhz: nat, pclk: nat) returns (d: Divisors)
    requires rateKhz > 0
    ensures d == ClockDivisors(rateKhz, pclk)
  {
    if rateKhz < MinClkRate(pclk) {
      d := Divisors(255, 7);
    } else if rateKhz >= MaxClkRate {
      d := Divisors(Trunc8((pclk / 2000) / MaxClkRate - ClockRateConstant), 0);
    } else {
      d := ScaleTarget((pclk / 2000) / rateKhz);
    }
  }
}
