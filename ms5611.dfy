/** The MS5611 barometer: its command tables and the datasheet's integer
    compensation, which turns the raw 24-bit ADC counts D1 (pressure) and D2
    (temperature) and the six factory coefficients C1..C6 into a temperature
    in 0.01 °C and a pressure in 0.01 mbar.

    The driver computes in `i64` and takes `>>` as an arithmetic shift. Here
    the arithmetic is on unbounded integers, a shift right by k is floor
    division by 2^k (Dafny's `/` by a positive constant), and the one
    narrowing cast, TEMP `as i32`, is written out with `ToI32`.
    `NoOverflow` shows that for 24-bit ADC counts every intermediate value
    fits an `i64` and the cast loses nothing, so the two agree. */
module Ms5611 {
  import opened Messages

  // ---------------------------------------------------------------------
  // Commands and the oversampling table

  const RESET: u8 := 0x1E
  const ADC_READ: u8 := 0x00

  /** PROM addresses of C1..C6 (0xA0 is reserved, 0xAE holds the CRC). */
  const PROM_READ_ADDRS: seq<u8> := [0xA2, 0xA4, 0xA6, 0xA8, 0xAA, 0xAC]

  datatype OversamplingRatio = Osr256 | Osr512 | Osr1024 | Osr2048 | Osr4096

  /** Position of an oversampling ratio in the table, from 256 (0) to 4096 (4). */
  function Rank(osr: OversamplingRatio): (k: nat)
    ensures k < 5
  {
    match osr
    case Osr256 => 0
    case Osr512 => 1
    case Osr1024 => 2
    case Osr2048 => 3
    case Osr4096 => 4
  }

  /** Command byte that starts a pressure (D1) conversion. */
  function PressureCommand(osr: OversamplingRatio): (cmd: u8)
    ensures cmd == 0x40 + 2 * Rank(osr)
  {
    match osr
    case Osr256 => 0x40
    case Osr512 => 0x42
    case Osr1024 => 0x44
    case Osr2048 => 0x46
    case Osr4096 => 0x48
  }

  /** Command byte that starts a temperature (D2) conversion. */
  function TemperatureCommand(osr: OversamplingRatio): (cmd: u8)
    ensures cmd == PressureCommand(osr) + 0x10
  {
    match osr
    case Osr256 => 0x50
    case Osr512 => 0x52
    case Osr1024 => 0x54
    case Osr2048 => 0x56
    case Osr4096 => 0x58
  }

  /** Maximum conversion time in microseconds (datasheet maximum). */
  function ConversionTimeUs(osr: OversamplingRatio): (us: u32)
    ensures 600 <= us <= 9040
  {
    match osr
    case Osr256 => 600
    case Osr512 => 1_170
    case Osr1024 => 2_280
    case Osr2048 => 4_540
    case Osr4096 => 9_040
  }

  /** A higher oversampling ratio always waits strictly longer. */
  lemma ConversionTimeIncreases(a: OversamplingRatio, b: OversamplingRatio)
    requires Rank(a) < Rank(b)
    ensures ConversionTimeUs(a) < ConversionTimeUs(b)
  {
  }

  /** The five ratios have five different command bytes, and no pressure
      command is a temperature command. */
  lemma CommandsDistinct(a: OversamplingRatio, b: OversamplingRatio)
    ensures PressureCommand(a) == PressureCommand(b) <==> a == b
    ensures TemperatureCommand(a) == TemperatureCommand(b) <==> a == b
    ensures PressureCommand(a) != TemperatureCommand(b)
  {
  }

  // ---------------------------------------------------------------------
  // Big-endian assembly of the words clocked out of the sensor

  /** A PROM word: `u16::from_be_bytes([b0, b1])`. */
  function PromWord(b0: u8, b1: u8): (w: u16)
    ensures w / 0x100 == b0 && w % 0x100 == b1
  {
    0x100 * b0 + b1
  }

  /** An ADC result: `u32::from_be_bytes([0, b1, b2, b3])`; the byte clocked
      out while the read command was sent is not an argument at all. */
  function AdcWord(b1: u8, b2: u8, b3: u8): (d: u32)
    ensures d < 0x100_0000
    ensures d / 0x1_0000 == b1 && (d / 0x100) % 0x100 == b2 && d % 0x100 == b3
  {
    PlaceValue(0x100, 0x100 * b1 + b2, b3);
    PlaceValue(0x100, b1, b2);
    PlaceValue(0x1_0000, b1, 0x100 * b2 + b3);
    0x1_0000 * b1 + 0x100 * b2 + b3
  }

  /** `q` and `r` are the quotient and remainder of `base * q + r`. */
  lemma PlaceValue(base: int, q: int, r: int)
    requires base in {0x100, 0x1_0000} && 0 <= r < base
    ensures (base * q + r) / base == q && (base * q + r) % base == r
  {
  }

  /** Splitting a word into its two bytes and assembling them gives it back. */
  lemma PromWordRoundTrip(w: u16)
    ensures PromWord(w / 0x100, w % 0x100) == w
  {
  }

  // ---------------------------------------------------------------------
  // Compensation

  datatype Coefficients = Coefficients(c1: u16, c2: u16, c3: u16, c4: u16, c5: u16, c6: u16)

  const TEMP_REF := 2000    // 20.00 °C: second-order correction below this
  const TEMP_LOW := -1500   // -15.00 °C: extra correction tier below this

  const I32_MIN := -0x8000_0000
  const I32_MAX := 0x7FFF_FFFF
  const I64_MIN := -0x8000_0000_0000_0000
  const I64_MAX := 0x7FFF_FFFF_FFFF_FFFF

  /** Rust's `as i32` on an `i64`: keep the low 32 bits, two's complement. */
  function ToI32(x: int): (r: int)
    ensures I32_MIN <= r <= I32_MAX
    ensures I32_MIN <= x <= I32_MAX ==> r == x
  {
    (x - I32_MIN) % 0x1_0000_0000 + I32_MIN
  }

  /** The first-order terms of the datasheet. */
  datatype FirstOrder = FirstOrder(dT: int, temp: int, off: int, sens: int)

  /** dT = D2 - C5*2^8 and TEMP = 2000 + dT*C6/2^23 (before the `as i32` cast). */
  function DeltaT(c: Coefficients, d2: u32): int { d2 - c.c5 * 0x100 }
  function RawTemp(c: Coefficients, d2: u32): int { 2000 + (DeltaT(c, d2) * c.c6) / 0x80_0000 }

  function FirstOrderTerms(c: Coefficients, d2: u32): FirstOrder
  {
    var dT := DeltaT(c, d2);
    FirstOrder(
      dT,
      ToI32(RawTemp(c, d2)),
      c.c2 * 0x1_0000 + (c.c4 * dT) / 0x80,     // OFF  = C2*2^16 + C4*dT/2^7
      c.c1 * 0x8000 + (c.c3 * dT) / 0x100)      // SENS = C1*2^15 + C3*dT/2^8
  }

  /** The second-order corrections T2, OFF2, SENS2. */
  datatype Corrections = Corrections(t2: int, off2: int, sens2: int)

  /** Corrections for a first-order TEMP and dT: none is negative, and the
      offset and sensitivity corrections are non-zero exactly below 20.00 °C. */
  function SecondOrder(temp: int, dT: int): (k: Corrections)
    ensures k.t2 >= 0 && k.off2 >= 0 && k.sens2 >= 0
    ensures temp >= TEMP_REF ==> k == Corrections(0, 0, 0)
    ensures temp < TEMP_REF ==> k.off2 > 0 && k.sens2 > 0
  {
    if temp < TEMP_REF then
      var sq := (temp - TEMP_REF) * (temp - TEMP_REF);
      var lowSq := (temp - TEMP_LOW) * (temp - TEMP_LOW);
      SquareNonNegative(dT);
      SquareNonNegative(temp - TEMP_LOW);
      SquareNonNegative(temp - TEMP_REF);
      Corrections(
        (dT * dT) / 0x8000_0000,
        5 * sq / 2 + (if temp < TEMP_LOW then 7 * lowSq else 0),
        5 * sq / 4 + (if temp < TEMP_LOW then 11 * lowSq / 2 else 0))
    else
      Corrections(0, 0, 0)
  }

  /** A compensated reading in hundredths: 0.01 °C and 0.01 mbar. */
  datatype Reading = Reading(temperature: int, pressure: int)

  /** `calculate_compensated_values` up to its final conversion to `f32`. */
  function Compensate(c: Coefficients, d1: u32, d2: u32): (r: Reading)
    ensures r.temperature <= FirstOrderTerms(c, d2).temp
  {
    var f := FirstOrderTerms(c, d2);
    var k := SecondOrder(f.temp, f.dT);
    var off := f.off - k.off2;
    var sens := f.sens - k.sens2;
    // P = (D1*SENS/2^21 - OFF)/2^15
    Reading(f.temp - k.t2, ((d1 * sens) / 0x20_0000 - off) / 0x8000)
  }

  /** The colder the first-order temperature, the larger the offset and
      sensitivity corrections. */
  lemma ColderCorrectsMore(t1: int, t2: int, dT: int)
    requires t1 <= t2 < TEMP_REF
    ensures SecondOrder(t1, dT).off2 >= SecondOrder(t2, dT).off2
    ensures SecondOrder(t1, dT).sens2 >= SecondOrder(t2, dT).sens2
  {
    var sq1, sq2 := (t1 - TEMP_REF) * (t1 - TEMP_REF), (t2 - TEMP_REF) * (t2 - TEMP_REF);
    var low1, low2 := (t1 - TEMP_LOW) * (t1 - TEMP_LOW), (t2 - TEMP_LOW) * (t2 - TEMP_LOW);
    SquareGrows(t1 - TEMP_REF, t2 - TEMP_REF);
    DivMono(5 * sq1, 5 * sq2, 2);
    DivMono(5 * sq1, 5 * sq2, 4);
    SquareNonNegative(t1 - TEMP_LOW);
    SquareNonNegative(t2 - TEMP_LOW);
    if t2 < TEMP_LOW {
      SquareGrows(t1 - TEMP_LOW, t2 - TEMP_LOW);
      DivMono(11 * low1, 11 * low2, 2);
    } else if t1 < TEMP_LOW {
      DivMono(11 * low1, 0, 2);
    }
  }

  /** The tier boundaries are strict: exactly 20.00 °C gets no correction,
      and exactly -15.00 °C gets only the first tier; one hundredth lower the
      extra low-temperature terms (7 and 11/2 times the squared distance,
      here 1) appear. */
  lemma TierBoundaries(dT: int)
    ensures SecondOrder(TEMP_REF, dT) == Corrections(0, 0, 0)
    ensures SecondOrder(TEMP_LOW, dT).off2 == 5 * 3500 * 3500 / 2
    ensures SecondOrder(TEMP_LOW, dT).sens2 == 5 * 3500 * 3500 / 4
    ensures SecondOrder(TEMP_LOW - 1, dT).off2 == 5 * 3501 * 3501 / 2 + 7
    ensures SecondOrder(TEMP_LOW - 1, dT).sens2 == 5 * 3501 * 3501 / 4 + 11 / 2
  {
  }

  /** Floor division by a positive constant is monotone. */
  lemma DivMono(a: int, b: int, d: int)
    requires b <= a && 0 < d
    ensures b / d <= a / d
  {
    var qa, qb := a / d, b / d;
    assert a == d * qa + a % d && b == d * qb + b % d;
    assert d * qb - d * qa == d * (qb - qa);
    MulAtLeast(d, qb - qa);
  }

  lemma SquareNonNegative(a: int)
    ensures a * a >= 0
    ensures a != 0 ==> a * a >= 1
  {
    if a < 0 {
      assert a * a == (-a) * (-a);
    }
  }

  lemma SquareGrows(a: int, b: int)
    requires a <= b <= 0
    ensures a * a >= b * b
  {
    assert a * a - b * b == (a - b) * (a + b);
  }

  // ---------------------------------------------------------------------
  // Range analysis

  /** Every value the driver materialises as an `i64` on its way to the
      reading, in the order it computes them. */
  function Intermediates(c: Coefficients, d1: u32, d2: u32): seq<int>
  {
    var f := FirstOrderTerms(c, d2);
    var k := SecondOrder(f.temp, f.dT);
    FirstOrderValues(c, d2) + SecondOrderValues(f.temp, f.dT)
      + PressureValues(d1, f.temp - k.t2, f.off - k.off2, f.sens - k.sens2)
  }

  function FirstOrderValues(c: Coefficients, d2: u32): seq<int>
  {
    var f := FirstOrderTerms(c, d2);
    [ c.c5 * 0x100, f.dT, f.dT * c.c6, RawTemp(c, d2),
      c.c2 * 0x1_0000, c.c4 * f.dT, f.off,
      c.c1 * 0x8000, c.c3 * f.dT, f.sens ]
  }

  function SecondOrderValues(temp: int, dT: int): seq<int>
  {
    var k := SecondOrder(temp, dT);
    var sq := (temp - TEMP_REF) * (temp - TEMP_REF);
    var lowSq := (temp - TEMP_LOW) * (temp - TEMP_LOW);
    [dT * dT, k.t2, sq, 5 * sq, lowSq, 7 * lowSq, 11 * lowSq, k.off2, k.sens2]
  }

  /** The compensated TEMP, OFF and SENS, and the pressure computed from them. */
  function PressureValues(d1: int, temp: int, off: int, sens: int): seq<int>
  {
    [temp, off, sens, d1 * sens, (d1 * sens) / 0x20_0000 - off, ((d1 * sens) / 0x20_0000 - off) / 0x8000]
  }

  predicate InI64(x: int)
  {
    I64_MIN <= x <= I64_MAX
  }

  /** For 24-bit ADC counts (all the sensor can produce) and any 16-bit
      coefficients, no intermediate value leaves the `i64` range and the cast
      of TEMP to `i32` is lossless: the unbounded model is the driver's
      fixed-width arithmetic. The temperature stays within about ±1330 °C. */
  lemma NoOverflow(c: Coefficients, d1: u32, d2: u32)
    requires d1 < 0x100_0000 && d2 < 0x100_0000
    ensures ToI32(RawTemp(c, d2)) == RawTemp(c, d2)
    ensures forall x <- Intermediates(c, d1, d2) :: InI64(x)
    ensures -0x4_0000 <= Compensate(c, d1, d2).temperature <= 0x2_1000
  {
    FirstOrderBounds(c, d2);
    var f := FirstOrderTerms(c, d2);
    var k := SecondOrder(f.temp, f.dT);
    SecondOrderBounds(f.temp, f.dT);
    CorrectionBounds(f.temp, f.dT);
    PressureBounds(d1, f.temp - k.t2, f.off - k.off2, f.sens - k.sens2);
  }

  /** The pressure step for a 24-bit D1 and compensated TEMP, SENS and OFF
      within 2^32, 2^38 and 2^40. */
  lemma PressureBounds(d1: int, temp: int, off: int, sens: int)
    requires 0 <= d1 < 0x100_0000 && -0x1_0000_0000 <= temp <= 0x1_0000_0000
    requires -0x40_0000_0000 <= sens <= 0x40_0000_0000 && -0x100_0000_0000 <= off <= 0x100_0000_0000
    ensures forall x <- PressureValues(d1, temp, off, sens) :: InI64(x)
  {
    MulBound(d1, sens, 0x100_0000, 0x40_0000_0000);
    var p := (d1 * sens) / 0x20_0000 - off;
    assert -0x1_0000_0000_0000 <= p <= 0x1_0000_0000_0000;
  }

  /** The first-order terms for a 24-bit D2 and 16-bit coefficients. */
  lemma FirstOrderBounds(c: Coefficients, d2: u32)
    requires d2 < 0x100_0000
    ensures var f := FirstOrderTerms(c, d2);
      && -0x100_0000 <= f.dT <= 0x100_0000
      && -0x100_0000_0000 <= f.dT * c.c6 <= 0x100_0000_0000
      && -0x2_0000 <= RawTemp(c, d2) - TEMP_REF <= 0x2_0000
      && f.temp == RawTemp(c, d2)
      && -0x100_0000_0000 <= c.c4 * f.dT <= 0x100_0000_0000
      && -0x100_0000_0000 <= c.c3 * f.dT <= 0x100_0000_0000
      && -0x2_0000_0000 <= f.off <= 0x3_0000_0000
      && -0x1_0000_0000 <= f.sens <= 0x2_0000_0000
      && 0 <= f.dT * f.dT <= 0x1_0000_0000_0000
    ensures forall x <- FirstOrderValues(c, d2) :: InI64(x)
  {
    var dT := DeltaT(c, d2);
    MulBound(dT, c.c6, 0x100_0000, 0x1_0000);
    MulBound(c.c4, dT, 0x1_0000, 0x100_0000);
    MulBound(c.c3, dT, 0x1_0000, 0x100_0000);
    MulBound(dT, dT, 0x100_0000, 0x100_0000);
  }

  /** The second-order step stays within `i64` when TEMP is within 2^17 of
      20.00 °C and dT within 2^24. */
  lemma SecondOrderBounds(temp: int, dT: int)
    requires -0x2_0000 <= temp - TEMP_REF <= 0x2_0000
    requires -0x100_0000 <= dT <= 0x100_0000
    ensures forall x <- SecondOrderValues(temp, dT) :: InI64(x)
  {
    CorrectionBounds(temp, dT);
    MulBound(dT, dT, 0x100_0000, 0x100_0000);
    MulBound(temp - TEMP_REF, temp - TEMP_REF, 0x2_0000, 0x2_0000);
    MulBound(temp - TEMP_LOW, temp - TEMP_LOW, 0x4_0000, 0x4_0000);
  }

  /** Bounds on the corrections themselves, under the same conditions. */
  lemma CorrectionBounds(temp: int, dT: int)
    requires -0x2_0000 <= temp - TEMP_REF <= 0x2_0000
    requires -0x100_0000 <= dT <= 0x100_0000
    ensures SecondOrder(temp, dT).t2 <= 0x2_0000
    ensures SecondOrder(temp, dT).off2 <= 0x40_0000_0000
    ensures SecondOrder(temp, dT).sens2 <= 0x20_0000_0000
  {
    if temp < TEMP_REF {
      MulBound(dT, dT, 0x100_0000, 0x100_0000);
      MulBound(temp - TEMP_REF, temp - TEMP_REF, 0x2_0000, 0x2_0000);
      if temp < TEMP_LOW {
        MulBound(temp - TEMP_LOW, temp - TEMP_LOW, 0x2_0000, 0x2_0000);
      }
    }
  }

  lemma MulBound(a: int, b: int, ba: int, bb: int)
    requires 0 <= ba && 0 <= bb
    requires -ba <= a <= ba && -bb <= b <= bb
    ensures -(ba * bb) <= a * b <= ba * bb
  {
    var ua := if a < 0 then -a else a;
    var ub := if b < 0 then -b else b;
    MulMono(ua, ub, ba, bb);
    MulNonNegative(ua, ub);
    assert a * b == ua * ub || a * b == -(ua * ub);
  }

  lemma MulAtLeast(d: int, x: int)
    requires 0 < d
    ensures x >= 1 ==> d * x >= d
  {
    if x >= 1 {
      MulNonNegative(d, x - 1);
      assert d * x == d * (x - 1) + d;
    }
  }

  lemma MulNonNegative(a: int, b: int)
    requires 0 <= a && 0 <= b
    ensures 0 <= a * b
  {
  }

  lemma MulMono(x: int, y: int, mx: int, my: int)
    requires 0 <= x <= mx && 0 <= y <= my
    ensures x * y <= mx * my
  {
    MulNonNegative(mx - x, y);
    assert mx * y - x * y == (mx - x) * y;
    MulNonNegative(mx, my - y);
    assert mx * my - mx * y == mx * (my - y);
  }
}
