/**
 * Clock arithmetic of the two STM32F4 I2C engines: the APB1 clock derived
 * from RCC_CFGR, the FREQ field of CR2, the CCR divider and the TRISE value.
 * Register layouts follow the STM32F411 reference manual RM0383 (section
 * 6.3.3 for RCC_CFGR, sections 18.6.2, 18.6.8 and 18.6.9 for CR2, CCR and
 * TRISE).
 */
module I2cClock {
  import opened Arith

  const HSI_HZ: nat := 16000000
  const HSE_HZ: nat := 8000000
  const AHB_PRESCALERS: seq<nat> := [2, 4, 8, 16, 64, 128, 256, 512]
  const APB1_PRESCALERS: seq<nat> := [2, 4, 8, 16]

  /** RCC_CFGR_SWS: the system clock switch status, bits 3:2. */
  const SWS_MASK: bv32 := 0xC
  const SWS_HSI: bv32 := 0x0
  const SWS_HSE: bv32 := 0x4
  const SWS_PLL: bv32 := 0x8

  /** I2C_CR2_FREQ and I2C_CCR_CCR, FS and DUTY. */
  const CR2_FREQ: bv32 := 0x3F
  const CCR_CCR: bv32 := 0xFFF
  const CCR_DUTY: bv32 := 0x4000
  const CCR_FS: bv32 := 0x8000

  /** The two bus speeds of I2C_SPEED. */
  datatype SpeedMode = Standard | Fast

  function AhbCode(cfgr: bv32): (code: nat)
    ensures code < 16
  {
    ((cfgr >> 4) & 0xF) as nat
  }

  function Apb1Code(cfgr: bv32): (code: nat)
    ensures code < 8
  {
    ((cfgr >> 10) & 0x7) as nat
  }

  predicate IsPowerOfTwo(d: nat)
  {
    d == 1 || (d > 1 && d % 2 == 0 && IsPowerOfTwo(d / 2))
  }

  /** HPRE: codes below 8 do not divide, codes 8 to 15 divide by 2 to 512 (there is no 32). */
  function AhbDivisor(code: nat): (d: nat)
    requires code < 16
    ensures IsPowerOfTwo(d)
    ensures (d == 1) <==> code < 8
  {
    if code < 8 then 1 else AHB_PRESCALERS[code - 8]
  }

  /** PPRE1: codes below 4 do not divide, codes 4 to 7 divide by 2 to 16. */
  function Apb1Divisor(code: nat): (d: nat)
    requires code < 8
    ensures IsPowerOfTwo(d)
    ensures (d == 1) <==> code < 4
  {
    if code < 4 then 1 else APB1_PRESCALERS[code - 4]
  }

  /** The system clock of the queued engine's RCC_GetPCLK1Value; its PLL query returns 0. */
  function SystemClock(cfgr: bv32): (hz: nat)
    requires cfgr & SWS_MASK != SWS_MASK
    ensures hz <= HSI_HZ
  {
    var sws := cfgr & SWS_MASK;
    if sws == SWS_HSI then HSI_HZ else if sws == SWS_HSE then HSE_HZ else 0
  }

  /**
   * RCC_GetPCLK1Value: the system clock divided by the AHB divisor and then
   * by the APB1 divisor, which is one division by their product.
   */
  function Pclk1(cfgr: bv32): (hz: nat)
    requires cfgr & SWS_MASK != SWS_MASK
    ensures hz == SystemClock(cfgr) / (AhbDivisor(AhbCode(cfgr)) * Apb1Divisor(Apb1Code(cfgr)))
    ensures hz <= SystemClock(cfgr)
  {
    DivideTwice(SystemClock(cfgr), AhbDivisor(AhbCode(cfgr)), Apb1Divisor(Apb1Code(cfgr)))
  }

  /** x divided by `a` and the quotient by `b`, as the prescaler chain does. */
  function DivideTwice(x: nat, a: nat, b: nat): (r: nat)
    requires a > 0 && b > 0
    ensures r == x / (a * b) && r <= x
  {
    DivDiv(x, a, b);
    DivNoLarger(x, a * b);
    (x / a) / b
  }

  /**
   * I2C_Frequency: the FREQ field of CR2 receives PCLK1 in whole MHz masked
   * to its six bits; the assignment clears every other CR2 bit, the interrupt
   * enables among them.
   */
  function FrequencyField(pclk: nat): (freq: nat)
    ensures freq < 64
  {
    (pclk / 1000000) % 64
  }

  /** The factor the bus speed is multiplied by before dividing PCLK1 in I2C_Clock. */
  function SpeedFactor(mode: SpeedMode, duty: bool): (k: nat)
    ensures k > 0
  {
    match mode
    case Standard => 2
    case Fast => if duty then 25 else 3
  }

  /** The smallest CCR I2C_Clock programs before masking. */
  function MinCcr(mode: SpeedMode): nat
  {
    if mode == Standard then 4 else 1
  }

  /**
   * I2C_Clock: PCLK1 / (factor * speed), raised to the mode's minimum, then
   * masked to the CCR field. `speed` is the numeric value of the speed
   * enumerator, which the code divides by.
   */
  function CcrValue(pclk: nat, mode: SpeedMode, speed: nat, duty: bool): (ccr: nat)
    requires speed > 0
    ensures ccr < 4096
  {
    var raw := pclk / (SpeedFactor(mode, duty) * speed);
    var clamped := if raw < MinCcr(mode) then MinCcr(mode) else raw;
    clamped % 4096
  }

  /**
   * When neither the minimum nor the mask intervenes, CCR is the largest
   * value whose SCL period factor * CCR PCLK1 cycles is no longer than the
   * requested bus period: the bus never runs slower than `speed`, and one
   * more would make it slower.
   */
  lemma {:induction false} CcrIsLargestFastEnough(pclk: nat, mode: SpeedMode, speed: nat, duty: bool)
    requires speed > 0
    requires MinCcr(mode) <= pclk / (SpeedFactor(mode, duty) * speed) < 4096
    ensures var ccr := CcrValue(pclk, mode, speed, duty);
            var k := SpeedFactor(mode, duty);
            ccr * (k * speed) <= pclk < (ccr + 1) * (k * speed)
  {
    var k := SpeedFactor(mode, duty);
    var q := pclk / (k * speed);
    assert CcrValue(pclk, mode, speed, duty) == q;
    assert pclk == q * (k * speed) + pclk % (k * speed);
  }

  /** The CCR register: the 12-bit divider, the FS (fast mode) bit and the DUTY bit. */
  datatype Ccr = Ccr(ccr: nat, fs: bool, duty: bool)

  /** CCR after I2C_Init's calls to I2C_Clock (which assigns), I2C_Mode and I2C_Duty (which set or clear one bit). */
  function InitCcr(pclk: nat, mode: SpeedMode, speed: nat, duty: bool): (r: Ccr)
    requires speed > 0
    ensures r.ccr < 4096
    ensures r.fs <==> mode == Fast
    ensures r.duty == duty
  {
    Ccr(CcrValue(pclk, mode, speed, duty), mode == Fast, duty)
  }

  /** I2C_RiseTime of the queued engine. */
  function RiseTime(pclk: nat, mode: SpeedMode): (trise: nat)
    ensures trise >= 1
    ensures mode == Fast ==> trise <= 63
  {
    var mhz := pclk / 1000000;
    match mode
    case Standard => mhz + 1
    case Fast => var t := (mhz * 300) / 1000 + 1; if t > 63 then 63 else t
  }

  /**
   * TRISE is one more than the maximum rise time counted in PCLK1 periods:
   * 1000 ns in standard mode, 300 ns in fast mode (rounded down), unless the
   * fast-mode cap of 63 applies.
   */
  lemma {:induction false} RiseTimeCoversMaxRise(pclk: nat, mode: SpeedMode)
    ensures var mhz := pclk / 1000000;
            var t := RiseTime(pclk, mode);
            match mode
            case Standard => (t - 1) == mhz
            case Fast => t == 63 || ((t - 1) * 1000 <= mhz * 300 < t * 1000)
  {
    var mhz := pclk / 1000000;
    if mode == Fast {
      var q := (mhz * 300) / 1000;
      assert mhz * 300 == q * 1000 + (mhz * 300) % 1000;
      assert (q + 1) * 1000 == q * 1000 + 1000;
    }
  }

  /**
   * RCC_GetFrequency of the single-transaction engine: PCLK1 in whole MHz,
   * truncated to its uint8_t return type. Its PLL query has no return value,
   * so the PLL clock is an input here.
   */
  function FrequencyMHz(cfgr: bv32, pllClock: nat): (mhz: nat)
    requires ((cfgr >> 2) & 0x3) != 0x3
    ensures mhz < 256
  {
    var source := (cfgr >> 2) & 0x3;
    var sys := if source == 0 then HSI_HZ else if source == 1 then HSE_HZ else pllClock;
    var pclk1 := DivideTwice(sys, AhbDivisor(AhbCode(cfgr)), Apb1Divisor(Apb1Code(cfgr)));
    (pclk1 / 1000000) % 256
  }

  /** I2C_RiseTime of the single-transaction engine: (RCC_GetFrequency() + 1) & 0x3F. */
  function RiseTimeSingle(mhz: nat): (trise: nat)
    requires mhz < 256
    ensures trise < 64
  {
    (mhz + 1) % 64
  }

  /**
   * The rise time the single-transaction engine writes is (PCLK1 in MHz + 1)
   * modulo 64: the uint8_t truncation of RCC_GetFrequency does not change it.
   */
  lemma {:induction false} RiseTimeSingleIgnoresTruncation(cfgr: bv32, pllClock: nat)
    requires ((cfgr >> 2) & 0x3) != 0x3
    ensures var source := (cfgr >> 2) & 0x3;
            var sys := if source == 0 then HSI_HZ else if source == 1 then HSE_HZ else pllClock;
            var pclk1 := sys / (AhbDivisor(AhbCode(cfgr)) * Apb1Divisor(Apb1Code(cfgr)));
            RiseTimeSingle(FrequencyMHz(cfgr, pllClock)) == (pclk1 / 1000000 + 1) % 64
  {
    var source := (cfgr >> 2) & 0x3;
    var sys := if source == 0 then HSI_HZ else if source == 1 then HSE_HZ else pllClock;
    var a, b := AhbDivisor(AhbCode(cfgr)), Apb1Divisor(Apb1Code(cfgr));
    var m := DivideTwice(sys, a, b) / 1000000;
    var k := m / 256;
    assert m == k * 256 + m % 256;
    MulAssoc(k, 4, 64);
    assert m + 1 == (m % 256 + 1) + (k * 4) * 64;
    ModAddMultiple(m % 256 + 1, k * 4, 64);
  }
}
