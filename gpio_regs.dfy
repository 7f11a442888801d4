/**
 * The STM32F411 GPIO, EXTI and SYSCFG register blocks both GPIO drivers
 * program, and the read-modify-write field arithmetic they use on them.
 */
module GpioRegs {
  /** A 32-bit peripheral register. */
  type word = bv32

  /** The GPIO ports of the STM32F411. */
  datatype PortId = A | B | C | D | E | H

  /** PIN_MODES: the MODER field values. */
  datatype Mode = Input | Output | Alternate | Analog

  function ModeCode(m: Mode): (c: word)
    ensures c <= 3
  {
    match m
    case Input => 0
    case Output => 1
    case Alternate => 2
    case Analog => 3
  }

  /** PIN_TYPES: the PUPDR field values. */
  datatype Pull = NoPull | PullUp | PullDown

  function PullCode(p: Pull): (c: word)
    ensures c <= 2
  {
    match p
    case NoPull => 0
    case PullUp => 1
    case PullDown => 2
  }

  /** PIN_CONFIGS: the OTYPER bit values. */
  datatype Config = PushPull | OpenDrain

  /** The 2-bit field of pin `pin` (MODER, OSPEEDR, PUPDR). */
  function Field2(reg: word, pin: word): word
    requires pin < 16
  {
    (reg >> (2 * pin)) & 3
  }

  /** The 4-bit field number `k` of an AFR register or of an EXTICR register. */
  function Field4(reg: word, k: word): word
    requires k < 8
  {
    (reg >> (4 * k)) & 0xF
  }

  /** Bit `i` of a register. */
  predicate Bit(reg: word, i: word)
    requires i < 32
  {
    reg & (1 << i) != 0
  }

  /** `reg &= ~(3 << 2*pin); reg |= v << 2*pin`: the pin's field becomes `v`. */
  function Update2(reg: word, pin: word, v: word): (r: word)
    requires pin < 16 && v <= 3
    ensures Field2(r, pin) == v
  {
    (reg & !(3 << (2 * pin))) | (v << (2 * pin))
  }

  lemma Update2Other(reg: word, pin: word, v: word, q: word)
    requires pin < 16 && v <= 3 && q < 16 && q != pin
    ensures Field2(Update2(reg, pin, v), q) == Field2(reg, q)
  {
  }

  /** The fields of the other pins keep their values. */
  lemma Update2Others(reg: word, pin: word, v: word)
    requires pin < 16 && v <= 3
    ensures forall q: word :: q < 16 && q != pin ==> Field2(Update2(reg, pin, v), q) == Field2(reg, q)
  {
    forall q: word | q < 16 && q != pin
      ensures Field2(Update2(reg, pin, v), q) == Field2(reg, q)
    {
      Update2Other(reg, pin, v, q);
    }
  }

  /** `reg &= ~(0xF << 4*k); reg |= v << 4*k`: field `k` becomes `v`. */
  function Update4(reg: word, k: word, v: word): (r: word)
    requires k < 8 && v < 16
    ensures Field4(r, k) == v
  {
    (reg & !(0xF << (4 * k))) | (v << (4 * k))
  }

  lemma Update4Other(reg: word, k: word, v: word, q: word)
    requires k < 8 && v < 16 && q < 8 && q != k
    ensures Field4(Update4(reg, k, v), q) == Field4(reg, q)
  {
  }

  /** The other 4-bit fields keep their values. */
  lemma Update4Others(reg: word, k: word, v: word)
    requires k < 8 && v < 16
    ensures forall q: word :: q < 8 && q != k ==> Field4(Update4(reg, k, v), q) == Field4(reg, q)
  {
    forall q: word | q < 8 && q != k
      ensures Field4(Update4(reg, k, v), q) == Field4(reg, q)
    {
      Update4Other(reg, k, v, q);
    }
  }

  /** `reg |= 1 << i`. */
  function SetBit(reg: word, i: word): word
    requires i < 32
  {
    reg | (1 << i)
  }

  /** `reg & (1 << i)`: the register with every bit but `i` masked off. */
  function Masked(reg: word, i: word): word
    requires i < 32
  {
    reg & (1 << i)
  }

  lemma AndTwice(reg: word, i: word)
    requires i < 32
    ensures (reg & (1 << i)) & (1 << i) == reg & (1 << i)
  {
  }

  /** Masking twice is masking once. */
  lemma MaskedTwice(reg: word, i: word)
    requires i < 32
    ensures Masked(Masked(reg, i), i) == Masked(reg, i)
  {
    AndTwice(reg, i);
  }

  /** `reg &= ~(1 << i)`. */
  function ClearBit(reg: word, i: word): word
    requires i < 32
  {
    reg & !(1 << i)
  }

  lemma OrSelf(reg: word, i: word)
    requires i < 32
    ensures Bit(reg | (1 << i), i)
  {
  }

  lemma AndNotSelf(reg: word, i: word)
    requires i < 32
    ensures !Bit(reg & !(1 << i), i)
  {
  }

  /** `reg &= ~(1 << i)`, then `reg |= 1 << i` when `on`: bit `i` ends equal to `on`. */
  function UpdateBit(reg: word, i: word, on: bool): (r: word)
    requires i < 32
    ensures Bit(r, i) == on
  {
    AndNotSelf(reg, i);
    OrSelf(ClearBit(reg, i), i);
    if on then SetBit(ClearBit(reg, i), i) else ClearBit(reg, i)
  }

  lemma OrOther(reg: word, i: word, q: word)
    requires i < 32 && q < 32 && q != i
    ensures Bit(reg | (1 << i), q) == Bit(reg, q)
  {
  }

  lemma AndNotOther(reg: word, i: word, q: word)
    requires i < 32 && q < 32 && q != i
    ensures Bit(reg & !(1 << i), q) == Bit(reg, q)
  {
  }

  lemma SetOther(reg: word, i: word, q: word)
    requires i < 32 && q < 32 && q != i
    ensures Bit(SetBit(reg, i), q) == Bit(reg, q)
  {
    OrOther(reg, i, q);
  }

  lemma ClearOther(reg: word, i: word, q: word)
    requires i < 32 && q < 32 && q != i
    ensures Bit(ClearBit(reg, i), q) == Bit(reg, q)
  {
    AndNotOther(reg, i, q);
  }

  lemma UpdateBitOther(reg: word, i: word, on: bool, q: word)
    requires i < 32 && q < 32 && q != i
    ensures Bit(UpdateBit(reg, i, on), q) == Bit(reg, q)
  {
    ClearOther(reg, i, q);
    if on {
      SetOther(ClearBit(reg, i), i, q);
    }
  }

  lemma AndNotUnset(reg: word, i: word)
    requires i < 32 && reg & (1 << i) == 0
    ensures reg & !(1 << i) == reg
  {
  }

  /** Writing the one-bit mask of line `i` to PR clears that line. */
  lemma AckOne(pr: word, i: word)
    requires i < 32
    ensures pr & !(1 << i) == ClearBit(pr, i)
  {
  }

  /** Clearing a bit that is not set changes nothing. */
  lemma ClearUnset(reg: word, i: word)
    requires i < 32 && !Bit(reg, i)
    ensures ClearBit(reg, i) == reg
  {
    AndNotUnset(reg, i);
  }

  /** The other bits keep their values. */
  lemma UpdateBitOthers(reg: word, i: word, on: bool)
    requires i < 32
    ensures forall q: word :: q < 32 && q != i ==> Bit(UpdateBit(reg, i, on), q) == Bit(reg, q)
  {
    forall q: word | q < 32 && q != i
      ensures Bit(UpdateBit(reg, i, on), q) == Bit(reg, q)
    {
      UpdateBitOther(reg, i, on, q);
    }
  }

  /**
   * The effect of a BSRR write on ODR (RM0383, the STM32F411 reference
   * manual, section 8.4.7): bits 16..31 reset the matching output bits,
   * bits 0..15 set them, and a set wins over a reset of the same bit.
   */
  function Drive(odr: word, w: word): word
  {
    (odr & !(w >> 16)) | (w & 0xFFFF)
  }

  /** The BSRR word that drives pin `pin` high (BS) or low (BR). */
  function SetReset(pin: word, high: bool): (w: word)
    requires pin < 16
  {
    if high then 1 << pin else 1 << (pin + 16)
  }

  /** Writing the set or reset bit of one pin drives that pin's output bit and no other. */
  lemma DriveOne(odr: word, pin: word, high: bool)
    requires pin < 16
    ensures Drive(odr, SetReset(pin, high)) == UpdateBit(odr, pin, high)
  {
  }

  /** The contents of one port's register block. */
  datatype Regs = Regs(moder: word, otyper: word, ospeedr: word, pupdr: word, idr: word,
                       odr: word, bsrr: word, afrl: word, afrh: word)

  /** GPIO_TypeDef: one port's register block. */
  class Port {
    const id: PortId
    var moder: word
    var otyper: word
    var ospeedr: word
    var pupdr: word
    /** IDR: driven by the pins. */
    var idr: word
    var odr: word
    /** The last word written to BSRR, which reads back as zero on the chip. */
    var bsrr: word
    /** AFR[0], pins 0..7. */
    var afrl: word
    /** AFR[1], pins 8..15. */
    var afrh: word

    constructor (id: PortId)
      ensures this.id == id
    {
      this.id := id;
    }

    /** All registers of the block at once. */
    function View(): Regs
      reads this
    {
      Regs(moder, otyper, ospeedr, pupdr, idr, odr, bsrr, afrl, afrh)
    }

    /** A write to BSRR and its effect on ODR. */
    method WriteBsrr(w: word)
      modifies this`bsrr, this`odr
      ensures View() == old(View()).(bsrr := w, odr := Drive(old(odr), w))
    {
      bsrr := w;
      odr := Drive(odr, w);
    }
  }

  /** The contents of the EXTI registers GPIO uses: IMR, RTSR, FTSR and PR. */
  datatype ExtiRegs = ExtiRegs(imr: word, rtsr: word, ftsr: word, pr: word)

  /** EXTI: the external interrupt controller. */
  class Exti {
    var imr: word
    var rtsr: word
    var ftsr: word
    /** PR: a one written to a bit clears that pending bit, a zero leaves it. */
    var pr: word

    constructor ()
    {
    }

    /** All registers of the controller at once. */
    function View(): ExtiRegs
      reads this
    {
      ExtiRegs(imr, rtsr, ftsr, pr)
    }

    /** A write to PR (rc_w1). */
    method WritePr(w: word)
      modifies this`pr
      ensures pr == old(pr) & !w
    {
      pr := pr & !w;
    }

    /** `EXTI->PR = 1 << i`: line `i` is no longer pending, the others are left. */
    method Ack(i: word)
      requires i < 32
      modifies this`pr
      ensures pr == ClearBit(old(pr), i)
    {
      AckOne(pr, i);
      WritePr(1 << i);
    }
  }

  /** EXTICR with line `pin` routed to port value `port`. */
  function Routed(exticr: seq<word>, pin: word, port: word): seq<word>
    requires |exticr| == 4 && pin < 16 && port < 16
  {
    exticr[pin / 4 := Update4(exticr[pin / 4], pin % 4, port)]
  }

  /** SYSCFG: EXTICR[0..3] route each EXTI line to a port. */
  class Syscfg {
    var exticr: seq<word>

    ghost predicate Valid()
      reads this
    {
      |exticr| == 4
    }

    constructor ()
      ensures Valid()
    {
      exticr := [0, 0, 0, 0];
    }

    /** `EXTICR[pin/4] &= ~(0xF << 4*(pin%4)); EXTICR[pin/4] |= port << 4*(pin%4)`. */
    method Route(pin: word, port: word)
      requires Valid() && pin < 16 && port < 16
      modifies this
      ensures Valid()
      ensures exticr == Routed(old(exticr), pin, port)
    {
      var reg := pin / 4;
      exticr := exticr[reg := Update4(exticr[reg], pin % 4, port)];
    }
  }

  /** The line an EXTICR field routes: line `pin` is field `pin % 4` of EXTICR[pin / 4]. */
  function RoutedPort(exticr: seq<word>, pin: word): word
    requires |exticr| == 4 && pin < 16
  {
    Field4(exticr[pin / 4], pin % 4)
  }

  /** A route changes exactly the routed line. */
  lemma RouteOne(exticr: seq<word>, pin: word, port: word, q: word)
    requires |exticr| == 4 && pin < 16 && port < 16 && q < 16
    ensures RoutedPort(Routed(exticr, pin, port), q) == if q == pin then port else RoutedPort(exticr, q)
  {
    if q / 4 == pin / 4 {
      if q != pin {
        assert q % 4 != pin % 4;
        Update4Other(exticr[pin / 4], pin % 4, port, q % 4);
      }
    }
  }
}
