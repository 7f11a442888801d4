/**
 * The older GPIO driver for the STM32F411: the same register blocks as the
 * platform driver, programmed with a different mix of clear-and-set and
 * plain OR updates, and per-vector EXTI handlers that acknowledge a line by
 * a read-modify-write of PR.
 */
module GpioLegacy {
  import opened Common
  import opened GpioRegs
  import GpioF4

  /** INTERRUPT_MAX: one slot of m_GpioIrq per EXTI line. */
  const INTERRUPT_MAX := 16

  /** PIN_SPEEDS: the OSPEEDR values. */
  datatype Speed = Low | Medium | Fast | High

  function SpeedCode(s: Speed): (c: word)
    ensures c <= 3
  {
    match s
    case Low => 0
    case Medium => 1
    case Fast => 2
    case High => 3
  }

  /** PIN_CONFIGS as the number shifted into OTYPER. */
  function ConfigCode(c: Config): (v: word)
    ensures v <= 1
  {
    if c == OpenDrain then 1 else 0
  }

  /** The port GpioInit selects from the high nibble `pinName & 0xF0`; `None` is its `assert(0)` branch. */
  function PortOf(code: bv8): Option<PortId>
  {
    var n := code & 0xF0;
    if n == 0x00 then Some(A)
    else if n == 0x10 then Some(B)
    else if n == 0x20 then Some(C)
    else if n == 0x30 then Some(D)
    else if n == 0x40 then Some(E)
    else if n == 0x50 then Some(H)
    else None
  }

  /** Both drivers decode the port of a pin name alike. */
  lemma PortOfAgrees(code: bv8)
    ensures PortOf(code) == GpioF4.GetPort(code)
  {
  }

  /** `pinName & 0x0F`. */
  function PinIndexOf(code: bv8): (pin: word)
    ensures pin < 16
  {
    (code & 0x0F) as word
  }

  /** The EXTICR value GpioSetInterrupt picks from the high nibble; it stays 0 for an unknown nibble. */
  function ExtiValueOf(code: bv8): (v: word)
    ensures v <= 7
  {
    var n := code & 0xF0;
    if n == 0x00 then 0
    else if n == 0x10 then 1
    else if n == 0x20 then 2
    else if n == 0x30 then 3
    else if n == 0x40 then 4
    else if n == 0x50 then 7
    else 0
  }

  /** The EXTICR value is the one the platform driver finds in m_GpioPorts for the same port. */
  lemma ExtiValueAgrees(code: bv8)
    requires PortOf(code).Some?
    ensures ExtiValueOf(code) == GpioF4.ExtiCode(PortOf(code).value)
    ensures ExtiValueOf(code) as nat == GpioF4.ExtiValue(PortOf(code).value)
  {
  }

  /** The interrupt number GpioSetInterrupt enables: EXTI0_IRQn advanced by the pin, or a shared vector. */
  function IrqNumber(pin: word): int
    requires pin < 16
  {
    var irq := GpioF4.EXTI0_IRQN;
    if pin <= 4 then irq + pin as int
    else if pin <= 9 then GpioF4.EXTI9_5_IRQN
    else GpioF4.EXTI15_10_IRQN
  }

  /** Both drivers enable the same vector for a pin, and it is the one whose handler scans the pin's line. */
  lemma IrqNumberAgrees(pin: word)
    requires pin < 16
    ensures IrqNumber(pin) == GpioF4.IrqNumber(pin)
    ensures GpioF4.VectorLines(IrqNumber(pin)).Some?
    ensures GpioF4.VectorLines(IrqNumber(pin)).value.0 <= pin <= GpioF4.VectorLines(IrqNumber(pin)).value.1
  {
    GpioF4.VectorServes(pin, IrqNumber(pin));
  }

  /** Gpio_t: the pin object; the mode, type, speed and config fields GpioInit never writes are left out. */
  class Pin {
    var port: Port?
    var pinName: GpioF4.PinName
    var pinIndex: word
    var irqHandler: Option<CallbackId>

    constructor ()
      ensures port == null && pinName == GpioF4.NC && pinIndex == 0 && irqHandler == None
    {
      port := null;
      pinName := GpioF4.NC;
      pinIndex := 0;
      irqHandler := None;
    }
  }

  /**
   * GpioInit. `port` is the register block the high nibble selects; the
   * `assert(0)` for an unknown nibble becomes a precondition.
   */
  method Init(obj: Pin, name: GpioF4.PinName, mode: Mode, pull: Pull, speed: Speed, config: Config,
              value: word, port: Port)
    requires name.Pin? ==> PortOf(name.code) == Some(port.id)
    modifies obj`pinName, obj`pinIndex, obj`port, port
    ensures name.NC? ==> unchanged(obj) && unchanged(port)
    ensures name.Pin? ==> obj.pinName == name && obj.pinIndex == PinIndexOf(name.code) && obj.port == port
    ensures name.Pin? ==>
      port.View() == Initialised(old(port.View()), PinIndexOf(name.code), mode, pull, speed, config, value)
  {
    if name.NC? {
      return;
    }
    obj.pinName := name;
    obj.pinIndex := PinIndexOf(name.code);
    obj.port := port;
    var pin := obj.pinIndex;
    port.ospeedr := Update2(port.ospeedr, pin, SpeedCode(speed));
    port.pupdr := Update2(port.pupdr, pin, PullCode(pull));
    port.moder := Update2(port.moder, pin, ModeCode(mode));
    Apply(port, pin, mode, config, value);
  }

  /** The AFR, OTYPER and BSRR steps of GpioInit. */
  method Apply(port: Port, pin: word, mode: Mode, config: Config, value: word)
    requires pin < 16
    modifies port`afrl, port`afrh, port`otyper, port`bsrr, port`odr
    ensures port.View() == Applied(old(port.View()), pin, mode, config, value)
  {
    if mode == Alternate {
      OrAlternate(port, pin, value);
    } else if mode == Output {
      port.otyper := OrBit(port.otyper, pin, ConfigCode(config));
      DriveOne(port.odr, pin, value != 0);
      port.WriteBsrr(SetReset(pin, value != 0));
    }
  }

  /** `AFR[0] |= value << (pinIndex * 4)` or `AFR[1] |= value << ((pinIndex % 8) * 4)`. */
  method OrAlternate(port: Port, pin: word, value: word)
    requires pin < 16
    modifies port`afrl, port`afrh
    ensures port.View() == OrAf(old(port.View()), pin, value)
  {
    if pin < 8 {
      port.afrl := OrField(port.afrl, pin, value);
    } else {
      port.afrh := OrField(port.afrh, pin % 8, value);
    }
  }

  /** `reg |= v << 4*k`. */
  function OrField(reg: word, k: word, v: word): word
    requires k < 8
  {
    reg | (v << (4 * k))
  }

  /** `reg |= v << pin`. */
  function OrBit(reg: word, pin: word, v: word): word
    requires pin < 32
  {
    reg | (v << pin)
  }

  /** The register block GpioInit leaves for pin `pin`. */
  function Initialised(r: Regs, pin: word, mode: Mode, pull: Pull, speed: Speed, config: Config, value: word): Regs
    requires pin < 16
  {
    Applied(Configured(r, pin, mode, pull, speed), pin, mode, config, value)
  }

  /** The speed, pull and mode fields cleared and set. */
  function Configured(r: Regs, pin: word, mode: Mode, pull: Pull, speed: Speed): Regs
    requires pin < 16
  {
    r.(ospeedr := Update2(r.ospeedr, pin, SpeedCode(speed)), pupdr := Update2(r.pupdr, pin, PullCode(pull)),
       moder := Update2(r.moder, pin, ModeCode(mode)))
  }

  /** The alternate function OR-ed in, or the output type OR-ed in and the level driven, as the mode says. */
  function Applied(r: Regs, pin: word, mode: Mode, config: Config, value: word): Regs
    requires pin < 16
  {
    if mode == Alternate then OrAf(r, pin, value)
    else if mode == Output then GpioF4.Driven(r.(otyper := OrBit(r.otyper, pin, ConfigCode(config))), pin, value != 0)
    else r
  }

  /** `AFR[pin / 8] |= value << 4*(pin % 8)`: OR-ed in, the old field never cleared. */
  function OrAf(r: Regs, pin: word, value: word): Regs
    requires pin < 16
  {
    if pin < 8 then r.(afrl := OrField(r.afrl, pin, value))
    else r.(afrh := OrField(r.afrh, pin % 8, value))
  }

  /** OR-ing a value into a 4-bit field gives the old field OR the value. */
  lemma OrFieldSame(reg: word, k: word, v: word)
    requires k < 8 && v < 16
    ensures Field4(OrField(reg, k, v), k) == Field4(reg, k) | v
  {
    ShiftOr(reg, v << (4 * k), 4 * k);
    LowOr(reg >> (4 * k), (v << (4 * k)) >> (4 * k));
    ShiftBack(v, k);
  }

  lemma ShiftOr(a: word, b: word, s: word)
    requires s < 32
    ensures (a | b) >> s == (a >> s) | (b >> s)
  {
  }

  lemma LowOr(a: word, b: word)
    ensures (a | b) & 0xF == (a & 0xF) | (b & 0xF)
  {
  }

  lemma ShiftBack(v: word, k: word)
    requires v < 16 && k < 8
    ensures ((v << (4 * k)) >> (4 * k)) & 0xF == v
  {
  }

  lemma Below8(pin: word)
    requires pin < 8
    ensures pin % 8 == pin
  {
  }

  /** OR-ing a value below 16 into a 4-bit field leaves the other fields. */
  lemma OrFieldOther(reg: word, k: word, v: word, q: word)
    requires k < 8 && v < 16 && q < 8 && q != k
    ensures Field4(OrField(reg, k, v), q) == Field4(reg, q)
  {
  }

  /** OR-ing the config into OTYPER sets the bit for open-drain and leaves it for push-pull. */
  lemma OrBitSame(reg: word, pin: word, config: Config)
    requires pin < 16
    ensures Bit(OrBit(reg, pin, ConfigCode(config)), pin) == (Bit(reg, pin) || config == OpenDrain)
  {
    if config == OpenDrain {
      OrSelf(reg, pin);
    } else {
      assert OrBit(reg, pin, 0) == reg;
    }
  }

  lemma OrBitOther(reg: word, pin: word, v: word, q: word)
    requires pin < 16 && v <= 1 && q < 16 && q != pin
    ensures Bit(OrBit(reg, pin, v), q) == Bit(reg, q)
  {
  }

  /** GpioInit sets the pin's speed, pull and mode fields, whatever the mode. */
  lemma InitSetsFields(r: Regs, pin: word, mode: Mode, pull: Pull, speed: Speed, config: Config, value: word)
    requires pin < 16
    ensures
      var n := Initialised(r, pin, mode, pull, speed, config, value);
      Field2(n.ospeedr, pin) == SpeedCode(speed) && Field2(n.pupdr, pin) == PullCode(pull) &&
      Field2(n.moder, pin) == ModeCode(mode) && n.idr == r.idr
  {
    AppliedKeeps(Configured(r, pin, mode, pull, speed), pin, mode, config, value);
  }

  /** The last step of GpioInit touches neither the speed, pull and mode fields nor IDR. */
  lemma AppliedKeeps(r: Regs, pin: word, mode: Mode, config: Config, value: word)
    requires pin < 16
    ensures
      var n := Applied(r, pin, mode, config, value);
      n.ospeedr == r.ospeedr && n.pupdr == r.pupdr && n.moder == r.moder && n.idr == r.idr
  {
    if mode == Alternate {
      OrAfKeeps(r, pin, value);
    } else if mode == Output {
      OutputParts(r, pin, config, value);
    }
  }

  /**
   * An alternate-function pin ends with the old field OR the value, which is
   * the value itself only when the field was clear; OTYPER and the output
   * are left.
   */
  lemma InitAlternate(r: Regs, pin: word, pull: Pull, speed: Speed, config: Config, value: word)
    requires pin < 16 && value < 16
    ensures
      var n := Initialised(r, pin, Alternate, pull, speed, config, value);
      GpioF4.AfField(n, pin) == GpioF4.AfField(r, pin) | value &&
      n.odr == r.odr && n.bsrr == r.bsrr && n.otyper == r.otyper
  {
    var c := Configured(r, pin, Alternate, pull, speed);
    SameAf(c, r, pin);
    OrAfKeeps(c, pin, value);
    OrAfField(c, pin, value);
  }

  /** An output pin is driven to the requested level, and marked open-drain if asked; push-pull keeps the old type. */
  lemma InitOutput(r: Regs, pin: word, pull: Pull, speed: Speed, config: Config, value: word)
    requires pin < 16
    ensures
      var n := Initialised(r, pin, Output, pull, speed, config, value);
      Bit(n.odr, pin) == (value != 0) && n.bsrr == SetReset(pin, value != 0) &&
      Bit(n.otyper, pin) == (Bit(r.otyper, pin) || config == OpenDrain)
  {
    var c := Configured(r, pin, Output, pull, speed);
    OutputParts(c, pin, config, value);
    TypeBit(r.otyper, Applied(c, pin, Output, config, value).otyper, pin, config);
  }

  /** An input or analog pin keeps its alternate function, output type and output. */
  lemma InitPlain(r: Regs, pin: word, mode: Mode, pull: Pull, speed: Speed, config: Config, value: word)
    requires pin < 16 && (mode == Input || mode == Analog)
    ensures
      var n := Initialised(r, pin, mode, pull, speed, config, value);
      n.afrl == r.afrl && n.afrh == r.afrh && n.odr == r.odr && n.bsrr == r.bsrr && n.otyper == r.otyper
  {
  }

  lemma SameAf(a: Regs, b: Regs, pin: word)
    requires pin < 16 && a.afrl == b.afrl && a.afrh == b.afrh
    ensures GpioF4.AfField(a, pin) == GpioF4.AfField(b, pin)
  {
  }

  /** OR-ing an alternate function in touches only AFR. */
  lemma OrAfKeeps(r: Regs, pin: word, value: word)
    requires pin < 16
    ensures OrAf(r, pin, value).(afrl := r.afrl, afrh := r.afrh) == r
  {
  }

  /** OR-ing an alternate function in ORs it into the pin's field. */
  lemma OrAfField(r: Regs, pin: word, value: word)
    requires pin < 16 && value < 16
    ensures GpioF4.AfField(OrAf(r, pin, value), pin) == GpioF4.AfField(r, pin) | value
  {
    var n := OrAf(r, pin, value);
    if pin < 8 {
      Below8(pin);
      assert GpioF4.AfField(n, pin) == Field4(OrField(r.afrl, pin, value), pin);
      assert GpioF4.AfField(r, pin) == Field4(r.afrl, pin);
      OrFieldSame(r.afrl, pin, value);
    } else {
      assert GpioF4.AfField(n, pin) == Field4(OrField(r.afrh, pin % 8, value), pin % 8);
      assert GpioF4.AfField(r, pin) == Field4(r.afrh, pin % 8);
      OrFieldSame(r.afrh, pin % 8, value);
    }
  }

  lemma TypeBit(otyper: word, n: word, pin: word, config: Config)
    requires pin < 16 && n == OrBit(otyper, pin, ConfigCode(config))
    ensures Bit(n, pin) == (Bit(otyper, pin) || config == OpenDrain)
  {
    OrBitSame(otyper, pin, config);
  }

  /** The output branch as OR-ed OTYPER and a driven level. */
  lemma OutputParts(r: Regs, pin: word, config: Config, value: word)
    requires pin < 16
    ensures
      var n := Applied(r, pin, Output, config, value);
      n.(otyper := r.otyper, odr := r.odr, bsrr := r.bsrr) == r &&
      Bit(n.odr, pin) == (value != 0) && n.bsrr == SetReset(pin, value != 0) &&
      n.otyper == OrBit(r.otyper, pin, ConfigCode(config))
  {
    var t := r.(otyper := OrBit(r.otyper, pin, ConfigCode(config)));
    GpioF4.DrivenKeeps(t, pin, value != 0);
  }

  /** GpioInit leaves every other pin's fields as they were, for an alternate function below 16. */
  lemma InitKeepsOthers(r: Regs, pin: word, mode: Mode, pull: Pull, speed: Speed, config: Config,
                        value: word, q: word)
    requires pin < 16 && q < 16 && q != pin
    requires mode == Alternate ==> value < 16
    ensures
      var n := Initialised(r, pin, mode, pull, speed, config, value);
      Field2(n.ospeedr, q) == Field2(r.ospeedr, q) && Field2(n.pupdr, q) == Field2(r.pupdr, q) &&
      Field2(n.moder, q) == Field2(r.moder, q)
    ensures
      var n := Initialised(r, pin, mode, pull, speed, config, value);
      Bit(n.otyper, q) == Bit(r.otyper, q) && Bit(n.odr, q) == Bit(r.odr, q) &&
      GpioF4.AfField(n, q) == GpioF4.AfField(r, q)
  {
    var c := Configured(r, pin, mode, pull, speed);
    Update2Other(r.ospeedr, pin, SpeedCode(speed), q);
    Update2Other(r.pupdr, pin, PullCode(pull), q);
    Update2Other(r.moder, pin, ModeCode(mode), q);
    AppliedKeeps(c, pin, mode, config, value);
    AppliedKeepsOthers(c, pin, mode, config, value, q);
  }

  lemma AppliedKeepsOthers(r: Regs, pin: word, mode: Mode, config: Config, value: word, q: word)
    requires pin < 16 && q < 16 && q != pin
    requires mode == Alternate ==> value < 16
    ensures
      var n := Applied(r, pin, mode, config, value);
      Bit(n.otyper, q) == Bit(r.otyper, q) && Bit(n.odr, q) == Bit(r.odr, q) &&
      GpioF4.AfField(n, q) == GpioF4.AfField(r, q)
  {
    if mode == Alternate {
      OrAfKeeps(r, pin, value);
      OrAfOther(r, pin, value, q);
    } else if mode == Output {
      OutputParts(r, pin, config, value);
      OutputOther(r, pin, config, value, q);
    }
  }

  lemma OrAfOther(r: Regs, pin: word, value: word, q: word)
    requires pin < 16 && value < 16 && q < 16 && q != pin
    ensures GpioF4.AfField(OrAf(r, pin, value), q) == GpioF4.AfField(r, q)
  {
    var n := OrAf(r, pin, value);
    if pin < 8 {
      assert n.afrh == r.afrh;
      if q < 8 {
        OrFieldOther(r.afrl, pin, value, q);
      }
    } else {
      assert n.afrl == r.afrl;
      if q >= 8 {
        OrFieldOther(r.afrh, pin % 8, value, q % 8);
      }
    }
  }

  lemma OutputOther(r: Regs, pin: word, config: Config, value: word, q: word)
    requires pin < 16 && q < 16 && q != pin
    ensures
      var n := Applied(r, pin, Output, config, value);
      Bit(n.otyper, q) == Bit(r.otyper, q) && Bit(n.odr, q) == Bit(r.odr, q)
  {
    var t := r.(otyper := OrBit(r.otyper, pin, ConfigCode(config)));
    OrBitOther(r.otyper, pin, ConfigCode(config), q);
    GpioF4.DrivenKeeps(t, pin, value != 0);
    UpdateBitOther(t.odr, pin, value != 0, q);
  }

  /**
   * The alternate function of a pin that already had one is mixed with the
   * new one: AF1 re-initialised as AF2 selects AF3.
   */
  lemma AfMixes(r: Regs)
    requires r.afrl == 1
    ensures GpioF4.AfField(Initialised(r, 0, Alternate, NoPull, Low, PushPull, 2), 0) == 3
    ensures GpioF4.AfField(GpioF4.WithAf(r, 0, 2), 0) == 2
  {
    InitAlternate(r, 0, NoPull, Low, PushPull, 2);
    assert GpioF4.AfField(r, 0) == 1;
  }

  /** An open-drain pin re-initialised as a push-pull output stays open-drain. */
  lemma TypeSticks(r: Regs, pin: word)
    requires pin < 16 && Bit(r.otyper, pin)
    ensures Bit(Initialised(r, pin, Output, NoPull, Low, PushPull, 1).otyper, pin)
    ensures !Bit(GpioF4.Configured(r, pin, Output, NoPull, GpioF4.Low, PushPull).otyper, pin)
  {
    InitOutput(r, pin, NoPull, Low, PushPull, 1);
  }

  /** GpioWrite: nothing for PIN_NC, otherwise BS for a non-zero value and BR for zero. */
  method Write(obj: Pin, value: word)
    requires obj.pinName.Pin? ==> obj.port != null && obj.pinIndex < 16
    modifies obj.port
    ensures obj.pinName.NC? && obj.port != null ==> unchanged(obj.port)
    ensures obj.pinName.Pin? ==> obj.port.View() == GpioF4.Driven(old(obj.port.View()), obj.pinIndex, value != 0)
  {
    if obj.pinName.NC? {
      return;
    }
    DriveOne(obj.port.odr, obj.pinIndex, value != 0);
    obj.port.WriteBsrr(SetReset(obj.pinIndex, value != 0));
  }

  /** The uint16_t cast of `uint16_t value = IDR`. */
  function LowHalf(idr: word): word
  {
    idr & 0xFFFF
  }

  /** The cast keeps every pin's bit. */
  lemma LowHalfBit(idr: word, pin: word)
    requires pin < 16
    ensures Masked(LowHalf(idr), pin) != 0 <==> Bit(idr, pin)
  {
  }

  /** GpioRead: IDR cut to its low 16 bits, masked by the pin's bit; 1 when that bit is set. */
  method Read(obj: Pin) returns (value: word)
    requires obj.port != null && obj.pinIndex < 16
    ensures value == if Bit(obj.port.idr, obj.pinIndex) then 1 else 0
  {
    var pin := obj.pinIndex;
    var v := LowHalf(obj.port.idr);
    v := Masked(v, pin);
    LowHalfBit(obj.port.idr, pin);
    value := if v != 0 then 1 else 0;
  }

  /** GpioToggle: BR when the ODR bit is set, BS otherwise. */
  method Toggle(obj: Pin)
    requires obj.port != null && obj.pinIndex < 16
    modifies obj.port
    ensures obj.port.View() == GpioF4.Driven(old(obj.port.View()), obj.pinIndex, !Bit(old(obj.port.odr), obj.pinIndex))
  {
    var port := obj.port;
    var pin := obj.pinIndex;
    var high := !Bit(port.odr, pin);
    DriveOne(port.odr, pin, high);
    port.WriteBsrr(SetReset(pin, high));
  }

  /** Whether an object in `table` already uses line `pin`. */
  ghost predicate Taken(table: seq<Pin?>, pin: word)
    reads table
  {
    exists i :: 0 <= i < |table| && table[i] != null && table[i].pinIndex == pin
  }

  /** The duplicate scan of GpioSetInterrupt. */
  method Scan(table: array<Pin?>, pin: word) returns (found: bool)
    ensures found <==> Taken(table[..], pin)
  {
    for i := 0 to table.Length
      invariant forall j :: 0 <= j < i ==> !(table[j] != null && table[j].pinIndex == pin)
    {
      if table[i] != null && table[i].pinIndex == pin {
        assert table[..][i] == table[i];
        return true;
      }
    }
    found := false;
    forall j | 0 <= j < table.Length
      ensures !(table[..][j] != null && table[..][j].pinIndex == pin)
    {
      assert table[..][j] == table[j];
    }
  }

  /** A read-modify-write of PR writes back a one for every pending line, so it clears them all. */
  lemma OrAckClearsAll(pr: word, w: word)
    ensures pr & !(pr | w) == 0
  {
  }

  /** `EXTI->PR |= 1 << i`. */
  method OrAck(exti: Exti, i: word)
    requires i < 32
    modifies exti`pr
    ensures exti.pr == 0
  {
    OrAckClearsAll(exti.pr, 1 << i);
    exti.WritePr(exti.pr | (1 << i));
  }

  /** The EXTI registers after GpioSetInterrupt: unmasked, edges OR-ed in, and PR cleared by the pending check. */
  function Armed(e: ExtiRegs, pin: word, mode: GpioF4.IrqMode, pending: bool): ExtiRegs
    requires pin < 16
  {
    ExtiRegs(SetBit(e.imr, pin),
             if mode == GpioF4.Falling then e.rtsr else SetBit(e.rtsr, pin),
             if mode == GpioF4.Rising then e.ftsr else SetBit(e.ftsr, pin),
             if pending then 0 else e.pr)
  }

  /** The `switch (irqMode)`: the default branch, taken for PIN_IRQ_NO too, arms both edges. */
  method SetEdges(exti: Exti, pin: word, mode: GpioF4.IrqMode)
    requires pin < 16
    modifies exti`rtsr, exti`ftsr
    ensures exti.rtsr == if mode == GpioF4.Falling then old(exti.rtsr) else SetBit(old(exti.rtsr), pin)
    ensures exti.ftsr == if mode == GpioF4.Rising then old(exti.ftsr) else SetBit(old(exti.ftsr), pin)
  {
    match mode
    case Rising =>
      exti.rtsr := SetBit(exti.rtsr, pin);
    case Falling =>
      exti.ftsr := SetBit(exti.ftsr, pin);
    case _ =>
      exti.rtsr := SetBit(exti.rtsr, pin);
      exti.ftsr := SetBit(exti.ftsr, pin);
  }

  /** IMR, the edges and the pending check of GpioSetInterrupt. */
  method Arm(exti: Exti, pin: word, mode: GpioF4.IrqMode, pending: bool)
    requires pin < 16
    modifies exti
    ensures exti.View() == Armed(old(exti.View()), pin, mode, pending)
  {
    exti.imr := SetBit(exti.imr, pin);
    SetEdges(exti, pin, mode);
    if pending {
      OrAck(exti, pin);
    }
  }

  /** An EXTI table slot as the handlers see it: no object, or an object and its handler. */
  datatype Slot = Free | Used(handler: Option<CallbackId>)

  function SlotOf(p: Pin?): Slot
    reads p
  {
    if p == null then Free else Used(p.irqHandler)
  }

  /** The slots of m_GpioIrq. */
  ghost function Slots(table: array<Pin?>): (ss: seq<Slot>)
    reads table, table[..]
    ensures |ss| == table.Length
    ensures forall k :: 0 <= k < table.Length ==> ss[k] == SlotOf(table[k])
  {
    seq(table.Length, k requires 0 <= k < table.Length reads table, table[..] => SlotOf(table[k]))
  }

  /** What an EXTI handler call leaves: PR, the handlers run in order, and whether it dereferenced NULL. */
  datatype Run = Run(pr: word, fired: seq<CallbackId>, fault: bool)

  /**
   * The lines [i, last] of a legacy EXTI handler. A pending line is
   * acknowledged by `PR |= mask`, which clears every pending line; a free
   * slot is then dereferenced, which faults; otherwise its handler, if any,
   * runs.
   */
  function LegacyRun(pr: word, ss: seq<Slot>, i: word, last: word): Run
    requires last < 16 && |ss| == INTERRUPT_MAX
    decreases last + 1 - i
  {
    if i > last then Run(pr, [], false)
    else if !Bit(pr, i) then LegacyRun(pr, ss, i + 1, last)
    else if ss[i].Free? then Run(0, [], true)
    else
      var rest := LegacyRun(0, ss, i + 1, last);
      Run(rest.pr, Calls(ss[i].handler) + rest.fired, rest.fault)
  }

  function Calls(h: Option<CallbackId>): (c: seq<CallbackId>)
    ensures |c| <= 1 && (h.Some? ==> c == [h.value])
  {
    if h.Some? then [h.value] else []
  }

  /** `fired`, done already, ahead of what the rest of the call does. */
  function After(fired: seq<CallbackId>, r: Run): Run
  {
    r.(fired := fired + r.fired)
  }

  lemma {:induction false} NothingPending(ss: seq<Slot>, i: word, last: word)
    requires last < 16 && |ss| == INTERRUPT_MAX
    ensures LegacyRun(0, ss, i, last) == Run(0, [], false)
    decreases last + 1 - i
  {
    if i <= last {
      assert !Bit(0, i);
      NothingPending(ss, i + 1, last);
    }
  }

  /**
   * A legacy EXTI handler call runs at most one handler, that of the lowest
   * pending line, and leaves either PR untouched (nothing pending in range)
   * or nothing pending at all.
   */
  lemma {:induction false} AtMostOne(pr: word, ss: seq<Slot>, i: word, last: word)
    requires last < 16 && |ss| == INTERRUPT_MAX
    ensures |LegacyRun(pr, ss, i, last).fired| <= 1
    ensures LegacyRun(pr, ss, i, last).pr == pr || LegacyRun(pr, ss, i, last).pr == 0
    decreases last + 1 - i
  {
    if i <= last {
      if !Bit(pr, i) {
        AtMostOne(pr, ss, i + 1, last);
      } else if ss[i].Used? {
        NothingPending(ss, i + 1, last);
      }
    }
  }

  /** With lines 5 and 6 pending, EXTI9_5_IRQHandler runs the handler of line 5 only. */
  lemma LostLine(h5: CallbackId, h6: CallbackId, ss: seq<Slot>, hs: seq<Option<CallbackId>>)
    requires |ss| == INTERRUPT_MAX && ss[5] == Used(Some(h5)) && ss[6] == Used(Some(h6))
    requires |hs| == GpioF4.IRQ_MAX && hs[5] == Some(h5) && hs[6] == Some(h6)
    requires forall k :: 7 <= k < 10 ==> hs[k] == None
    ensures LegacyRun(0x60, ss, 5, 9).fired == [h5]
    ensures GpioF4.Wanted(0x60, hs, 5, 9) == [h5, h6]
  {
    assert Bit(0x60, 5) && Bit(0x60, 6);
    assert !Bit(0x60, 7) && !Bit(0x60, 8) && !Bit(0x60, 9);
    NothingPending(ss, 6, 9);
    assert hs[7] == None && hs[8] == None && hs[9] == None;
  }

  /** The state of the legacy driver: m_GpioIrq, the EXTI and SYSCFG blocks and the handler calls made. */
  class Interrupts {
    /** m_GpioIrq. */
    const table: array<Pin?>
    const exti: Exti
    const syscfg: Syscfg
    /** Every handler call, in order. */
    var calls: seq<CallbackId>

    ghost predicate Valid()
      reads this, syscfg
    {
      table.Length == INTERRUPT_MAX && syscfg.Valid()
    }

    constructor ()
      ensures Valid() && calls == []
      ensures forall k :: 0 <= k < table.Length ==> table[k] == null
    {
      table := new Pin?[INTERRUPT_MAX](_ => null);
      exti := new Exti();
      syscfg := new Syscfg();
      calls := [];
    }

    /**
     * GpioSetInterrupt. PIN_NC and a line some object already uses return at
     * once; otherwise the object takes the handler, the line is routed,
     * unmasked and armed, the object is stored in its slot, and the vector
     * to enable is returned. `pending` is what NVIC_GetPendingIRQ reports;
     * the NVIC calls themselves are outside this model.
     */
    method SetInterrupt(obj: Pin, mode: GpioF4.IrqMode, handler: CallbackId, pending: bool)
      returns (enabled: Option<int>)
      requires Valid() && (obj.pinName.Pin? ==> obj.pinIndex < 16)
      modifies obj`irqHandler, table, exti, syscfg
      ensures Valid()
      ensures obj.pinName.NC? || old(Taken(table[..], obj.pinIndex)) ==>
        enabled == None && obj.irqHandler == old(obj.irqHandler) && table[..] == old(table[..]) &&
        exti.View() == old(exti.View()) && syscfg.exticr == old(syscfg.exticr)
      ensures obj.pinName.Pin? && !old(Taken(table[..], obj.pinIndex)) ==>
        var pin := obj.pinIndex;
        enabled == Some(IrqNumber(pin)) && obj.irqHandler == Some(handler) &&
        table[..] == old(table[..])[pin as int := obj] &&
        syscfg.exticr == Routed(old(syscfg.exticr), pin, ExtiValueOf(obj.pinName.code)) &&
        exti.View() == Armed(old(exti.View()), pin, mode, pending)
    {
      if obj.pinName.NC? {
        return None;
      }
      var taken := Scan(table, obj.pinIndex);
      if taken {
        return None;
      }
      enabled := Register(obj, mode, handler, pending);
    }

    /** GpioSetInterrupt past the early returns. */
    method Register(obj: Pin, mode: GpioF4.IrqMode, handler: CallbackId, pending: bool)
      returns (enabled: Option<int>)
      requires Valid() && obj.pinName.Pin? && obj.pinIndex < 16
      modifies obj`irqHandler, table, exti, syscfg
      ensures Valid()
      ensures
        var pin := obj.pinIndex;
        enabled == Some(IrqNumber(pin)) && obj.irqHandler == Some(handler) &&
        table[..] == old(table[..])[pin as int := obj] &&
        syscfg.exticr == Routed(old(syscfg.exticr), pin, ExtiValueOf(obj.pinName.code)) &&
        exti.View() == Armed(old(exti.View()), pin, mode, pending)
    {
      var pin, code := obj.pinIndex, obj.pinName.code;
      Wire(pin, ExtiValueOf(code), mode, pending);
      table[pin] := obj;
      obj.irqHandler := Some(handler);
      enabled := Some(IrqNumber(pin));
    }

    /** The EXTICR route and the EXTI set-up of GpioSetInterrupt. */
    method Wire(pin: word, value: word, mode: GpioF4.IrqMode, pending: bool)
      requires Valid() && pin < 16 && value < 16
      modifies exti, syscfg
      ensures Valid()
      ensures syscfg.exticr == Routed(old(syscfg.exticr), pin, value)
      ensures exti.View() == Armed(old(exti.View()), pin, mode, pending)
    {
      syscfg.Route(pin, value);
      Arm(exti, pin, mode, pending);
    }

    /**
     * EXTI0_IRQHandler .. EXTI15_10_IRQHandler: the lines of vector `irq`, as
     * the handler scans them; `fault` reports a dereference of an empty slot.
     */
    method Vector(irq: int) returns (fault: bool)
      requires Valid() && GpioF4.VectorLines(irq).Some?
      modifies this`calls, exti`pr
      ensures
        var (first, last) := GpioF4.VectorLines(irq).value;
        Run(exti.pr, calls, fault) == After(old(calls), LegacyRun(old(exti.pr), old(Slots(table)), first, last))
    {
      GpioF4.VectorRange(irq);
      var (first, last) := GpioF4.VectorLines(irq).value;
      var fired;
      fired, fault := Lines(table, exti, first, last);
      calls := calls + fired;
    }
  }

  /** The loop of a legacy EXTI handler over the lines [first, last]. */
  method Lines(table: array<Pin?>, exti: Exti, first: word, last: word) returns (fired: seq<CallbackId>, fault: bool)
    requires table.Length == INTERRUPT_MAX && last < 16
    modifies exti`pr
    ensures Run(exti.pr, fired, fault) == LegacyRun(old(exti.pr), old(Slots(table)), first, last)
  {
    ghost var ss := Slots(table);
    ghost var total := LegacyRun(exti.pr, ss, first, last);
    fired := [];
    fault := false;
    var i := first;
    while i <= last
      invariant After(fired, LegacyRun(exti.pr, ss, i, last)) == total
      decreases 16 - i
    {
      ghost var pr := exti.pr;
      if Bit(exti.pr, i) {
        OrAck(exti, i);
        assert ss[i] == SlotOf(table[i]);
        if table[i] == null {
          fault := true;
          return;
        }
        var h := Calls(table[i].irqHandler);
        Shift(fired, h, LegacyRun(0, ss, i + 1, last));
        fired := fired + h;
      }
      i := i + 1;
    }
  }

  lemma Shift(fired: seq<CallbackId>, h: seq<CallbackId>, r: Run)
    ensures After(fired, r.(fired := h + r.fired)) == After(fired + h, r)
  {
    assert fired + (h + r.fired) == (fired + h) + r.fired;
  }
}
