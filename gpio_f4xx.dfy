/**
 * The STM32F4xx GPIO driver: pin-name decoding, read-modify-write updates of
 * the pin's register fields, EXTI line routing and the interrupt table that
 * admits one handle per EXTI line.
 */
module GpioF4 {
  import opened Common
  import opened GpioRegs

  /** GPIO_IRQ_MAX: one table slot per EXTI line. */
  const IRQ_MAX := 16
  /** GPIO_PORT_MAX. */
  const PORT_MAX := 8

  /** PIN_STRENGTH: the OSPEEDR values. */
  datatype Strength = Low | Medium | High

  function StrengthCode(s: Strength): (c: word)
    ensures c <= 2
  {
    match s
    case Low => 0
    case Medium => 1
    case High => 2
  }

  /** PIN_IRQ_MODES. */
  datatype IrqMode = IrqNone | Rising | Falling | Both

  /** A pin name: PIN_NC, or a code whose high nibble names the port and whose low nibble is the pin. */
  datatype PinName = NC | Pin(code: bv8)

  /** GpioGetPort: port nibble 0..4 is A..E, 5 is H, anything else has no port. */
  function GetPort(code: bv8): Option<PortId>
  {
    var port := (code >> 4) & 0x0F;
    if port == 0 then Some(A)
    else if port == 1 then Some(B)
    else if port == 2 then Some(C)
    else if port == 3 then Some(D)
    else if port == 4 then Some(E)
    else if port == 5 then Some(H)
    else None
  }

  /** GpioGetPinIndex. */
  function GetPinIndex(code: bv8): (pin: word)
    ensures pin < 16
  {
    (code & 0x0F) as word
  }

  /** The port nibble a pin name carries for each port. */
  function PortNibble(p: PortId): (n: bv8)
    ensures n <= 5
  {
    match p
    case A => 0
    case B => 1
    case C => 2
    case D => 3
    case E => 4
    case H => 5
  }

  /** Decoding a pin name gives back the port and the pin it was built from. */
  lemma NameRoundTrip(p: PortId, pin: bv8)
    requires pin < 16
    ensures GetPort((PortNibble(p) << 4) | pin) == Some(p)
    ensures GetPinIndex((PortNibble(p) << 4) | pin) == pin as word
  {
  }

  /** Exactly the codes with a port nibble above 5 have no port. */
  lemma NoPort(code: bv8)
    ensures GetPort(code).None? <==> code >> 4 > 5
  {
  }

  /** m_GpioPorts: the EXTICR value of each port is its index here. */
  const PORTS: seq<Option<PortId>> := [Some(A), Some(B), Some(C), Some(D), Some(E), None, None, Some(H)]

  /** GpioGetExtiLine: the index of the port in m_GpioPorts. */
  method GetExtiLine(port: PortId) returns (line: nat)
    ensures line < PORT_MAX && PORTS[line] == Some(port)
    ensures forall j :: 0 <= j < line ==> PORTS[j] != Some(port)
  {
    ExtiValueListed(port);
    for i := 0 to PORT_MAX
      invariant forall j :: 0 <= j < i ==> PORTS[j] != Some(port)
      invariant i <= ExtiValue(port)
    {
      if PORTS[i] == Some(port) {
        return i;
      }
    }
    assert false;
  }

  /** The EXTICR value of each port: its nibble in a pin name, except H, which is 7 and not 5. */
  function ExtiValue(port: PortId): nat
  {
    match port
    case A => 0
    case B => 1
    case C => 2
    case D => 3
    case E => 4
    case H => 7
  }

  lemma ExtiValueListed(port: PortId)
    ensures ExtiValue(port) < PORT_MAX && PORTS[ExtiValue(port)] == Some(port)
  {
  }

  /** m_GpioPorts lists each port once: its EXTICR value is the only index that holds it. */
  lemma ExtiLineOf(port: PortId, line: nat)
    requires line < PORT_MAX && PORTS[line] == Some(port)
    ensures line == ExtiValue(port)
    ensures port != H ==> line == PortNibble(port) as nat
    ensures line as word == ExtiCode(port)
  {
  }

  /** The CMSIS interrupt numbers of the EXTI vectors (stm32f411xe.h). */
  const EXTI0_IRQN := 6
  const EXTI9_5_IRQN := 23
  const EXTI15_10_IRQN := 40

  /** GpioGetIrqNumber. */
  function IrqNumber(pin: word): int
    requires pin < 16
  {
    if pin <= 4 then EXTI0_IRQN + pin as int
    else if pin <= 9 then EXTI9_5_IRQN
    else EXTI15_10_IRQN
  }

  /** The lines each EXTI vector's handler scans: EXTI0_IRQHandler .. EXTI15_10_IRQHandler. */
  function VectorLines(irq: int): Option<(word, word)>
  {
    if EXTI0_IRQN <= irq <= EXTI0_IRQN + 4 then Some(((irq - EXTI0_IRQN) as word, (irq - EXTI0_IRQN) as word))
    else if irq == EXTI9_5_IRQN then Some((5, 9))
    else if irq == EXTI15_10_IRQN then Some((10, 15))
    else None
  }

  /** Each vector scans a non-empty range of EXTI lines. */
  lemma VectorRange(irq: int)
    requires VectorLines(irq).Some?
    ensures VectorLines(irq).value.0 <= VectorLines(irq).value.1 < 16
  {
  }

  /** The vector a pin's interrupt is enabled on is the one whose handler scans that pin's line. */
  lemma VectorServes(pin: word, irq: int)
    requires pin < 16 && VectorLines(irq).Some?
    ensures VectorLines(irq).value.0 <= pin <= VectorLines(irq).value.1 <==> IrqNumber(pin) == irq
  {
  }

  /** GpioSetSpeed. */
  method SetSpeed(port: Port, pin: word, strength: Strength)
    requires pin < 16
    modifies port`ospeedr
    ensures port.View() == old(port.View()).(ospeedr := Update2(old(port.ospeedr), pin, StrengthCode(strength)))
  {
    port.ospeedr := Update2(port.ospeedr, pin, StrengthCode(strength));
  }

  /** GpioSetPull. */
  method SetPull(port: Port, pin: word, pull: Pull)
    requires pin < 16
    modifies port`pupdr
    ensures port.View() == old(port.View()).(pupdr := Update2(old(port.pupdr), pin, PullCode(pull)))
  {
    port.pupdr := Update2(port.pupdr, pin, PullCode(pull));
  }

  /** GpioSetMode. */
  method SetMode(port: Port, pin: word, mode: Mode)
    requires pin < 16
    modifies port`moder
    ensures port.View() == old(port.View()).(moder := Update2(old(port.moder), pin, ModeCode(mode)))
  {
    port.moder := Update2(port.moder, pin, ModeCode(mode));
  }

  /** GpioSetState: BR for low, BS for high; the value must be PIN_STATE_LOW or PIN_STATE_HIGH. */
  method SetState(port: Port, pin: word, value: word)
    requires pin < 16 && (value == 0 || value == 1)
    modifies port`bsrr, port`odr
    ensures port.View() == Driven(old(port.View()), pin, value == 1)
  {
    if value == 0 {
      port.WriteBsrr(SetReset(pin, false));
    } else if value == 1 {
      port.WriteBsrr(SetReset(pin, true));
    }
    DriveOne(old(port.odr), pin, value == 1);
  }

  /** The register block after the BSRR write that drives pin `pin` high or low. */
  function Driven(r: Regs, pin: word, high: bool): Regs
    requires pin < 16
  {
    r.(bsrr := SetReset(pin, high), odr := UpdateBit(r.odr, pin, high))
  }

  /** GpioSetAlternateFunction: the pin's 4-bit field of AFR[0] (pins 0..7) or AFR[1] (pins 8..15). */
  method SetAlternateFunction(port: Port, pin: word, af: word)
    requires pin < 16 && af < 16
    modifies port`afrl, port`afrh
    ensures port.View() == WithAf(old(port.View()), pin, af)
  {
    LowNibble(af);
    if pin < 8 {
      port.afrl := Update4(port.afrl, pin % 8, af & 0x0F);
    } else {
      port.afrh := Update4(port.afrh, pin % 8, af & 0x0F);
    }
  }

  /** The alternate function selected for pin `pin`: its field of AFR[0] or AFR[1]. */
  function AfField(r: Regs, pin: word): word
    requires pin < 16
  {
    Field4(if pin < 8 then r.afrl else r.afrh, pin % 8)
  }

  /** The register block with alternate function `af` selected for pin `pin`. */
  function WithAf(r: Regs, pin: word, af: word): Regs
    requires pin < 16 && af < 16
  {
    if pin < 8 then r.(afrl := Update4(r.afrl, pin % 8, af)) else r.(afrh := Update4(r.afrh, pin % 8, af))
  }

  lemma LowNibble(af: word)
    requires af < 16
    ensures af & 0x0F == af
  {
  }

  /** GpioSetEdge: both edge bits of the line cleared, then the ones the mode asks for set. */
  method SetEdge(exti: Exti, mode: IrqMode, pin: word)
    requires pin < 16 && mode != IrqNone
    modifies exti`rtsr, exti`ftsr
    ensures exti.rtsr == UpdateBit(old(exti.rtsr), pin, mode == Rising || mode == Both)
    ensures exti.ftsr == UpdateBit(old(exti.ftsr), pin, mode == Falling || mode == Both)
  {
    exti.rtsr := ClearBit(exti.rtsr, pin);
    exti.ftsr := ClearBit(exti.ftsr, pin);
    match mode
    case Rising =>
      exti.rtsr := SetBit(exti.rtsr, pin);
    case Falling =>
      exti.ftsr := SetBit(exti.ftsr, pin);
    case Both =>
      exti.rtsr := SetBit(exti.rtsr, pin);
      exti.ftsr := SetBit(exti.ftsr, pin);
  }

  /** OTYPER in GpioInit: the bit cleared (push-pull), then set again for open-drain. */
  method SetOutputType(port: Port, pin: word, config: Config)
    requires pin < 16
    modifies port`otyper
    ensures port.View() == old(port.View()).(otyper := UpdateBit(old(port.otyper), pin, config == OpenDrain))
  {
    port.otyper := ClearBit(port.otyper, pin);
    if config == OpenDrain {
      port.otyper := SetBit(port.otyper, pin);
    }
  }

  /** GpioHandle_t, its stm32f411 part: the port's register block and the pin index. */
  class Handle {
    var irqHandler: Option<CallbackId>
    var port: Port?
    var pinIndex: word

    constructor ()
      ensures irqHandler == None && port == null && pinIndex == 0
    {
      irqHandler := None;
      port := null;
      pinIndex := 0;
    }
  }

  /** The handler registered for a table entry: none for an empty slot. */
  function HandlerOf(h: Handle?): Option<CallbackId>
    reads h
  {
    if h == null then None else h.irqHandler
  }

  /**
   * GpioInit. `port` is the register block at the address GpioGetPort
   * returns; the assertions of GpioInit, GpioSetAlternateFunction and
   * GpioSetState become preconditions.
   */
  method Init(handle: Handle, name: PinName, mode: Mode, pull: Pull, strength: Strength,
              config: Config, value: word, port: Port)
    requires name.Pin? ==> GetPort(name.code) == Some(port.id)
    requires name.Pin? && mode == Alternate ==> value < 16
    requires name.Pin? && mode == Output ==> value <= 1
    modifies handle`port, handle`pinIndex, port
    ensures name.NC? ==> unchanged(handle) && unchanged(port)
    ensures name.Pin? ==> handle.port == port && handle.pinIndex == GetPinIndex(name.code)
    ensures name.Pin? ==>
      port.View() == Initialised(old(port.View()), GetPinIndex(name.code), mode, pull, strength, config, value)
  {
    if name.NC? {
      return;
    }
    var pin := GetPinIndex(name.code);
    handle.port := port;
    handle.pinIndex := pin;
    Configure(port, pin, mode, pull, strength, config);
    Apply(port, pin, mode, value);
  }

  /** The register block GpioInit leaves for pin `pin`. */
  function Initialised(r: Regs, pin: word, mode: Mode, pull: Pull, strength: Strength,
                       config: Config, value: word): Regs
    requires pin < 16
    requires mode == Alternate ==> value < 16
    requires mode == Output ==> value <= 1
  {
    Applied(Configured(r, pin, mode, pull, strength, config), pin, mode, value)
  }

  /** The speed, pull, mode and output-type fields of the pin set. */
  function Configured(r: Regs, pin: word, mode: Mode, pull: Pull, strength: Strength, config: Config): Regs
    requires pin < 16
  {
    r.(ospeedr := Update2(r.ospeedr, pin, StrengthCode(strength)), pupdr := Update2(r.pupdr, pin, PullCode(pull)),
       moder := Update2(r.moder, pin, ModeCode(mode)), otyper := UpdateBit(r.otyper, pin, config == OpenDrain))
  }

  /** The alternate function selected, or the output driven, or nothing, as the mode says. */
  function Applied(r: Regs, pin: word, mode: Mode, value: word): Regs
    requires pin < 16
    requires mode == Alternate ==> value < 16
    requires mode == Output ==> value <= 1
  {
    if mode == Alternate then WithAf(r, pin, value)
    else if mode == Output then Driven(r, pin, value == 1)
    else r
  }

  /** The speed, pull, mode and output-type steps of GpioInit. */
  method Configure(port: Port, pin: word, mode: Mode, pull: Pull, strength: Strength, config: Config)
    requires pin < 16
    modifies port`ospeedr, port`pupdr, port`moder, port`otyper
    ensures port.View() == Configured(old(port.View()), pin, mode, pull, strength, config)
  {
    SetSpeed(port, pin, strength);
    SetPull(port, pin, pull);
    SetMode(port, pin, mode);
    SetOutputType(port, pin, config);
  }

  /** The last step of GpioInit: the alternate function, or the initial output level. */
  method Apply(port: Port, pin: word, mode: Mode, value: word)
    requires pin < 16
    requires mode == Alternate ==> value < 16
    requires mode == Output ==> value <= 1
    modifies port`afrl, port`afrh, port`bsrr, port`odr
    ensures port.View() == Applied(old(port.View()), pin, mode, value)
  {
    if mode == Alternate {
      SetAlternateFunction(port, pin, value);
      return;
    }
    if mode == Output {
      SetState(port, pin, value);
    }
  }

  /** GpioInit leaves the pin's speed, pull, mode, output type, alternate function and level as asked. */
  lemma InitSetsPin(r: Regs, pin: word, mode: Mode, pull: Pull, strength: Strength, config: Config, value: word)
    requires pin < 16
    requires mode == Alternate ==> value < 16
    requires mode == Output ==> value <= 1
    ensures
      var n := Initialised(r, pin, mode, pull, strength, config, value);
      Field2(n.ospeedr, pin) == StrengthCode(strength) && Field2(n.pupdr, pin) == PullCode(pull) &&
      Field2(n.moder, pin) == ModeCode(mode) && Bit(n.otyper, pin) == (config == OpenDrain)
    ensures
      var n := Initialised(r, pin, mode, pull, strength, config, value);
      (mode == Alternate ==> AfField(n, pin) == value) &&
      (mode == Output ==> Bit(n.odr, pin) == (value == 1) && n.bsrr == SetReset(pin, value == 1)) &&
      (mode != Output ==> n.odr == r.odr && n.bsrr == r.bsrr) &&
      n.idr == r.idr
  {
    var c := Configured(r, pin, mode, pull, strength, config);
    AppliedKeeps(c, pin, mode, value);
    AppliedSetsPin(c, pin, mode, value);
  }

  /** The last step of GpioInit touches only AFR, BSRR and ODR. */
  lemma AppliedKeeps(r: Regs, pin: word, mode: Mode, value: word)
    requires pin < 16
    requires mode == Alternate ==> value < 16
    requires mode == Output ==> value <= 1
    ensures
      var n := Applied(r, pin, mode, value);
      n.ospeedr == r.ospeedr && n.pupdr == r.pupdr && n.moder == r.moder && n.otyper == r.otyper && n.idr == r.idr
  {
    if mode == Alternate {
      WithAfKeeps(r, pin, value);
    } else if mode == Output {
      DrivenKeeps(r, pin, value == 1);
    }
  }

  lemma WithAfKeeps(r: Regs, pin: word, af: word)
    requires pin < 16 && af < 16
    ensures WithAf(r, pin, af).(afrl := r.afrl, afrh := r.afrh) == r
  {
  }

  /** Selecting an alternate function for one pin keeps every other pin's selection. */
  lemma WithAfOther(r: Regs, pin: word, af: word, q: word)
    requires pin < 16 && af < 16 && q < 16 && q != pin
    ensures
      var n := WithAf(r, pin, af);
      AfField(n, q) == AfField(r, q)
  {
    var n := WithAf(r, pin, af);
    if pin < 8 {
      assert n.afrh == r.afrh;
      if q < 8 {
        Update4Other(r.afrl, pin % 8, af, q % 8);
      }
    } else {
      assert n.afrl == r.afrl;
      if q >= 8 {
        Update4Other(r.afrh, pin % 8, af, q % 8);
      }
    }
  }

  lemma DrivenKeeps(r: Regs, pin: word, high: bool)
    requires pin < 16
    ensures Driven(r, pin, high).(odr := r.odr, bsrr := r.bsrr) == r
  {
  }

  lemma AppliedSetsPin(r: Regs, pin: word, mode: Mode, value: word)
    requires pin < 16
    requires mode == Alternate ==> value < 16
    requires mode == Output ==> value <= 1
    ensures
      var n := Applied(r, pin, mode, value);
      (mode == Alternate ==> AfField(n, pin) == value) &&
      (mode == Output ==> Bit(n.odr, pin) == (value == 1) && n.bsrr == SetReset(pin, value == 1)) &&
      (mode != Output ==> n.odr == r.odr && n.bsrr == r.bsrr)
  {
  }

  /** GpioInit leaves every other pin's fields as they were. */
  lemma InitKeepsOthers(r: Regs, pin: word, mode: Mode, pull: Pull, strength: Strength, config: Config,
                        value: word, q: word)
    requires pin < 16 && q < 16 && q != pin
    requires mode == Alternate ==> value < 16
    requires mode == Output ==> value <= 1
    ensures
      var n := Initialised(r, pin, mode, pull, strength, config, value);
      Field2(n.ospeedr, q) == Field2(r.ospeedr, q) && Field2(n.pupdr, q) == Field2(r.pupdr, q) &&
      Field2(n.moder, q) == Field2(r.moder, q) && Bit(n.otyper, q) == Bit(r.otyper, q)
    ensures
      var n := Initialised(r, pin, mode, pull, strength, config, value);
      Bit(n.odr, q) == Bit(r.odr, q) &&
      AfField(n, q) == AfField(r, q)
  {
    var c := Configured(r, pin, mode, pull, strength, config);
    AppliedKeeps(c, pin, mode, value);
    ConfiguredKeepsOthers(r, pin, mode, pull, strength, config, q);
    AppliedKeepsOthers(c, pin, mode, value, q);
  }

  lemma ConfiguredKeepsOthers(r: Regs, pin: word, mode: Mode, pull: Pull, strength: Strength, config: Config, q: word)
    requires pin < 16 && q < 16 && q != pin
    ensures
      var n := Configured(r, pin, mode, pull, strength, config);
      Field2(n.ospeedr, q) == Field2(r.ospeedr, q) && Field2(n.pupdr, q) == Field2(r.pupdr, q) &&
      Field2(n.moder, q) == Field2(r.moder, q) && Bit(n.otyper, q) == Bit(r.otyper, q) &&
      n.odr == r.odr && n.afrl == r.afrl && n.afrh == r.afrh
  {
    Update2Other(r.ospeedr, pin, StrengthCode(strength), q);
    Update2Other(r.pupdr, pin, PullCode(pull), q);
    Update2Other(r.moder, pin, ModeCode(mode), q);
    UpdateBitOther(r.otyper, pin, config == OpenDrain, q);
  }

  lemma AppliedKeepsOthers(r: Regs, pin: word, mode: Mode, value: word, q: word)
    requires pin < 16 && q < 16 && q != pin
    requires mode == Alternate ==> value < 16
    requires mode == Output ==> value <= 1
    ensures
      var n := Applied(r, pin, mode, value);
      Bit(n.odr, q) == Bit(r.odr, q) &&
      AfField(n, q) == AfField(r, q)
  {
    if mode == Output {
      DrivenKeeps(r, pin, value == 1);
      UpdateBitOther(r.odr, pin, value == 1, q);
    } else if mode == Alternate {
      WithAfKeeps(r, pin, value);
      WithAfOther(r, pin, value, q);
    }
  }

  /** GpioWrite. */
  method Write(handle: Handle, state: word)
    requires handle.port != null && handle.pinIndex < 16 && (state == 0 || state == 1)
    modifies handle.port`bsrr, handle.port`odr
    ensures handle.port.View() == Driven(old(handle.port.View()), handle.pinIndex, state == 1)
  {
    SetState(handle.port, handle.pinIndex, state);
  }

  /** GpioRead: 1 when the pin's IDR bit is set, 0 otherwise; the uint16_t cast keeps the bit, as `pin < 16`. */
  method Read(handle: Handle) returns (value: word)
    requires handle.port != null && handle.pinIndex < 16
    ensures value == if Bit(handle.port.idr, handle.pinIndex) then 1 else 0
  {
    var pin := handle.pinIndex;
    var v := Masked(handle.port.idr, pin);
    MaskedTwice(handle.port.idr, pin);
    v := Masked(v, pin);
    value := if v != 0 then 1 else 0;
  }

  /** GpioToggle: the level read from ODR decides which of BR and BS is written. */
  method Toggle(handle: Handle)
    requires handle.port != null && handle.pinIndex < 16
    modifies handle.port`bsrr, handle.port`odr
    ensures handle.port.View() == Driven(old(handle.port.View()), handle.pinIndex, !Bit(old(handle.port.odr), handle.pinIndex))
  {
    var port := handle.port;
    var pin := handle.pinIndex;
    if Bit(port.odr, pin) {
      SetState(port, pin, 0);
    } else {
      SetState(port, pin, 1);
    }
  }

  /** A toggle inverts the pin's output bit and leaves every other output bit. */
  lemma ToggleFlips(r: Regs, pin: word, q: word)
    requires pin < 16 && q < 32
    ensures Bit(Driven(r, pin, !Bit(r.odr, pin)).odr, q) == if q == pin then !Bit(r.odr, pin) else Bit(r.odr, q)
  {
    if q != pin {
      UpdateBitOther(r.odr, pin, !Bit(r.odr, pin), q);
    }
  }

  /** Whether a registered handle in `table` already uses line `pin`. */
  ghost predicate Taken(table: seq<Handle?>, pin: word)
    reads table
  {
    exists i :: 0 <= i < |table| && table[i] != null && table[i].pinIndex == pin
  }

  /** The duplicate scan of GpioSetInterrupt. */
  method Scan(table: array<Handle?>, pin: word) returns (found: bool)
    ensures found <==> Taken(table[..], pin)
  {
    for i := 0 to table.Length
      invariant forall j :: 0 <= j < i ==> !(table[j] != null && table[j].pinIndex == pin)
    {
      if table[i] != null && table[i].pinIndex == pin {
        assert table[..][i] == table[i];
        return true;
      }
    }
    found := false;
    forall j | 0 <= j < table.Length
      ensures !(table[..][j] != null && table[..][j].pinIndex == pin)
    {
      assert table[..][j] == table[j];
    }
  }

  /** The handler line `i` runs: one when the line is pending and its entry has a handler. */
  function Due(pr: word, hs: seq<Option<CallbackId>>, i: word): seq<CallbackId>
    requires i < 16 && |hs| == IRQ_MAX
  {
    if Bit(pr, i) && hs[i].Some? then [hs[i].value] else []
  }

  /**
   * The handlers an EXTI handler call runs, in line order: one for each line
   * in [i, last] that is pending in `pr` and whose table entry has a handler.
   */
  function Wanted(pr: word, hs: seq<Option<CallbackId>>, i: word, last: word): seq<CallbackId>
    requires last < 16 && |hs| == IRQ_MAX
    decreases last + 1 - i
  {
    if i > last then []
    else Due(pr, hs, i) + Wanted(pr, hs, i + 1, last)
  }

  /** `pr` with every line in [i, last] no longer pending. */
  function ClearedLines(pr: word, i: word, last: word): word
    requires last < 16
    decreases last + 1 - i
  {
    if i > last then pr else ClearedLines(ClearBit(pr, i), i + 1, last)
  }

  /** An EXTI handler call leaves pending exactly the lines outside [i, last] that were pending. */
  lemma {:induction false} ClearedLinesBits(pr: word, i: word, last: word, q: word)
    requires last < 16 && q < 32
    ensures Bit(ClearedLines(pr, i, last), q) == (Bit(pr, q) && !(i <= q <= last))
    decreases last + 1 - i
  {
    if i <= last {
      ClearedLinesBits(ClearBit(pr, i), i + 1, last, q);
      if q == i {
        assert !Bit(UpdateBit(pr, i, false), i);
      } else {
        ClearOther(pr, i, q);
      }
    }
  }

  /** Clearing line `c` leaves the decisions for the lines after it as they were. */
  lemma {:induction false} WantedAfterClear(pr: word, hs: seq<Option<CallbackId>>, c: word, i: word, last: word)
    requires last < 16 && |hs| == IRQ_MAX && c < i <= last + 1
    ensures Wanted(ClearBit(pr, c), hs, i, last) == Wanted(pr, hs, i, last)
    decreases last + 1 - i
  {
    if i <= last {
      DueAfterClear(pr, hs, c, i);
      WantedAfterClear(pr, hs, c, i + 1, last);
    }
  }

  lemma DueAfterClear(pr: word, hs: seq<Option<CallbackId>>, c: word, i: word)
    requires |hs| == IRQ_MAX && c < 16 && i < 16 && c != i
    ensures Due(ClearBit(pr, c), hs, i) == Due(pr, hs, i)
  {
    ClearOther(pr, c, i);
  }

  /** The handler of each slot of m_GpioIrq. */
  ghost function Handlers(table: array<Handle?>): (hs: seq<Option<CallbackId>>)
    reads table, table[..]
    ensures |hs| == table.Length
    ensures forall k :: 0 <= k < table.Length ==> hs[k] == HandlerOf(table[k])
  {
    seq(table.Length, k requires 0 <= k < table.Length reads table, table[..] =>
      HandlerOf(table[k]))
  }

  /** GpioExtiHandler: a loop over the lines [first, last] of one EXTI vector. */
  method ExtiLines(table: array<Handle?>, exti: Exti, first: word, last: word) returns (fired: seq<CallbackId>)
    requires table.Length == IRQ_MAX && last < 16
    modifies exti`pr
    ensures exti.pr == ClearedLines(old(exti.pr), first, last)
    ensures fired == Wanted(old(exti.pr), Handlers(table), first, last)
  {
    ghost var hs := Handlers(table);
    ghost var pr0 := exti.pr;
    fired := [];
    var i := first;
    while i <= last
      invariant ClearedLines(exti.pr, i, last) == ClearedLines(pr0, first, last)
      invariant fired + Wanted(exti.pr, hs, i, last) == Wanted(pr0, hs, first, last)
      decreases 16 - i
    {
      ghost var pr := exti.pr;
      assert hs[i] == HandlerOf(table[i]);
      var h := ServeLine(table, exti, i, hs);
      Step(pr, hs, i, last, fired, h);
      fired := fired + h;
      i := i + 1;
    }
  }

  /** Serving line `i` and moving on is what the handler call does for the lines from `i`. */
  lemma LineStep(pr: word, hs: seq<Option<CallbackId>>, i: word, last: word)
    requires last < 16 && |hs| == IRQ_MAX && i <= last
    ensures Wanted(pr, hs, i, last) ==
      Due(pr, hs, i) + Wanted(ClearBit(pr, i), hs, i + 1, last)
    ensures ClearedLines(pr, i, last) == ClearedLines(ClearBit(pr, i), i + 1, last)
  {
    WantedAfterClear(pr, hs, i, i + 1, last);
  }

  /** The loop step of GpioExtiHandler keeps what is left to do in step with the whole call. */
  lemma Step(pr: word, hs: seq<Option<CallbackId>>, i: word, last: word, fired: seq<CallbackId>, h: seq<CallbackId>)
    requires last < 16 && |hs| == IRQ_MAX && i <= last
    requires h == Due(pr, hs, i)
    ensures ClearedLines(ClearBit(pr, i), i + 1, last) == ClearedLines(pr, i, last)
    ensures (fired + h) + Wanted(ClearBit(pr, i), hs, i + 1, last) == fired + Wanted(pr, hs, i, last)
  {
    LineStep(pr, hs, i, last);
    Concat(fired, h, Wanted(ClearBit(pr, i), hs, i + 1, last));
  }

  lemma Concat<T>(a: seq<T>, b: seq<T>, c: seq<T>)
    ensures (a + b) + c == a + (b + c)
  {
  }

  /** One line of GpioExtiHandler: a pending line is cleared and its handler, if any, runs. */
  method ServeLine(table: array<Handle?>, exti: Exti, i: word, ghost hs: seq<Option<CallbackId>>)
    returns (h: seq<CallbackId>)
    requires table.Length == IRQ_MAX && i < 16 && |hs| == IRQ_MAX && hs[i] == HandlerOf(table[i])
    modifies exti`pr
    ensures exti.pr == ClearBit(old(exti.pr), i)
    ensures h == Due(old(exti.pr), hs, i)
  {
    h := [];
    if Bit(exti.pr, i) {
      exti.Ack(i);
      if table[i] != null && table[i].irqHandler.Some? {
        h := [table[i].irqHandler.value];
      }
    } else {
      ClearUnset(exti.pr, i);
    }
  }

  /** The EXTI registers after GpioSetInterrupt: line unmasked, edges selected, pending bit cleared. */
  function Armed(e: ExtiRegs, pin: word, mode: IrqMode): ExtiRegs
    requires pin < 16
  {
    ExtiRegs(UpdateBit(e.imr, pin, true), UpdateBit(e.rtsr, pin, mode == Rising || mode == Both),
             UpdateBit(e.ftsr, pin, mode == Falling || mode == Both), ClearBit(e.pr, pin))
  }

  /** `EXTI->IMR &= ~mask`, GpioSetEdge, and the pending bit cleared when set. */
  method Prepare(exti: Exti, pin: word, mode: IrqMode)
    requires pin < 16 && mode != IrqNone
    modifies exti
    ensures exti.View() == ExtiRegs(ClearBit(old(exti.imr), pin), UpdateBit(old(exti.rtsr), pin, mode == Rising || mode == Both),
                                    UpdateBit(old(exti.ftsr), pin, mode == Falling || mode == Both), ClearBit(old(exti.pr), pin))
  {
    exti.imr := ClearBit(exti.imr, pin);
    SetEdge(exti, mode, pin);
    ClearPending(exti, pin);
  }

  /** `if (EXTI->PR & mask) EXTI->PR = mask;` */
  method ClearPending(exti: Exti, pin: word)
    requires pin < 16
    modifies exti`pr
    ensures exti.pr == ClearBit(old(exti.pr), pin)
  {
    if Bit(exti.pr, pin) {
      exti.Ack(pin);
    } else {
      ClearUnset(exti.pr, pin);
    }
  }

  /** The EXTICR update of GpioSetInterrupt: line `pin` routed to `port`, found by GpioGetExtiLine. */
  method RouteLine(syscfg: Syscfg, port: PortId, pin: word)
    requires syscfg.Valid() && pin < 16
    modifies syscfg
    ensures syscfg.Valid()
    ensures syscfg.exticr == Routed(old(syscfg.exticr), pin, ExtiCode(port))
  {
    var line := GetExtiLine(port);
    ExtiLineOf(port, line);
    syscfg.Route(pin, line as word);
  }

  /** `EXTI->IMR |= mask`. */
  method Unmask(exti: Exti, pin: word)
    requires pin < 16
    modifies exti`imr
    ensures exti.View() == old(exti.View()).(imr := SetBit(old(exti.imr), pin))
  {
    exti.imr := SetBit(exti.imr, pin);
  }

  /** Clearing the mask bit and setting it again leaves it set and every other bit as it was. */
  lemma Unmasked(imr: word, pin: word)
    requires pin < 16
    ensures SetBit(ClearBit(imr, pin), pin) == UpdateBit(imr, pin, true)
  {
  }

  /** Each registered handle sits in the slot of its own line. */
  ghost predicate IndexedTable(table: array<Handle?>)
    reads table, table[..]`pinIndex
  {
    forall k :: 0 <= k < table.Length && table[k] != null ==> table[k].pinIndex as int == k
  }

  /** With each handle in its own slot, the duplicate scan finds a line exactly when its slot is occupied. */
  lemma TakenIndexed(table: array<Handle?>, pin: word)
    requires IndexedTable(table) && pin < 16 && table.Length == IRQ_MAX
    ensures Taken(table[..], pin) <==> table[pin] != null
  {
    if table[pin] != null {
      assert table[..][pin] == table[pin];
    }
    if Taken(table[..], pin) {
      var i :| 0 <= i < table.Length && table[..][i] != null && table[..][i].pinIndex == pin;
      assert table[i] == table[..][i];
    }
  }

  /**
   * The driver's interrupt state: m_GpioIrq, the EXTI and SYSCFG blocks it
   * programs, and the handler calls the EXTI vectors have made.
   */
  class Interrupts {
    /** m_GpioIrq: the handle registered on each EXTI line. */
    const table: array<Handle?>
    const exti: Exti
    const syscfg: Syscfg
    /** Every handler call, in order. */
    var calls: seq<CallbackId>

    ghost predicate Valid()
      reads this, syscfg
    {
      table.Length == IRQ_MAX && syscfg.Valid()
    }

    ghost predicate Indexed()
      reads this, table, table[..]`pinIndex
    {
      IndexedTable(table)
    }

    /** The static initialiser: no line is registered. */
    constructor ()
      ensures Valid() && Indexed() && calls == []
      ensures forall k :: 0 <= k < table.Length ==> table[k] == null
    {
      table := new Handle?[IRQ_MAX](_ => null);
      exti := new Exti();
      syscfg := new Syscfg();
      calls := [];
    }

    /**
     * GpioSetInterrupt. A line that already has a handle is left alone;
     * otherwise the handle takes the handler, the line is routed to the
     * handle's port, armed on the requested edges, and registered. The NVIC
     * calls are outside this model.
     */
    method SetInterrupt(handle: Handle, mode: IrqMode, handler: CallbackId)
      requires Valid() && handle.port != null && handle.pinIndex < 16 && mode != IrqNone
      modifies handle`irqHandler, table, exti, syscfg
      ensures Valid() && (old(Indexed()) ==> Indexed())
      ensures old(Taken(table[..], handle.pinIndex)) ==>
        handle.irqHandler == old(handle.irqHandler) && table[..] == old(table[..]) &&
        exti.View() == old(exti.View()) && syscfg.exticr == old(syscfg.exticr)
      ensures !old(Taken(table[..], handle.pinIndex)) ==>
        var pin := handle.pinIndex;
        handle.irqHandler == Some(handler) &&
        table[..] == WithEntry(old(table[..]), pin, handle) &&
        syscfg.exticr == Routed(old(syscfg.exticr), pin, ExtiCode(handle.port.id)) &&
        exti.View() == Armed(old(exti.View()), pin, mode)
    {
      var taken := Scan(table, handle.pinIndex);
      if taken {
        return;
      }
      Register(handle, mode, handler);
    }

    /** GpioSetInterrupt past the duplicate scan. */
    method Register(handle: Handle, mode: IrqMode, handler: CallbackId)
      requires Valid() && handle.port != null && handle.pinIndex < 16 && mode != IrqNone
      modifies handle`irqHandler, table, exti, syscfg
      ensures Valid() && (old(Indexed()) ==> Indexed())
      ensures
        var pin := handle.pinIndex;
        handle.irqHandler == Some(handler) &&
        table[..] == WithEntry(old(table[..]), pin, handle) &&
        syscfg.exticr == Routed(old(syscfg.exticr), pin, ExtiCode(handle.port.id)) &&
        exti.View() == Armed(old(exti.View()), pin, mode)
    {
      var pin, id := handle.pinIndex, handle.port.id;
      Wire(id, pin, mode);
      Unmask(exti, pin);
      Unmasked(old(exti.imr), pin);
      Store(handle);
      handle.irqHandler := Some(handler);
    }

    /** The EXTICR route, the IMR mask, the edges and the pending bit of GpioSetInterrupt. */
    method Wire(port: PortId, pin: word, mode: IrqMode)
      requires Valid() && pin < 16 && mode != IrqNone
      modifies exti, syscfg
      ensures Valid()
      ensures syscfg.exticr == Routed(old(syscfg.exticr), pin, ExtiCode(port))
      ensures exti.View() == ExtiRegs(ClearBit(old(exti.imr), pin), UpdateBit(old(exti.rtsr), pin, mode == Rising || mode == Both),
                                      UpdateBit(old(exti.ftsr), pin, mode == Falling || mode == Both), ClearBit(old(exti.pr), pin))
    {
      RouteLine(syscfg, port, pin);
      Prepare(exti, pin, mode);
    }

    /** `m_GpioIrq[pinIndex] = handle`. */
    method Store(handle: Handle)
      requires Valid() && handle.pinIndex < 16
      modifies table
      ensures Valid() && (old(Indexed()) ==> Indexed())
      ensures table[..] == WithEntry(old(table[..]), handle.pinIndex, handle)
    {
      table[handle.pinIndex] := handle;
    }

    /**
     * The EXTI vector `irq`: GpioExtiHandler over the vector's lines, each
     * handler it runs appended to the calls made.
     */
    method Vector(irq: int)
      requires Valid() && VectorLines(irq).Some?
      modifies this`calls, exti`pr
      ensures
        var (first, last) := VectorLines(irq).value;
        exti.pr == ClearedLines(old(exti.pr), first, last) &&
        calls == old(calls) + Wanted(old(exti.pr), Handlers(table), first, last)
    {
      VectorRange(irq);
      var (first, last) := VectorLines(irq).value;
      var fired := ExtiLines(table, exti, first, last);
      calls := calls + fired;
    }
  }

  /** m_GpioIrq with `h` in the slot of line `pin`. */
  function WithEntry(table: seq<Handle?>, pin: word, h: Handle): seq<Handle?>
    requires pin < 16 && |table| == IRQ_MAX
  {
    table[pin as int := h]
  }

  /** The EXTICR value of each port, as a register field. */
  function ExtiCode(port: PortId): (c: word)
    ensures c <= 7
  {
    match port
    case A => 0
    case B => 1
    case C => 2
    case D => 3
    case E => 4
    case H => 7
  }
}
