/**
 * The blocking SPI master of spi/spi.c. platforms/stm32f4xx/spi.c carries
 * the same SpiMode, SpiFormat, SpiSpeed, WaitFlagTimeout, SpiClearOverrun
 * and SpiTransfer word for word, so its queued engine reuses this module.
 *
 * The status register is an input: `srAt(n)` is the value the n-th read of
 * SR returns, `drAt(n)` the byte the n-th read of DR returns. Writes to DR,
 * reads of DR and the callbacks the queued engine makes are logged in
 * order in `trace`. SPI_CR1 bit positions follow section 20.5.1 of RM0383.
 */
module Spi {
  import opened Common
  import opened Arith

  datatype SpiName = Spi1 | Spi2 | Spi3 | Spi4 | Spi5
  datatype Polarity = Cpol0 | Cpol1
  datatype Phase = Cpha0 | Cpha1

  const CR1_CPHA: bv32 := 0x0001
  const CR1_CPOL: bv32 := 0x0002
  const CR1_MSTR: bv32 := 0x0004
  const CR1_BR_MSK: bv32 := 0x0038
  const CR1_SPE: bv32 := 0x0040
  const CR1_LSBFIRST: bv32 := 0x0080
  const CR1_SSI: bv32 := 0x0100
  const CR1_SSM: bv32 := 0x0200
  const CR1_RXONLY: bv32 := 0x0400
  const CR1_DFF: bv32 := 0x0800
  const CR1_CRCNEXT: bv32 := 0x1000
  const CR1_CRCEN: bv32 := 0x2000
  const CR1_BIDIMODE: bv32 := 0x8000

  /** The bits SpiFormat sets and the bits it clears. */
  const FORMAT_SET: bv32 := 0x0304
  const FORMAT_CLEAR: bv32 := 0xBC80

  /** WAIT_FLAG_TIMEOUT_MAX: the polls allowed per awaited flag, one microsecond apart. */
  const WAIT_FLAG_TIMEOUT_MAX: nat := 100

  /** The SR flags the driver tests. */
  datatype SrFlags = SrFlags(rxne: bool, txe: bool, bsy: bool, ovr: bool)

  datatype Flag = Txe | Rxne | Bsy

  function FlagOf(v: SrFlags, flag: Flag): bool
  {
    match flag
    case Txe => v.txe
    case Rxne => v.rxne
    case Bsy => v.bsy
  }

  /**
   * One register action or callback, in order: a byte written to DR, a byte
   * read from DR (stored, discarded or read to clear an overrun), the TXE or
   * RXNE interrupt enable of CR2 switched, or a hook or callback invoked with
   * its context (a NULL context is 0).
   */
  datatype SpiOp =
    | Write(b: byte)
    | Read(b: byte)
    | TxeIe(on: bool)
    | RxneIe(on: bool)
    | Call(callback: CallbackId, context: nat)

  /** The CPOL bit of SpiMode: set when `on`, cleared otherwise, every other bit kept. */
  function Cpol(x: bv32, on: bool): (r: bv32)
    ensures (r & CR1_CPOL != 0) <==> on
    ensures r & !CR1_CPOL == x & !CR1_CPOL
  {
    if on then x | CR1_CPOL else x & !CR1_CPOL
  }

  /** The CPHA bit of SpiMode: set when `on`, cleared otherwise, every other bit kept. */
  function Cpha(x: bv32, on: bool): (r: bv32)
    ensures (r & CR1_CPHA != 0) <==> on
    ensures r & !CR1_CPHA == x & !CR1_CPHA
  {
    if on then x | CR1_CPHA else x & !CR1_CPHA
  }

  /** SpiMode: CPOL set exactly for CPOL_1 and CPHA exactly for CPHA_1, every other CR1 bit kept. */
  function Mode(cr1: bv32, polarity: Polarity, phase: Phase): (r: bv32)
    ensures (r & CR1_CPOL != 0) <==> polarity == Cpol1
    ensures (r & CR1_CPHA != 0) <==> phase == Cpha1
    ensures r & !(CR1_CPOL | CR1_CPHA) == cr1 & !(CR1_CPOL | CR1_CPHA)
  {
    Cpha(Cpol(cr1, polarity == Cpol1), phase == Cpha1)
  }

  /**
   * SpiFormat: master, software slave management with SSI high; MSB first,
   * full duplex, 8-bit frames, no CRC, two-line mode. Other bits are kept.
   */
  function Format(cr1: bv32): (r: bv32)
    ensures r & CR1_MSTR != 0 && r & CR1_SSM != 0 && r & CR1_SSI != 0
    ensures r & (CR1_LSBFIRST | CR1_RXONLY | CR1_DFF | CR1_CRCEN | CR1_CRCNEXT | CR1_BIDIMODE) == 0
    ensures r & !(FORMAT_SET | FORMAT_CLEAR) == cr1 & !(FORMAT_SET | FORMAT_CLEAR)
  {
    var c1 := (cr1 | CR1_MSTR) & !CR1_LSBFIRST;
    var c2 := (c1 | CR1_SSM) | CR1_SSI;
    var c3 := ((c2 & !CR1_RXONLY) & !CR1_DFF) & !CR1_CRCEN;
    (c3 & !CR1_CRCNEXT) & !CR1_BIDIMODE
  }

  /** The BR field of CR1, bits 5:3. */
  function Br(cr1: bv32): (br: nat)
    ensures br <= 7
  {
    ((cr1 & CR1_BR_MSK) >> 3) as nat
  }

  /** The read-modify-write of SpiSpeed: BR cleared, then `br` put in, every other bit kept. */
  function SetBr(cr1: bv32, br: bv32): (r: bv32)
    requires br <= 7
    ensures (r & CR1_BR_MSK) >> 3 == br && r & !CR1_BR_MSK == cr1 & !CR1_BR_MSK
  {
    (cr1 & !CR1_BR_MSK) | (br << 3)
  }

  /** A BR code of at most 7 fits the three-bit field once converted to a register word. */
  lemma CodeFits(br: nat)
    requires br <= 7
    ensures br as bv32 <= 7 && (br as bv32) as nat == br
  {
    if br < 4 {
      if br < 2 { assert br == 0 || br == 1; } else { assert br == 2 || br == 3; }
    } else {
      if br < 6 { assert br == 4 || br == 5; } else { assert br == 6 || br == 7; }
    }
  }

  /** The BR code as the register word SpiSpeed shifts into place. */
  function BrCode(br: nat): (c: bv32)
    requires br <= 7
    ensures c <= 7 && c as nat == br
  {
    CodeFits(br);
    br as bv32
  }

  /** Reading back the field SetBr wrote gives the code written. */
  lemma BrOfSetBr(cr1: bv32, br: nat)
    requires br <= 7
    ensures Br(SetBr(cr1, BrCode(br))) == br
  {
  }

  /** SpiEnable: SPE set, every other bit kept. */
  function Enable(cr1: bv32): (r: bv32)
    ensures r & CR1_SPE != 0 && r & !CR1_SPE == cr1 & !CR1_SPE
  {
    cr1 | CR1_SPE
  }

  /** SpiDisable: SPE cleared, every other bit kept. */
  function Disable(cr1: bv32): (r: bv32)
    ensures r & CR1_SPE == 0 && r & !CR1_SPE == cr1 & !CR1_SPE
  {
    cr1 & !CR1_SPE
  }

  /** The PPRE1 or PPRE2 divisor: 1 for codes below 4, otherwise 1 << (code - 3), that is 2, 4, 8 or 16. */
  function ApbDivisor(code: bv32): (d: nat)
    requires code < 8
    ensures d >= 1 && (d == 1 <==> code < 4)
  {
    if code < 4 then 1 else if code == 4 then 2 else if code == 5 then 4 else if code == 6 then 8 else 16
  }

  /** SPI1, SPI4 and SPI5 are clocked from APB2, SPI2 and SPI3 from APB1. */
  predicate OnApb2(name: SpiName)
  {
    name == Spi1 || name == Spi4 || name == Spi5
  }

  /** The PPRE2 field of RCC_CFGR (bits 15:13) or the PPRE1 field (bits 12:10). */
  function PpreCode(cfgr: bv32, apb2: bool): (code: bv32)
    ensures code < 8
  {
    if apb2 then (cfgr >> 13) & 7 else (cfgr >> 10) & 7
  }

  /** The clock SpiSpeed divides: SystemCoreClock over the divisor of the SPI's APB bus. */
  function PeripheralClock(name: SpiName, hclk: nat, cfgr: bv32): (pclk: nat)
    ensures pclk <= hclk
    ensures pclk == hclk / ApbDivisor(PpreCode(cfgr, OnApb2(name)))
  {
    var d := ApbDivisor(PpreCode(cfgr, OnApb2(name)));
    DivNoLarger(hclk, d);
    hclk / d
  }

  /**
   * The BR code SpiSpeed programs for prescaler p = pclk / desired: the
   * fewest halvings after which p is at most 2, but never more than 7.
   */
  function BrBits(p: nat): (br: nat)
    ensures br <= 7
    ensures br < 7 ==> Halved(p, br) <= 2
    ensures forall j :: 0 <= j < br ==> Halved(p, j) > 2
  {
    LeastFrom(p, 0)
  }

  /** `p` halved `j` times, rounding down. */
  function Halved(p: nat, j: nat): nat
  {
    var m := Pow2(j);
    DivNat(p, m);
    p / m
  }

  function LeastFrom(p: nat, k: nat): (br: nat)
    requires k <= 7
    requires forall j :: 0 <= j < k ==> Halved(p, j) > 2
    ensures k <= br <= 7
    ensures br < 7 ==> Halved(p, br) <= 2
    ensures forall j :: 0 <= j < br ==> Halved(p, j) > 2
    decreases 7 - k
  {
    if k == 7 || Halved(p, k) <= 2 then k else LeastFrom(p, k + 1)
  }

  /** The halving loop of SpiSpeed on its local prescaler. */
  method Prescale(p: nat) returns (brBits: nat)
    ensures brBits == BrBits(p)
  {
    var prescaler := p;
    brBits := 0;
    while prescaler > 2 && brBits < 7
      invariant brBits <= 7 && prescaler == Halved(p, brBits)
      invariant forall j :: 0 <= j < brBits ==> Halved(p, j) > 2
      invariant LeastFrom(p, brBits) == BrBits(p)
      decreases 7 - brBits
    {
      HalveAgain(p, brBits);
      prescaler := prescaler / 2;
      brBits := brBits + 1;
    }
  }

  /** The frequency SpiSpeed returns: pclk / 2^(br + 1). */
  function ActualHz(pclk: nat, desiredHz: nat): nat
    requires desiredHz > 0
  {
    Halved(pclk, BrBits(pclk / desiredHz) + 1)
  }

  /** Unless the prescaler is capped at 7, the programmed frequency is below one and a half times the requested one. */
  lemma SpeedBelowHalfAgain(pclk: nat, desiredHz: nat)
    requires desiredHz > 0 && BrBits(pclk / desiredHz) < 7
    ensures 2 * ActualHz(pclk, desiredHz) < 3 * desiredHz
  {
    var p := pclk / desiredHz;
    var q := Pow2(BrBits(p));
    BelowNextMultiple(p, q);
    MulMono(p / q + 1, 3, q);
    BelowNextMultiple(pclk, desiredHz);
    MulMono(p + 1, 3 * q, desiredHz);
    MulAssoc(3, q, desiredHz);
    MulAssoc(3, desiredHz, q);
    DivBelow(pclk, q, 3 * desiredHz);
    DivDiv(pclk, q, 2);
  }

  /**
   * The programmed frequency can exceed the requested one: with a 16 MHz
   * clock and 6 MHz requested, the prescaler is 2, no halving is done and
   * the bus runs at 8 MHz.
   */
  lemma SpeedCanExceedRequest()
    ensures BrBits(16000000 / 6000000) == 0 && ActualHz(16000000, 6000000) == 8000000
  {
    assert 16000000 / 6000000 == 2;
  }

  /** What of the port the blocking transfer changes: the log and how many SR and DR reads and delays were made. */
  datatype Port = Port(trace: seq<SpiOp>, srReads: nat, drReads: nat, delays: nat)

  /**
   * WaitFlagTimeout polling from SR read `p`: whether the flag reached
   * `state`, and the number of one-microsecond delays made (one fewer than
   * the SR reads).
   */
  function Wait(srAt: nat -> SrFlags, p: nat, flag: Flag, state: bool, timeout: nat): (r: (bool, nat))
    ensures r.1 <= timeout
    decreases timeout
  {
    if FlagOf(srAt(p), flag) == state then (true, 0)
    else if timeout == 0 then (false, 0)
    else var w := Wait(srAt, p + 1, flag, state, timeout - 1); (w.0, w.1 + 1)
  }

  /** SR read `n` shows `flag` in `state`. */
  predicate Shows(srAt: nat -> SrFlags, n: nat, flag: Flag, state: bool)
  {
    FlagOf(srAt(n), flag) == state
  }

  /**
   * The wait succeeds exactly when one of the SR reads p .. p + timeout
   * shows the flag in the wanted state; it then stops at the first such
   * read, and otherwise it delays exactly `timeout` times.
   */
  lemma {:induction false} WaitFindsFlag(srAt: nat -> SrFlags, p: nat, flag: Flag, state: bool, timeout: nat)
    ensures var r := Wait(srAt, p, flag, state, timeout);
      (r.0 <==> exists n :: p <= n <= p + timeout && Shows(srAt, n, flag, state)) &&
      (r.0 ==> Shows(srAt, p + r.1, flag, state)) &&
      (forall n :: p <= n < p + r.1 ==> !Shows(srAt, n, flag, state)) &&
      (!r.0 ==> r.1 == timeout)
    decreases timeout
  {
    if !Shows(srAt, p, flag, state) && timeout > 0 {
      WaitFindsFlag(srAt, p + 1, flag, state, timeout - 1);
    }
  }

  /** A wait that succeeds stopped at a read showing the flag in the wanted state. */
  lemma {:induction false} WaitStopsOnFlag(srAt: nat -> SrFlags, p: nat, flag: Flag, state: bool, timeout: nat)
    ensures var r := Wait(srAt, p, flag, state, timeout); r.0 ==> Shows(srAt, p + r.1, flag, state)
    decreases timeout
  {
    if !Shows(srAt, p, flag, state) && timeout > 0 {
      WaitStopsOnFlag(srAt, p + 1, flag, state, timeout - 1);
    }
  }

  /**
   * A wait is determined by what the polls showed: `polls` reads without
   * the flag, then either the flag seen or, with no retries left, one more
   * read without it.
   */
  lemma {:induction false} WaitFrom(srAt: nat -> SrFlags, p: nat, flag: Flag, state: bool, timeout: nat, polls: nat, ok: bool)
    requires polls <= timeout
    requires forall n :: p <= n < p + polls ==> !Shows(srAt, n, flag, state)
    requires ok ==> Shows(srAt, p + polls, flag, state)
    requires !ok ==> polls == timeout && !Shows(srAt, p + polls, flag, state)
    ensures Wait(srAt, p, flag, state, timeout) == (ok, polls)
    decreases polls
  {
    if polls > 0 {
      assert !Shows(srAt, p, flag, state);
      WaitFrom(srAt, p + 1, flag, state, timeout - 1, polls - 1, ok);
    }
  }

  /**
   * WaitFlagTimeout: polls SR from read `p` until the flag is in the wanted
   * state, with one delay per retry and at most `timeoutUs` retries.
   * Returns whether the flag was seen and the number of delays.
   */
  method WaitFlagTimeout(srAt: nat -> SrFlags, p: nat, flag: Flag, state: bool, timeoutUs: nat) returns (ok: bool, polls: nat)
    ensures (ok, polls) == Wait(srAt, p, flag, state, timeoutUs)
  {
    polls := 0;
    var t: nat := timeoutUs;
    ok := true;
    while !Shows(srAt, p + polls, flag, state)
      invariant t + polls == timeoutUs
      invariant forall n :: p <= n < p + polls ==> !Shows(srAt, n, flag, state)
      decreases t
    {
      if t == 0 {
        ok := false;
        break;
      }
      t := t - 1;
      polls := polls + 1;
    }
    WaitFrom(srAt, p, flag, state, timeoutUs, polls, ok);
  }

  /**
   * A wait applied to the port: SR read at most tmax + 1 times, one
   * delay between reads, nothing else touched; on success the last read
   * showed the flag in the wanted state.
   */
  function WaitOn(s: Port, srAt: nat -> SrFlags, flag: Flag, state: bool, tmax: nat): (r: (Port, bool))
    ensures r.0.trace == s.trace && r.0.drReads == s.drReads
    ensures s.srReads < r.0.srReads <= s.srReads + tmax + 1
    ensures r.0.delays == s.delays + (r.0.srReads - s.srReads - 1)
    ensures r.1 ==> Shows(srAt, r.0.srReads - 1, flag, state)
  {
    var w := Wait(srAt, s.srReads, flag, state, tmax);
    WaitStopsOnFlag(srAt, s.srReads, flag, state, tmax);
    (s.(srReads := s.srReads + w.1 + 1, delays := s.delays + w.1), w.0)
  }

  /** SpiClearOverrun: DR read and discarded, then SR read. */
  function OverrunCleared(s: Port, drAt: nat -> byte): Port
  {
    s.(trace := s.trace + [Read(drAt(s.drReads))], drReads := s.drReads + 1, srReads := s.srReads + 1)
  }

  /**
   * One pass of the SpiTransfer loop: wait for TXE, write `b`, wait for
   * RXNE, read DR. A timeout clears the overrun condition instead, after
   * the write when it was the RXNE wait that failed. Either way DR is read
   * exactly once.
   */
  function ByteStep(s: Port, srAt: nat -> SrFlags, drAt: nat -> byte, tmax: nat, b: byte): (r: (bool, Port))
    ensures r.1.srReads > s.srReads && r.1.drReads == s.drReads + 1 && r.1.delays >= s.delays
    ensures r.0 ==> r.1.trace == s.trace + [Write(b), Read(drAt(s.drReads))]
    ensures !r.0 ==> r.1.trace == s.trace + [Read(drAt(s.drReads))] || r.1.trace == s.trace + [Write(b), Read(drAt(s.drReads))]
  {
    var (s1, ok1) := WaitOn(s, srAt, Txe, true, tmax);
    if !ok1 then (false, OverrunCleared(s1, drAt))
    else
      var s2 := s1.(trace := s1.trace + [Write(b)]);
      var (s3, ok2) := WaitOn(s2, srAt, Rxne, true, tmax);
      if !ok2 then (false, OverrunCleared(s3, drAt))
      else (true, s3.(trace := s3.trace + [Read(drAt(s3.drReads))], drReads := s3.drReads + 1))
  }

  /** The end of SpiTransfer: wait for BSY to clear; on a timeout clear the overrun condition. */
  function Finish(s: Port, srAt: nat -> SrFlags, drAt: nat -> byte, tmax: nat): (r: (bool, Port))
    ensures r.1.srReads > s.srReads && r.1.delays >= s.delays
    ensures r.0 ==> r.1.trace == s.trace && r.1.drReads == s.drReads && Shows(srAt, r.1.srReads - 1, Bsy, false)
    ensures !r.0 ==> r.1.trace == s.trace + [Read(drAt(s.drReads))] && r.1.drReads == s.drReads + 1
  {
    var (s1, ok) := WaitOn(s, srAt, Bsy, false, tmax);
    if ok then (true, s1) else (false, OverrunCleared(s1, drAt))
  }

  /**
   * The loop of SpiTransfer from byte `i` of `out` on, then its final wait.
   * Gives the outcome, the port after it and the number of bytes fully
   * exchanged.
   */
  function TransferFrom(s: Port, srAt: nat -> SrFlags, drAt: nat -> byte, tmax: nat, out: seq<byte>, i: nat): (r: (bool, Port, nat))
    requires i <= |out|
    ensures i <= r.2 <= |out| && (r.0 ==> r.2 == |out|)
    decreases |out| - i
  {
    if i == |out| then
      var f := Finish(s, srAt, drAt, tmax);
      (f.0, f.1, i)
    else
      var st := ByteStep(s, srAt, drAt, tmax, out[i]);
      if !st.0 then (false, st.1, i)
      else TransferFrom(st.1, srAt, drAt, tmax, out, i + 1)
  }

  /** From port `s`, having exchanged `i` bytes already, the rest of the transfer of `out` ends in `goal`. */
  predicate Continues(goal: (bool, Port, nat), s: Port, srAt: nat -> SrFlags, drAt: nat -> byte, tmax: nat, out: seq<byte>, i: nat)
  {
    i <= |out| && goal == TransferFrom(s, srAt, drAt, tmax, out, i)
  }

  /** A byte exchanged goes on with the next; a byte that timed out ends the transfer with the bytes before it. */
  lemma ContinuesStep(goal: (bool, Port, nat), s: Port, s1: Port, ok: bool, srAt: nat -> SrFlags, drAt: nat -> byte, tmax: nat, out: seq<byte>, i: nat)
    requires i < |out| && Continues(goal, s, srAt, drAt, tmax, out, i)
    requires (ok, s1) == ByteStep(s, srAt, drAt, tmax, out[i])
    ensures ok ==> Continues(goal, s1, srAt, drAt, tmax, out, i + 1)
    ensures !ok ==> goal == (false, s1, i)
  {
  }

  /** With every byte exchanged, the final wait decides the outcome. */
  lemma ContinuesEnd(goal: (bool, Port, nat), s: Port, s1: Port, ok: bool, srAt: nat -> SrFlags, drAt: nat -> byte, tmax: nat, out: seq<byte>)
    requires Continues(goal, s, srAt, drAt, tmax, out, |out|)
    requires (ok, s1) == Finish(s, srAt, drAt, tmax)
    ensures goal == (ok, s1, |out|)
  {
  }

  /** `n` consecutive DR values from read `d` on. */
  function DrRun(drAt: nat -> byte, d: nat, n: nat): (bs: seq<byte>)
    ensures |bs| == n
    decreases n
  {
    if n == 0 then [] else [drAt(d)] + DrRun(drAt, d + 1, n - 1)
  }

  /** The run grows by the next DR value at its end. */
  lemma {:induction false} DrRunSnoc(drAt: nat -> byte, d: nat, n: nat)
    ensures DrRun(drAt, d, n + 1) == DrRun(drAt, d, n) + [drAt(d + n)]
    decreases n
  {
    if n > 0 {
      DrRunSnoc(drAt, d + 1, n - 1);
    }
  }

  /** The full-duplex log of bytes `out` sent against bytes `ins` received: write, read, write, read, ... */
  function Exchange(out: seq<byte>, ins: seq<byte>): (ops: seq<SpiOp>)
    requires |out| == |ins|
    ensures |ops| == 2 * |out|
  {
    if out == [] then [] else [Write(out[0]), Read(ins[0])] + Exchange(out[1..], ins[1..])
  }

  /** What SpiTransfer sends: the transmit buffer, or 0xFF for every byte when there is none. */
  function Outgoing(tx: Option<seq<byte>>, size: nat): (out: seq<byte>)
    requires tx.Some? ==> size <= |tx.value|
    ensures |out| == size
    ensures forall i :: 0 <= i < size ==> out[i] == if tx.Some? then tx.value[i] else 0xFF
  {
    if tx.Some? then tx.value[..size] else seq(size, i => 0xFF)
  }

  /** From port `s` to port `r` exactly the bytes `out` were exchanged against the next DR values. */
  predicate Exchanged(s: Port, r: Port, drAt: nat -> byte, out: seq<byte>)
  {
    r.drReads == s.drReads + |out| && r.trace == s.trace + Exchange(out, DrRun(drAt, s.drReads, |out|))
  }

  /** One byte exchanged, then the rest: the whole sequence exchanged. */
  lemma ExchangedCons(s: Port, s1: Port, r: Port, drAt: nat -> byte, out: seq<byte>)
    requires out != [] && s1.drReads == s.drReads + 1
    requires s1.trace == s.trace + [Write(out[0]), Read(drAt(s.drReads))]
    requires Exchanged(s1, r, drAt, out[1..])
    ensures Exchanged(s, r, drAt, out)
  {
    var ins := DrRun(drAt, s.drReads, |out|);
    assert Exchange(out, ins) == [Write(out[0]), Read(ins[0])] + Exchange(out[1..], ins[1..]);
  }

  /** With nothing left to send, success means nothing was exchanged. */
  lemma ExactAtEnd(s: Port, srAt: nat -> SrFlags, drAt: nat -> byte, tmax: nat, out: seq<byte>)
    ensures var r := TransferFrom(s, srAt, drAt, tmax, out, |out|);
      r.0 ==> Exchanged(s, r.1, drAt, out[|out|..])
  {
    assert out[|out|..] == [];
    assert s.trace + Exchange([], DrRun(drAt, s.drReads, 0)) == s.trace;
  }

  /**
   * A transfer that succeeds exchanged every byte from `i` on: the log
   * shows each byte written, in order, each followed by the read of the
   * next DR value, and nothing else.
   */
  lemma {:induction false} TransferExact(s: Port, srAt: nat -> SrFlags, drAt: nat -> byte, tmax: nat, out: seq<byte>, i: nat)
    requires i <= |out|
    ensures TransferFrom(s, srAt, drAt, tmax, out, i).0 ==> Exchanged(s, TransferFrom(s, srAt, drAt, tmax, out, i).1, drAt, out[i..])
    decreases |out| - i
  {
    if i == |out| {
      ExactAtEnd(s, srAt, drAt, tmax, out);
    } else {
      var st := ByteStep(s, srAt, drAt, tmax, out[i]);
      if st.0 {
        var r := TransferFrom(st.1, srAt, drAt, tmax, out, i + 1);
        GoodByteStep(s, srAt, drAt, tmax, out, i, st, r);
        TransferExact(st.1, srAt, drAt, tmax, out, i + 1);
        if r.0 {
          assert out[i..][0] == out[i] && out[i..][1..] == out[i + 1..];
          ExchangedCons(s, st.1, r.1, drAt, out[i..]);
        }
      }
    }
  }

  /** After a byte exchanged, the transfer goes on exactly as from the next byte. */
  lemma GoodByteStep(s: Port, srAt: nat -> SrFlags, drAt: nat -> byte, tmax: nat, out: seq<byte>, i: nat, st: (bool, Port), r: (bool, Port, nat))
    requires i < |out| && st == ByteStep(s, srAt, drAt, tmax, out[i]) && st.0
    requires r == TransferFrom(st.1, srAt, drAt, tmax, out, i + 1)
    ensures TransferFrom(s, srAt, drAt, tmax, out, i) == r && st.1.srReads > s.srReads
  {
  }

  /** Every transfer reads SR; one that succeeds last saw BSY clear. */
  lemma {:induction false} TransferEndsIdle(s: Port, srAt: nat -> SrFlags, drAt: nat -> byte, tmax: nat, out: seq<byte>, i: nat)
    requires i <= |out|
    ensures TransferFrom(s, srAt, drAt, tmax, out, i).1.srReads > s.srReads
    ensures TransferFrom(s, srAt, drAt, tmax, out, i).0 ==> Shows(srAt, TransferFrom(s, srAt, drAt, tmax, out, i).1.srReads - 1, Bsy, false)
    decreases |out| - i
  {
    if i == |out| {
      var f := Finish(s, srAt, drAt, tmax);
      assert TransferFrom(s, srAt, drAt, tmax, out, i) == (f.0, f.1, i);
    } else {
      var st := ByteStep(s, srAt, drAt, tmax, out[i]);
      if st.0 {
        var r := TransferFrom(st.1, srAt, drAt, tmax, out, i + 1);
        TransferEndsIdle(st.1, srAt, drAt, tmax, out, i + 1);
        GoodByteStep(s, srAt, drAt, tmax, out, i, st, r);
      } else {
        assert TransferFrom(s, srAt, drAt, tmax, out, i) == (false, st.1, i);
      }
    }
  }

  /**
   * From port `s` to port `r` the first `n` bytes of `out` were exchanged,
   * perhaps the next one written, and then DR read once more to clear the
   * overrun condition.
   */
  predicate ClearedAfter(s: Port, r: Port, drAt: nat -> byte, out: seq<byte>, n: nat)
  {
    n <= |out| && r.drReads == s.drReads + n + 1 &&
    var done := s.trace + Exchange(out[..n], DrRun(drAt, s.drReads, n));
    var clear := Read(drAt(s.drReads + n));
    (r.trace == done + [clear] || (n < |out| && r.trace == done + [Write(out[n]), clear]))
  }

  /** One byte exchanged, then a timeout after n - 1 more: a timeout after n. */
  lemma ClearedAfterCons(s: Port, s1: Port, r: Port, drAt: nat -> byte, out: seq<byte>, n: nat)
    requires out != [] && n >= 1 && s1.drReads == s.drReads + 1
    requires s1.trace == s.trace + [Write(out[0]), Read(drAt(s.drReads))]
    requires ClearedAfter(s1, r, drAt, out[1..], n - 1)
    ensures ClearedAfter(s, r, drAt, out, n)
  {
    var ins := DrRun(drAt, s.drReads, n);
    assert out[..n][1..] == out[1..][..n - 1];
    assert Exchange(out[..n], ins) == [Write(out[0]), Read(ins[0])] + Exchange(out[1..][..n - 1], ins[1..]);
    assert n < |out| ==> out[1..][n - 1] == out[n];
  }

  /** A transfer that fails in its first wait has exchanged nothing. */
  lemma TimeoutAtOnce(s: Port, srAt: nat -> SrFlags, drAt: nat -> byte, tmax: nat, out: seq<byte>, i: nat)
    requires i <= |out|
    requires i == |out| || !ByteStep(s, srAt, drAt, tmax, out[i]).0
    ensures var r := TransferFrom(s, srAt, drAt, tmax, out, i); !r.0 ==> r.2 == i && ClearedAfter(s, r.1, drAt, out[i..], 0)
  {
    assert out[i..][..0] == [] && DrRun(drAt, s.drReads, 0) == [];
    assert i < |out| ==> out[i..][0] == out[i];
  }

  /**
   * A transfer that times out has exchanged the bytes from `i` before the
   * failing wait, perhaps written the next one, and then read DR once to
   * clear the overrun condition.
   */
  lemma {:induction false} TransferTimeout(s: Port, srAt: nat -> SrFlags, drAt: nat -> byte, tmax: nat, out: seq<byte>, i: nat)
    requires i <= |out|
    ensures !TransferFrom(s, srAt, drAt, tmax, out, i).0 ==>
      ClearedAfter(s, TransferFrom(s, srAt, drAt, tmax, out, i).1, drAt, out[i..], TransferFrom(s, srAt, drAt, tmax, out, i).2 - i)
    decreases |out| - i
  {
    if i == |out| || !ByteStep(s, srAt, drAt, tmax, out[i]).0 {
      TimeoutAtOnce(s, srAt, drAt, tmax, out, i);
    } else {
      var st := ByteStep(s, srAt, drAt, tmax, out[i]);
      var r := TransferFrom(st.1, srAt, drAt, tmax, out, i + 1);
      TransferTimeout(st.1, srAt, drAt, tmax, out, i + 1);
      GoodByteStep(s, srAt, drAt, tmax, out, i, st, r);
      if !r.0 {
        assert out[i..][0] == out[i] && out[i..][1..] == out[i + 1..];
        ClearedAfterCons(s, st.1, r.1, drAt, out[i..], r.2 - i);
      }
    }
  }

  /** The contents of a buffer that may be NULL. */
  function Contents(a: array?<byte>): (c: Option<seq<byte>>)
    reads a
    ensures c.Some? <==> a != null
  {
    if a == null then None else Some(a[..])
  }

  /** The bytes of `out` from `i` on are what SpiTransfer sends: the transmit buffer's, or 0xFF without one. */
  predicate ToSend(tx: Option<seq<byte>>, out: seq<byte>, i: nat)
  {
    (tx.Some? ==> |out| <= |tx.value| && forall j :: i <= j < |out| ==> tx.value[j] == out[j]) &&
    (tx.None? ==> forall j :: i <= j < |out| ==> out[j] == 0xFF)
  }

  /** Storing byte `i` (the buffers may be one) leaves the bytes still to send in place. */
  lemma ToSendNext(tx: Option<seq<byte>>, tx': Option<seq<byte>>, out: seq<byte>, i: nat)
    requires ToSend(tx, out, i) && i < |out| && tx.Some? == tx'.Some?
    requires tx.Some? ==> |tx'.value| == |tx.value| && forall j :: i < j < |tx.value| ==> tx'.value[j] == tx.value[j]
    ensures ToSend(tx', out, i + 1)
  {
  }

  /** The receive buffer holds the first `i` bytes read from DR read `d0` on, and otherwise what it held (`rx0`). */
  predicate Received(rx: Option<seq<byte>>, out: seq<byte>, drAt: nat -> byte, d0: nat, rx0: seq<byte>, i: nat)
  {
    rx.Some? ==>
      |out| <= |rx.value| && |rx0| == |rx.value| && i <= |out| &&
      rx.value[..i] == DrRun(drAt, d0, i) && rx.value[i..] == rx0[i..]
  }

  /** Storing the next DR value at index `i` extends what was received. */
  lemma ReceivedNext(rx: Option<seq<byte>>, rx': Option<seq<byte>>, out: seq<byte>, drAt: nat -> byte, d0: nat, rx0: seq<byte>, i: nat)
    requires Received(rx, out, drAt, d0, rx0, i) && i < |out| && rx.Some? == rx'.Some?
    requires rx.Some? ==> rx'.value == rx.value[i := drAt(d0 + i)]
    ensures Received(rx', out, drAt, d0, rx0, i + 1)
  {
    if rx.Some? {
      DrRunSnoc(drAt, d0, i);
      assert rx'.value[..i + 1] == rx.value[..i] + [drAt(d0 + i)];
      assert rx'.value[i + 1..] == rx.value[i + 1..];
    }
  }

  /**
   * The loop state of SpiTransfer after `i` bytes of `out`, from port `s`:
   * the bytes still to send are still in the transmit buffer, the rest of
   * the transfer ends in `goal`, and the receive buffer holds the bytes read
   * so far with its other bytes as they were (`rx0`).
   */
  predicate Progress(tx: Option<seq<byte>>, rx: Option<seq<byte>>, s: Port, srAt: nat -> SrFlags, drAt: nat -> byte, tmax: nat,
                     out: seq<byte>, goal: (bool, Port, nat), d0: nat, rx0: seq<byte>, i: nat)
  {
    i <= |out| && s.drReads == d0 + i && ToSend(tx, out, i) &&
    Continues(goal, s, srAt, drAt, tmax, out, i) && Received(rx, out, drAt, d0, rx0, i)
  }

  /**
   * One SPI peripheral and its Spi_t: the clock configuration, the
   * initialised flag, and the log of its data-register traffic.
   */
  class SpiPort {
    var name: SpiName
    var initialized: bool
    var cr1: bv32
    var trace: seq<SpiOp>
    var srReads: nat
    var drReads: nat
    var delays: nat
    /** The values SR and DR deliver, read after read. */
    const srAt: nat -> SrFlags
    const drAt: nat -> byte
    /** The polls each wait of SpiTransfer allows: WAIT_FLAG_TIMEOUT_MAX. */
    const waitMax: nat

    function Regs(): Port
      reads this
    {
      Port(trace, srReads, drReads, delays)
    }

    /** A port before SpiInit: not initialised, CR1 as it was left, nothing read yet. */
    constructor (name: SpiName, cr1: bv32, srAt: nat -> SrFlags, drAt: nat -> byte)
      ensures this.name == name && this.cr1 == cr1 && !initialized
      ensures this.srAt == srAt && this.drAt == drAt && waitMax == WAIT_FLAG_TIMEOUT_MAX
      ensures Regs() == Port([], 0, 0, 0)
    {
      this.name := name;
      this.cr1 := cr1;
      this.srAt := srAt;
      this.drAt := drAt;
      waitMax := WAIT_FLAG_TIMEOUT_MAX;
      initialized := false;
      trace := [];
      srReads := 0;
      drReads := 0;
      delays := 0;
    }

    /**
     * SpiInit: mode, format and speed into CR1, SPE set, the overrun
     * condition cleared, and initialised. Returns the frequency programmed.
     * Pin, clock-enable and NVIC set-up are not part of this model.
     */
    method Init(name: SpiName, polarity: Polarity, phase: Phase, desiredHz: nat, hclk: nat, cfgr: bv32)
      returns (actualHz: nat)
      requires desiredHz > 0
      modifies this
      ensures this.name == name && initialized
      ensures var br := BrBits(PeripheralClock(name, hclk, cfgr) / desiredHz);
        cr1 == Enable(SetBr(Format(Mode(old(cr1), polarity, phase)), BrCode(br))) &&
        actualHz == Halved(PeripheralClock(name, hclk, cfgr), br + 1)
      ensures Regs() == OverrunCleared(old(Regs()), drAt)
    {
      this.name := name;
      initialized := false;
      cr1 := Mode(cr1, polarity, phase);
      cr1 := Format(cr1);
      actualHz := Speed(desiredHz, hclk, cfgr);
      cr1 := Enable(cr1);
      ClearOverrun();
      initialized := true;
    }

    /** SpiSpeed: the BR field from the halving loop, and the resulting frequency. */
    method Speed(desiredHz: nat, hclk: nat, cfgr: bv32) returns (actualHz: nat)
      requires desiredHz > 0
      modifies this`cr1
      ensures var br := BrBits(PeripheralClock(name, hclk, cfgr) / desiredHz);
        cr1 == SetBr(old(cr1), BrCode(br)) && actualHz == Halved(PeripheralClock(name, hclk, cfgr), br + 1)
    {
      var pclk := PeripheralClock(name, hclk, cfgr);
      var brBits := Prescale(pclk / desiredHz);
      cr1 := SetBr(cr1, BrCode(brBits));
      actualHz := Halved(pclk, brBits + 1);
    }

    /** SpiDeinit: not initialised, SPE cleared. */
    method Deinit()
      modifies this`initialized, this`cr1
      ensures !initialized && cr1 == Disable(old(cr1))
    {
      initialized := false;
      cr1 := Disable(cr1);
    }

    /** WaitFlagTimeout on this port's SR, the reads and delays recorded. */
    method Await(flag: Flag, state: bool) returns (ok: bool)
      modifies this`srReads, this`delays
      ensures (Regs(), ok) == WaitOn(old(Regs()), srAt, flag, state, waitMax)
    {
      var polls;
      ok, polls := WaitFlagTimeout(srAt, srReads, flag, state, waitMax);
      srReads, delays := srReads + polls + 1, delays + polls;
    }

    /** SpiClearOverrun. */
    method ClearOverrun()
      modifies this`trace, this`drReads, this`srReads
      ensures Regs() == OverrunCleared(old(Regs()), drAt)
    {
      var dummy := drAt(drReads);
      trace := trace + [Read(dummy)];
      drReads := drReads + 1;
      srReads := srReads + 1;
    }

    /** One DR read, its value logged. */
    method ReadDr() returns (b: byte)
      modifies this`trace, this`drReads
      ensures b == drAt(old(drReads)) && drReads == old(drReads) + 1 && trace == old(trace) + [Read(b)]
    {
      b := drAt(drReads);
      trace := trace + [Read(b)];
      drReads := drReads + 1;
    }

    /** One pass of the SpiTransfer loop, the overrun cleared when a wait times out; `v` is the byte read. */
    method ExchangeByte(b: byte) returns (ok: bool, v: byte)
      modifies this`trace, this`srReads, this`drReads, this`delays
      ensures (ok, Regs()) == ByteStep(old(Regs()), srAt, drAt, waitMax, b) && v == drAt(old(drReads))
    {
      v := drAt(drReads);
      ok := Await(Txe, true);
      if !ok {
        ClearOverrun();
        return;
      }
      trace := trace + [Write(b)];
      ok := Await(Rxne, true);
      if !ok {
        ClearOverrun();
        return;
      }
      v := ReadDr();
    }

    /** The final wait of SpiTransfer, the overrun cleared when it times out. */
    method FinishWait() returns (ok: bool)
      modifies this`trace, this`srReads, this`drReads, this`delays
      ensures (ok, Regs()) == Finish(old(Regs()), srAt, drAt, waitMax)
    {
      ok := Await(Bsy, false);
      if !ok {
        ClearOverrun();
      }
    }

    /** rxBuffer[i] = DR: the received byte stored after the ones before it. */
    static method Store(rx: array<byte>, i: nat, v: byte)
      requires i < rx.Length
      modifies rx
      ensures rx[..] == old(rx[..])[i := v]
    {
      rx[i] := v;
    }

    /** One pass of the SpiTransfer loop with the byte stored when a receive buffer is given. */
    method TransferByte(tx: array?<byte>, rx: array?<byte>, i: nat, ghost out: seq<byte>, ghost goal: (bool, Port, nat), ghost d0: nat, ghost rx0: seq<byte>)
      returns (ok: bool)
      requires i < |out| && Progress(Contents(tx), Contents(rx), Regs(), srAt, drAt, waitMax, out, goal, d0, rx0, i)
      modifies this`trace, this`srReads, this`drReads, this`delays, rx
      ensures ok ==> Progress(Contents(tx), Contents(rx), Regs(), srAt, drAt, waitMax, out, goal, d0, rx0, i + 1)
      ensures !ok ==> goal == (false, Regs(), i) && Received(Contents(rx), out, drAt, d0, rx0, i)
    {
      var b: byte := if tx != null then tx[i] else 0xFF;
      ghost var s0 := Regs();
      var v;
      ok, v := ExchangeByte(b);
      ContinuesStep(goal, s0, Regs(), ok, srAt, drAt, waitMax, out, i);
      if ok && rx != null {
        ghost var s1, t1, r1 := Regs(), Contents(tx), Contents(rx);
        Store(rx, i, v);
        ToSendNext(t1, Contents(tx), out, i);
        ReceivedNext(r1, Contents(rx), out, drAt, d0, rx0, i);
        assert Regs() == s1;
      }
    }

    /**
     * SpiTransfer: fails at once, touching nothing, when not initialised;
     * otherwise runs the exchange TransferFrom describes, sending the
     * transmit buffer (or 0xFF bytes) and, when a receive buffer is given,
     * storing in it each byte received, in order.
     */
    method Transfer(tx: array?<byte>, rx: array?<byte>, size: nat) returns (ok: bool)
      requires size < 256
      requires tx != null ==> size <= tx.Length
      requires rx != null ==> size <= rx.Length
      modifies this`trace, this`srReads, this`drReads, this`delays, rx
      ensures !old(initialized) ==> !ok && Regs() == old(Regs()) && (rx != null ==> rx[..] == old(rx[..]))
      ensures old(initialized) ==>
        var r := TransferFrom(old(Regs()), srAt, drAt, waitMax, Outgoing(if tx == null then None else Some(old(tx[..])), size), 0);
        ok == r.0 && Regs() == r.1 &&
        (rx != null ==> rx[..r.2] == DrRun(drAt, old(drReads), r.2) && rx[r.2..] == old(rx[r.2..]))
    {
      if !initialized {
        return false;
      }
      ghost var out := Outgoing(if tx == null then None else Some(tx[..]), size);
      ghost var goal := TransferFrom(Regs(), srAt, drAt, waitMax, out, 0);
      ghost var d0 := drReads;
      ghost var rx0 := if rx == null then [] else rx[..];
      var i := 0;
      while i < size
        invariant Progress(Contents(tx), Contents(rx), Regs(), srAt, drAt, waitMax, out, goal, d0, rx0, i)
      {
        ok := TransferByte(tx, rx, i, out, goal, d0, rx0);
        if !ok {
          return;
        }
        i := i + 1;
      }
      ghost var s0 := Regs();
      ok := FinishWait();
      ContinuesEnd(goal, s0, Regs(), ok, srAt, drAt, waitMax, out);
    }
  }
}
