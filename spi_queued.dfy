/**
 * The queued interrupt-driven SPI master of platforms/stm32f4xx/spi.c.
 *
 * SpiTransfer_IT puts a transaction into a ring buffer created without
 * overwrite and switches on the RXNE and TXE interrupts. The interrupt
 * handler takes the next transaction off the queue when none is current,
 * runs its pre hook, then on RXNE stores (or discards) the received byte,
 * on TXE sends the next byte, and on OVR clears the overrun condition.
 * When both counters reach zero the interrupts go off, the post hook and
 * the completion callback run, and nothing is current any more.
 *
 * The current transaction is held by value. The registers, CR1 settings,
 * blocking transfer and initialisation steps shared with spi/spi.c are
 * those of module Spi; the handler reads SR and DR from the same streams.
 */
module SpiQueued {
  import opened Common
  import opened Spi
  import Ring

  /** rxLen and txLen are 32-bit counters. */
  const U32_LIMIT: nat := 0x1_0000_0000

  /** `x--` on a 32-bit unsigned counter: zero wraps to the largest value. */
  function Dec32(x: nat): (r: nat)
    requires x < U32_LIMIT
    ensures r < U32_LIMIT
    ensures x > 0 ==> r + 1 == x
    ensures x == 0 ==> r == U32_LIMIT - 1
  {
    if x == 0 then U32_LIMIT - 1 else x - 1
  }

  /**
   * SPI_Transaction_t: `tx` is what txBuffer points at, `rxBuffer` whether
   * one is given and `rx` the bytes stored through it so far; the hooks and
   * the callback are optional.
   */
  datatype Transaction = Transaction(
    tx: seq<byte>,
    txLen: nat,
    rxBuffer: bool,
    rx: seq<byte>,
    rxLen: nat,
    preTransaction: Option<CallbackId>,
    postTransaction: Option<CallbackId>,
    onTransactionDone: Option<CallbackId>,
    context: nat)

  /** Both counters fit 32 bits and the transmit buffer holds txLen bytes. */
  predicate WellFormed(t: Transaction)
  {
    t.txLen <= |t.tx| && t.txLen < U32_LIMIT && t.rxLen < U32_LIMIT
  }

  /** The bytes still to send. */
  function Pending(t: Transaction): (s: seq<byte>)
    requires WellFormed(t)
    ensures |s| == t.txLen
  {
    t.tx[..t.txLen]
  }

  /** SPI_RESULT. */
  datatype SpiResult = SpiOk | SpiError | SpiQueueFull

  /** The CR2 interrupt enables: TXEIE, RXNEIE and ERRIE. */
  datatype Interrupts = Interrupts(txe: bool, rxne: bool, err: bool)

  /**
   * The engine as the handler and SpiTransfer_IT see it: the registers'
   * reads and log, the queued transactions, the current one, the interrupt
   * enables, and the transactions completed so far with the bytes they received.
   */
  datatype Engine = Engine(
    initialized: bool,
    port: Port,
    queue: seq<Transaction>,
    capacity: nat,
    current: Option<Transaction>,
    ie: Interrupts,
    finished: seq<Transaction>)

  /** The queue never overflows and every transaction in it, or current, is well formed. */
  predicate Inv(e: Engine)
  {
    Holds(e.queue, e.capacity, e.current)
  }

  /** Inv on the parts of the engine it constrains. */
  predicate Holds(queue: seq<Transaction>, capacity: nat, current: Option<Transaction>)
  {
    |queue| <= capacity &&
    (forall i :: 0 <= i < |queue| ==> WellFormed(queue[i])) &&
    (current.Some? ==> WellFormed(current.value))
  }

  function Log(e: Engine, ops: seq<SpiOp>): Engine
  {
    e.(port := e.port.(trace := e.port.trace + ops))
  }

  /** A hook or callback invoked with `arg` when it is set. */
  function Hook(e: Engine, cb: Option<CallbackId>, arg: nat): Engine
  {
    if cb.Some? then Log(e, [Call(cb.value, arg)]) else e
  }

  /** The ops a set hook adds. */
  function HookOps(cb: Option<CallbackId>, arg: nat): seq<SpiOp>
  {
    if cb.Some? then [Call(cb.value, arg)] else []
  }

  /** SpiDisableTxInterrupt then SpiDisableRxInterrupt. */
  function InterruptsOff(e: Engine): Engine
  {
    Log(e, [TxeIe(false), RxneIe(false)]).(ie := e.ie.(txe := false, rxne := false))
  }

  /**
   * SpiTransfer_IT: an error when not initialised, a full queue refused,
   * otherwise the transaction queued and RXNE then TXE interrupts enabled.
   */
  function Submit(e: Engine, t: Transaction): (r: (SpiResult, Engine))
    requires Inv(e) && WellFormed(t)
    ensures Inv(r.1)
  {
    if !e.initialized then (SpiError, e)
    else
      var put := Ring.Enqueue(e.queue, e.capacity, false, t);
      if !put.0 then (SpiQueueFull, e)
      else (SpiOk, Log(e, [RxneIe(true), TxeIe(true)]).(queue := put.1, ie := e.ie.(txe := true, rxne := true)))
  }

  /** Neither the queue nor the initialised flag changes. */
  predicate SameQueue(a: Engine, b: Engine)
  {
    a.queue == b.queue && a.capacity == b.capacity && a.initialized == b.initialized
  }

  /** The handler's working state: the engine and its copy of the current transaction, and whether that is still current. */
  datatype Work = Work(e: Engine, t: Transaction, live: bool)

  predicate WorkInv(w: Work)
  {
    Inv(w.e) && WellFormed(w.t) && w.e.current.None?
  }

  /** One SR read. */
  function ReadSr(w: Work, srAt: nat -> SrFlags): (r: (Work, SrFlags))
    ensures r.0 == w.(e := w.e.(port := w.e.port.(srReads := w.e.port.srReads + 1)))
  {
    (w.(e := w.e.(port := w.e.port.(srReads := w.e.port.srReads + 1))), srAt(w.e.port.srReads))
  }

  /** One DR read, logged. */
  function ReadDr(w: Work, drAt: nat -> byte): (r: (Work, byte))
  {
    var b := drAt(w.e.port.drReads);
    (w.(e := Log(w.e, [Read(b)]).(port := Log(w.e, [Read(b)]).port.(drReads := w.e.port.drReads + 1))), b)
  }

  /** `*(t->rxBuffer++) = DR; t->rxLen--` with a buffer, the byte discarded without one. */
  function Receive(w: Work, drAt: nat -> byte): (r: Work)
    requires WorkInv(w)
    ensures WorkInv(r)
    ensures Extends(w.e, r.e) && SameQueue(w.e, r.e)
  {
    var (w1, b) := ReadDr(w, drAt);
    if w.t.rxBuffer then w1.(t := w.t.(rx := w.t.rx + [b], rxLen := Dec32(w.t.rxLen))) else w1
  }

  /**
   * Completion: both interrupts off, postTransaction(NULL), nothing
   * current, then onTransactionDone(context).
   */
  function Complete(w: Work): (r: Work)
    requires WorkInv(w)
    ensures WorkInv(r)
    ensures Extends(w.e, r.e) && SameQueue(w.e, r.e)
  {
    var e1 := Hook(InterruptsOff(w.e), w.t.postTransaction, 0);
    var e2 := Hook(e1, w.t.onTransactionDone, w.t.context);
    Work(e2.(finished := e2.finished + [w.t]), w.t, false)
  }

  /** The RXNE branch of SpiIrqHandler. */
  function OnRxne(w: Work, srAt: nat -> SrFlags, drAt: nat -> byte): (r: Work)
    requires WorkInv(w)
    ensures WorkInv(r)
    ensures Extends(w.e, r.e) && SameQueue(w.e, r.e)
  {
    var (w1, sr) := ReadSr(w, srAt);
    if sr.rxne && w.e.ie.rxne then
      var w2 := Receive(w1, drAt);
      if w2.t.rxLen == 0 && w2.t.txLen == 0 then Complete(w2) else w2
    else w1
  }

  /** The TXE branch: the next byte written while txLen > 0. */
  function OnTxe(w: Work, srAt: nat -> SrFlags): (r: Work)
    requires WorkInv(w)
    ensures WorkInv(r)
    ensures Extends(w.e, r.e) && SameQueue(w.e, r.e)
  {
    var (w1, sr) := ReadSr(w, srAt);
    if sr.txe && w.e.ie.txe && w.t.txLen > 0 then
      w1.(e := Log(w1.e, [Write(w.t.tx[0])]), t := w.t.(tx := w.t.tx[1..], txLen := w.t.txLen - 1))
    else w1
  }

  /** The OVR branch: with ERRIE set, DR then SR read to clear the overrun. */
  function OnOvr(w: Work, srAt: nat -> SrFlags, drAt: nat -> byte): (r: Work)
    requires WorkInv(w)
    ensures WorkInv(r)
    ensures Extends(w.e, r.e) && SameQueue(w.e, r.e)
  {
    var (w1, sr) := ReadSr(w, srAt);
    if sr.ovr && w.e.ie.err then ReadSr(ReadDr(w1, drAt).0, srAt).0 else w1
  }

  /** A transaction still current is kept as the current one. */
  function Settle(w: Work): (e: Engine)
    requires WorkInv(w)
    ensures Inv(e)
  {
    if w.live then w.e.(current := Some(w.t)) else w.e
  }

  /** The handler once a transaction is current. */
  function Drive(e: Engine, srAt: nat -> SrFlags, drAt: nat -> byte): (r: Engine)
    requires Inv(e) && e.current.Some?
    ensures Inv(r)
  {
    var w := Work(e.(current := None), e.current.value, true);
    Settle(OnOvr(OnTxe(OnRxne(w, srAt, drAt), srAt), srAt, drAt))
  }

  /** The queue head made current and its pre hook run with its context. */
  function Start(e: Engine): (r: Engine)
    requires Inv(e) && e.current.None? && e.queue != []
    ensures Inv(r) && r.current == Some(e.queue[0])
  {
    var t := e.queue[0];
    Hook(e.(queue := e.queue[1..], current := Some(t)), t.preTransaction, t.context)
  }

  /** SpiIrqHandler. */
  function Handle(e: Engine, srAt: nat -> SrFlags, drAt: nat -> byte): (r: Engine)
    requires Inv(e)
    ensures Inv(r)
  {
    if e.current.None? && e.queue == [] then InterruptsOff(e)
    else Drive(if e.current.None? then Start(e) else e, srAt, drAt)
  }

  /**
   * SpiTransfer_IT refuses work without touching anything when not
   * initialised or when the queue is full; otherwise the transaction joins
   * the end of the queue and RXNE and TXE interrupts are on.
   */
  lemma SubmitOutcome(e: Engine, t: Transaction)
    requires Inv(e) && WellFormed(t)
    ensures var r := Submit(e, t);
      (r.0 == SpiError <==> !e.initialized) &&
      (r.0 == SpiQueueFull <==> e.initialized && |e.queue| == e.capacity) &&
      (r.0 != SpiOk ==> r.1 == e) &&
      (r.0 == SpiOk ==> r.1.queue == e.queue + [t] && r.1.ie.txe && r.1.ie.rxne) &&
      (r.0 == SpiOk ==> r.1.port.trace == e.port.trace + [RxneIe(true), TxeIe(true)] && r.1.current == e.current)
  {
    Ring.EnqueueBounded(e.queue, e.capacity, false, t);
  }

  /** With nothing current and nothing queued the handler only switches both interrupts off. */
  lemma IdleHandlerStops(e: Engine, srAt: nat -> SrFlags, drAt: nat -> byte)
    requires Inv(e) && e.current.None? && e.queue == []
    ensures var r := Handle(e, srAt, drAt);
      !r.ie.txe && !r.ie.rxne && r.ie.err == e.ie.err &&
      r.port == e.port.(trace := e.port.trace + [TxeIe(false), RxneIe(false)]) &&
      r.queue == e.queue && r.current == None && r.finished == e.finished
  {
  }

  /** The handler touches the queue only to take its head when nothing is current. */
  lemma DriveKeepsQueue(e: Engine, srAt: nat -> SrFlags, drAt: nat -> byte)
    requires Inv(e) && e.current.Some?
    ensures SameQueue(e, Drive(e, srAt, drAt))
  {
  }

  /** `a`'s trace is a prefix of `b`'s. */
  predicate Extends(a: Engine, b: Engine)
  {
    |a.port.trace| <= |b.port.trace| && b.port.trace[..|a.port.trace|] == a.port.trace
  }

  lemma ExtendsTrans(a: Engine, b: Engine, c: Engine)
    requires Extends(a, b) && Extends(b, c)
    ensures Extends(a, c)
  {
    assert c.port.trace[..|a.port.trace|] == c.port.trace[..|b.port.trace|][..|a.port.trace|];
  }

  /** The trace only grows during a handler call. */
  lemma {:induction false} DriveExtendsTrace(e: Engine, srAt: nat -> SrFlags, drAt: nat -> byte)
    requires Inv(e) && e.current.Some?
    ensures Extends(e, Drive(e, srAt, drAt))
  {
    var w := Work(e.(current := None), e.current.value, true);
    var w1 := OnRxne(w, srAt, drAt);
    var w2 := OnTxe(w1, srAt);
    var w3 := OnOvr(w2, srAt, drAt);
    ExtendsTrans(w.e, w1.e, w2.e);
    ExtendsTrans(w.e, w2.e, w3.e);
  }

  /**
   * When nothing is current the handler takes the queue head, runs its pre
   * hook first of all, with the transaction's context, and leaves the rest
   * of the queue for later.
   */
  lemma StartRunsPreHook(e: Engine, srAt: nat -> SrFlags, drAt: nat -> byte)
    requires Inv(e) && e.current.None? && e.queue != []
    ensures var t := e.queue[0]; var r := Handle(e, srAt, drAt); var pre := HookOps(t.preTransaction, t.context);
      r.queue == e.queue[1..] && Extends(Log(e, pre), r)
  {
    var s := Start(e);
    DriveKeepsQueue(s, srAt, drAt);
    DriveExtendsTrace(s, srAt, drAt);
    var t := e.queue[0];
    assert s.port.trace == e.port.trace + HookOps(t.preTransaction, t.context);
  }

  /**
   * On RXNE with the interrupt enabled a byte is read from DR; it is
   * stored, and rxLen counted down (wrapping at zero), only when the
   * transaction has a receive buffer.
   */
  lemma ReceiveStoresOnlyWithBuffer(w: Work, drAt: nat -> byte)
    requires WorkInv(w)
    ensures var r := Receive(w, drAt); var b := drAt(w.e.port.drReads);
      r.e.port.trace == w.e.port.trace + [Read(b)] && r.e.port.drReads == w.e.port.drReads + 1 &&
      (w.t.rxBuffer ==> r.t == w.t.(rx := w.t.rx + [b], rxLen := Dec32(w.t.rxLen))) &&
      (!w.t.rxBuffer ==> r.t == w.t)
  {
  }

  /**
   * Completion switches both interrupts off, then calls postTransaction
   * with NULL, then onTransactionDone with the context, in that order, and
   * hands the transaction back to its owner.
   */
  lemma CompletionOrder(w: Work)
    requires WorkInv(w)
    ensures var r := Complete(w);
      r.e.port.trace == w.e.port.trace + [TxeIe(false), RxneIe(false)] +
        HookOps(w.t.postTransaction, 0) + HookOps(w.t.onTransactionDone, w.t.context) &&
      !r.e.ie.txe && !r.e.ie.rxne && !r.live && r.e.current == None && r.e.finished == w.e.finished + [w.t]
  {
  }

  /** TXE sends the bytes of the transmit buffer in order: the first pending byte, once. */
  lemma TxeSendsNext(w: Work, srAt: nat -> SrFlags)
    requires WorkInv(w)
    ensures var r := OnTxe(w, srAt);
      (r.e.port.trace == w.e.port.trace && r.t == w.t) ||
      (w.t.txLen > 0 && r.e.port.trace == w.e.port.trace + [Write(Pending(w.t)[0])] && Pending(r.t) == Pending(w.t)[1..] &&
       r.t.rx == w.t.rx && r.t.rxLen == w.t.rxLen)
  {
    if w.t.txLen > 0 {
      assert Pending(w.t.(tx := w.t.tx[1..], txLen := w.t.txLen - 1)) == Pending(w.t)[1..];
    }
  }

  /**
   * A transaction completes exactly when, in one handler call, RXNE is
   * seen with its interrupt enabled and afterwards both counters are zero;
   * the completed transaction is the one that was current.
   */
  lemma CompletesWhenBothCountsZero(e: Engine, srAt: nat -> SrFlags, drAt: nat -> byte)
    requires Inv(e) && e.current.Some?
    ensures var r := Drive(e, srAt, drAt);
      var w := Work(e.(current := None), e.current.value, true);
      var fired := srAt(e.port.srReads).rxne && e.ie.rxne;
      var t := Receive(ReadSr(w, srAt).0, drAt).t;
      (r.current.None? <==> fired && t.rxLen == 0 && t.txLen == 0) &&
      (r.current.None? ==> r.finished == e.finished + [t]) &&
      (r.current.Some? ==> r.finished == e.finished)
  {
  }

  /**
   * A transaction without a receive buffer but with bytes to receive never
   * completes: rxLen is only counted down when there is a buffer.
   */
  lemma NullRxNeverCompletes(e: Engine, srAt: nat -> SrFlags, drAt: nat -> byte)
    requires Inv(e) && e.current.Some? && !e.current.value.rxBuffer && e.current.value.rxLen > 0
    ensures var r := Drive(e, srAt, drAt);
      r.current.Some? && !r.current.value.rxBuffer && r.current.value.rxLen == e.current.value.rxLen &&
      r.finished == e.finished
  {
  }

  /**
   * A receive buffer shorter than the transmit length makes rxLen wrap:
   * with rxLen already 0 and one byte still to send, the next byte
   * received leaves rxLen at 2^32 - 1 and the transaction current.
   */
  lemma RxLenWraps(e: Engine, srAt: nat -> SrFlags, drAt: nat -> byte)
    requires Inv(e) && e.current.Some? && e.current.value.rxBuffer
    requires e.current.value.rxLen == 0 && e.current.value.txLen == 1
    requires srAt(e.port.srReads).rxne && e.ie.rxne
    ensures var r := Drive(e, srAt, drAt); r.current.Some? && r.current.value.rxLen == U32_LIMIT - 1
  {
  }

  /** m_SpiIrq: the handle each SPIx_IRQHandler passes to the handler, as SpiInit records it. */
  class IrqTable {
    var handles: map<SpiName, SpiEngine>

    constructor ()
      ensures handles == map[]
    {
      handles := map[];
    }

    /** SPIx_IRQHandler: the handler on the handle recorded for `name`. */
    method Dispatch(name: SpiName)
      requires name in handles && handles[name].Valid()
      modifies handles[name], handles[name].port, handles[name].queue
      ensures handles == old(handles) && handles[name].Valid()
      ensures handles[name].Abs() == Handle(old(handles[name].Abs()), handles[name].port.srAt, handles[name].port.drAt)
    {
      handles[name].IrqHandler();
    }
  }

  class SpiEngine {
    /** The peripheral: name, initialized, CR1 and the SR/DR streams and log. */
    const port: SpiPort
    /** queue over the transactions storage. */
    var queue: Ring.Buffer<Transaction>
    /** currentTransaction, held by value. */
    var current: Option<Transaction>
    var ie: Interrupts
    /** Completed transactions with the bytes they received. */
    var finished: seq<Transaction>
    /** SpiInit's result: the SPI clock programmed. */
    var actualHz: nat

    ghost predicate Valid()
      reads this, queue, queue.data
    {
      queue.Valid() && !queue.overwrite && Holds(queue.Contents(), queue.Capacity(), current)
    }

    ghost function Abs(): Engine
      reads this, port, queue, queue.data
      requires queue.Valid()
    {
      Engine(port.initialized, port.Regs(), queue.Contents(), queue.Capacity(), current, ie, finished)
    }

    /**
     * SpiInit: the peripheral set up as in module Spi (mode, format, speed,
     * SPE, overrun cleared), the empty transaction queue created over
     * `storage`, nothing current, initialised, and the handle recorded in
     * m_SpiIrq. CR2 is not written: TXEIE and RXNEIE are off, ERRIE as
     * found. Pin, clock-enable and NVIC set-up are not part of this model.
     */
    constructor Init(name: SpiName, polarity: Polarity, phase: Phase, desiredHz: nat, hclk: nat, cfgr: bv32,
                     cr1: bv32, errIe: bool, srAt: nat -> SrFlags, drAt: nat -> byte,
                     storage: array<Transaction>, recordSize: nat, irq: IrqTable)
      requires desiredHz > 0
      requires recordSize > 0 && storage.Length > 0 && storage.Length * recordSize < 0x1_0000
      modifies irq
      ensures Valid() && fresh(port) && fresh(queue) && queue.data == storage
      ensures port.name == name && port.initialized && port.srAt == srAt && port.drAt == drAt
      ensures var br := BrBits(PeripheralClock(name, hclk, cfgr) / desiredHz);
        port.cr1 == Enable(SetBr(Format(Mode(cr1, polarity, phase)), BrCode(br))) &&
        actualHz == Halved(PeripheralClock(name, hclk, cfgr), br + 1)
      ensures port.Regs() == OverrunCleared(Port([], 0, 0, 0), drAt)
      ensures queue.Contents() == [] && queue.Capacity() == storage.Length - 1
      ensures current == None && ie == Interrupts(false, false, errIe) && finished == []
      ensures irq.handles == old(irq.handles)[name := this]
    {
      var p := new SpiPort(name, cr1, srAt, drAt);
      var hz := p.Init(name, polarity, phase, desiredHz, hclk, cfgr);
      port, actualHz := p, hz;
      queue := new Ring.Buffer(storage, storage.Length * recordSize, recordSize, false);
      current := None;
      ie := Interrupts(false, false, errIe);
      finished := [];
      new;
      irq.handles := irq.handles[name := this];
    }

    /** SpiDeinit: not initialised, nothing current, SPE cleared. */
    method Deinit()
      requires Valid()
      modifies this`current, port`initialized, port`cr1
      ensures Valid() && !port.initialized && current == None && port.cr1 == Disable(old(port.cr1))
      ensures Abs() == old(Abs()).(initialized := false, current := None)
    {
      current := None;
      port.Deinit();
    }

    /** SpiTransfer_IT. */
    method TransferIT(t: Transaction) returns (r: SpiResult)
      requires Valid() && WellFormed(t)
      modifies this`ie, port`trace, queue, queue.data
      ensures Valid() && queue == old(queue)
      ensures (r, Abs()) == Submit(old(Abs()), t)
    {
      if !port.initialized {
        return SpiError;
      }
      var ok := queue.Put(t);
      if !ok {
        return SpiQueueFull;
      }
      port.trace := port.trace + [RxneIe(true), TxeIe(true)];
      ie := ie.(txe := true, rxne := true);
      r := SpiOk;
    }

    /**
     * The blocking SpiTransfer of this file, the same code as in
     * spi/spi.c: it leaves the queue, the current transaction and the
     * interrupt enables alone.
     */
    method Transfer(tx: array?<byte>, rx: array?<byte>, size: nat) returns (ok: bool)
      requires Valid() && size < 256
      requires tx != null ==> size <= tx.Length
      requires rx != null ==> size <= rx.Length
      requires rx == null || rx as object != queue.data as object
      modifies port`trace, port`srReads, port`drReads, port`delays, rx
      ensures Valid() && current == old(current) && ie == old(ie) && queue.Contents() == old(queue.Contents())
      ensures !old(port.initialized) ==> !ok && port.Regs() == old(port.Regs()) && (rx != null ==> rx[..] == old(rx[..]))
      ensures old(port.initialized) ==>
        var r := TransferFrom(old(port.Regs()), port.srAt, port.drAt, port.waitMax,
                              Outgoing(if tx == null then None else Some(old(tx[..])), size), 0);
        ok == r.0 && port.Regs() == r.1 &&
        (rx != null ==> rx[..r.2] == DrRun(port.drAt, old(port.drReads), r.2) && rx[r.2..] == old(rx[r.2..]))
    {
      ghost var e := Abs();
      ok := port.Transfer(tx, rx, size);
      assert queue.Contents() == e.queue;
      assert Abs() == e.(port := port.Regs());
    }

    /** SpiIrqHandler. */
    method IrqHandler()
      requires Valid()
      modifies this, port, queue
      ensures Valid() && queue == old(queue)
      ensures Abs() == Handle(old(Abs()), port.srAt, port.drAt)
    {
      if current.None? {
        var ok := TakeNext();
        if !ok {
          return;
        }
      }
      DriveCurrent();
    }

    /**
     * With nothing current: the next transaction taken off the queue and
     * its pre hook run, or, with the queue empty, both interrupts off.
     */
    method TakeNext() returns (ok: bool)
      requires Valid() && current.None?
      modifies this`current, this`ie, port`trace, queue
      ensures Valid() && queue == old(queue)
      ensures ok <==> old(queue.Contents()) != []
      ensures ok ==> Abs() == Start(old(Abs()))
      ensures !ok ==> Abs() == InterruptsOff(old(Abs()))
    {
      var next;
      ok, next := queue.Get(Transaction([], 0, false, [], 0, None, None, None, 0));
      if !ok {
        port.trace := port.trace + [TxeIe(false), RxneIe(false)];
        ie := ie.(txe := false, rxne := false);
        return;
      }
      current := Some(next);
      if next.preTransaction.Some? {
        port.trace := port.trace + [Call(next.preTransaction.value, next.context)];
      }
    }

    /** The handler once a transaction is current. */
    method DriveCurrent()
      requires Valid() && current.Some?
      modifies this`current, this`ie, this`finished, port`trace, port`srReads, port`drReads
      ensures Valid() && Abs() == Drive(old(Abs()), port.srAt, port.drAt)
    {
      ghost var e := Abs();
      var t := current.value;
      current := None;
      ghost var w0 := Work(Abs(), t, true);
      assert w0 == Work(e.(current := None), e.current.value, true);
      var live;
      t, live := RxnePhase(t);
      ghost var w1 := Work(Abs(), t, live);
      t := TxePhase(t, live);
      ghost var w2 := Work(Abs(), t, live);
      assert w2 == OnTxe(OnRxne(w0, port.srAt, port.drAt), port.srAt);
      OvrPhase(t, live);
      ghost var w3 := Work(Abs(), t, live);
      assert w3 == OnOvr(w2, port.srAt, port.drAt);
      if live {
        current := Some(t);
      }
      assert Abs() == Settle(w3);
    }

    /** The RXNE branch of the handler. */
    method RxnePhase(t: Transaction) returns (t': Transaction, live: bool)
      requires Valid() && WorkInv(Work(Abs(), t, true))
      modifies this`ie, this`finished, port`trace, port`srReads, port`drReads
      ensures Valid() && current == old(current) && WorkInv(Work(Abs(), t', live))
      ensures Work(Abs(), t', live) == OnRxne(Work(old(Abs()), t, true), port.srAt, port.drAt)
    {
      ghost var w := Work(Abs(), t, true);
      var sr := port.srAt(port.srReads);
      port.srReads := port.srReads + 1;
      assert (Work(Abs(), t, true), sr) == ReadSr(w, port.srAt);
      t', live := t, true;
      if sr.rxne && ie.rxne {
        t' := ReceiveByte(t);
        if t'.rxLen == 0 && t'.txLen == 0 {
          CompleteWith(t');
          live := false;
        }
      }
    }

    /** One byte read from DR, stored when there is a receive buffer. */
    method ReceiveByte(t: Transaction) returns (t': Transaction)
      requires Valid() && WorkInv(Work(Abs(), t, true))
      modifies port`trace, port`drReads
      ensures Valid() && Work(Abs(), t', true) == Receive(Work(old(Abs()), t, true), port.drAt)
    {
      var b := port.ReadDr();
      t' := t;
      if t.rxBuffer {
        t' := t.(rx := t.rx + [b], rxLen := Dec32(t.rxLen));
      }
    }

    method CompleteWith(t: Transaction)
      requires Valid() && WorkInv(Work(Abs(), t, true))
      modifies this`ie, this`finished, port`trace
      ensures Valid() && current == old(current) && Work(Abs(), t, false) == Complete(Work(old(Abs()), t, true))
    {
      port.trace := port.trace + [TxeIe(false), RxneIe(false)];
      ie := ie.(txe := false, rxne := false);
      if t.postTransaction.Some? {
        port.trace := port.trace + [Call(t.postTransaction.value, 0)];
      }
      if t.onTransactionDone.Some? {
        port.trace := port.trace + [Call(t.onTransactionDone.value, t.context)];
      }
      finished := finished + [t];
    }

    method TxePhase(t: Transaction, live: bool) returns (t': Transaction)
      requires Valid() && WorkInv(Work(Abs(), t, live))
      modifies port`trace, port`srReads
      ensures Valid() && WorkInv(Work(Abs(), t', live))
      ensures Work(Abs(), t', live) == OnTxe(Work(old(Abs()), t, live), port.srAt)
    {
      var sr := port.srAt(port.srReads);
      port.srReads := port.srReads + 1;
      t' := t;
      if sr.txe && ie.txe && t.txLen > 0 {
        port.trace := port.trace + [Write(t.tx[0])];
        t' := t.(tx := t.tx[1..], txLen := t.txLen - 1);
      }
    }

    method OvrPhase(t: Transaction, live: bool)
      requires Valid() && WorkInv(Work(Abs(), t, live))
      modifies port`trace, port`srReads, port`drReads
      ensures Valid() && Work(Abs(), t, live) == OnOvr(Work(old(Abs()), t, live), port.srAt, port.drAt)
    {
      var sr := port.srAt(port.srReads);
      port.srReads := port.srReads + 1;
      if sr.ovr && ie.err {
        var b := port.drAt(port.drReads);
        port.trace := port.trace + [Read(b)];
        port.drReads := port.drReads + 1;
        port.srReads := port.srReads + 1;
      }
    }
  }
}
