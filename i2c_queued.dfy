/**
 * The queued interrupt-driven I2C master of platforms/stm32f411/i2c.c.
 *
 * Submitted transactions wait in a ring buffer created without overwrite;
 * the one being driven is always the queue head (`currentTransaction`
 * points into the buffer's storage). Each call of the event handler tests
 * SB, ADDR, BTF, TXE and RXNE in that order and advances the head
 * transaction; on completion it is removed, the interrupts are switched
 * off and its callback is invoked.
 *
 * The functions below give the meaning of every operation on an abstract
 * state `Engine`; the class `I2cEngine` holds the driver's fields and is
 * proved to follow them.
 */
module I2cQueued {
  import opened Common
  import opened I2cTypes
  import I2cClock
  import Ring

  /** I2C_Transaction_t; `tx` is what txBuffer points at, `rx` what has been stored through rxBuffer. */
  datatype Transaction = Transaction(
    state: XferState,
    devAddress: byte,
    tx: seq<byte>,
    txLen: nat,
    rx: seq<byte>,
    rxLen: nat,
    onTxDone: Option<CallbackId>,
    onRxDone: Option<CallbackId>,
    context: nat)

  /** The transmit buffer holds at least txLen bytes. */
  predicate WellFormed(t: Transaction)
  {
    t.txLen <= |t.tx|
  }

  /** I2C_RESULT. */
  datatype Result = Ok | Error | QueueFull

  /** I2C_Config_t as I2C_Init reads it; `speed` is the numeric value of the speed enumerator. */
  datatype Config = Config(mode: I2cClock.SpeedMode, speed: nat, dutyCycle: bool, ackControl: bool)

  /**
   * The engine as the handler and the submits see it: the queued
   * transactions, whether the head is current, the control bits, the
   * register actions so far, the bytes DR will return next, and the
   * transactions completed so far, each as it stood when it completed.
   */
  datatype Engine = Engine(
    initialized: bool,
    queue: seq<Transaction>,
    capacity: nat,
    current: bool,
    ctl: Control,
    trace: seq<BusOp>,
    dataIn: seq<byte>,
    finished: seq<Transaction>)

  /**
   * The queue never overflows, a current transaction is the queue head,
   * and every queued transaction is busy and well formed.
   */
  predicate Inv(e: Engine)
  {
    |e.queue| <= e.capacity &&
    (e.current ==> e.queue != []) &&
    (forall i :: 0 <= i < |e.queue| ==> e.queue[i].state != Idle && WellFormed(e.queue[i]))
  }

  /** I2C_MasterTransmit_IT (dir BusyTx) and I2C_MasterReceive_IT (dir BusyRx): the result, the caller's transaction afterwards, and the engine. */
  function Submit(e: Engine, t: Transaction, dir: XferState): (r: (Result, Transaction, Engine))
    requires Inv(e) && WellFormed(t) && dir != Idle
    ensures Inv(r.2)
  {
    if !e.initialized then (Error, t, e)
    else
      var t' := t.(state := dir);
      var put := Ring.Enqueue(e.queue, e.capacity, false, t');
      if !put.0 then (QueueFull, t', e)
      else (Ok, t', e.(queue := put.1, ctl := InterruptsOn(e.ctl), trace := e.trace + [Start]))
  }

  /** The handler's working state: the engine, its local copy of the current transaction, and whether it is still current. */
  datatype Work = Work(e: Engine, t: Transaction, live: bool)

  predicate WorkInv(w: Work)
  {
    Inv(w.e) &&
    (w.live ==> w.e.current && w.t.state != Idle && WellFormed(w.t)) &&
    (!w.live ==> w.t.state == Idle)
  }

  function Emit(w: Work, ops: seq<BusOp>): Work
  {
    w.(e := w.e.(trace := w.e.trace + ops))
  }

  function SetAck(w: Work, on: bool): Work
  {
    w.(e := w.e.(ctl := w.e.ctl.(ack := on)))
  }

  /** `*t->rxBuffer++ = DR; t->rxLen--`. */
  function ReadByte(w: Work): Work
    requires |w.e.dataIn| > 0 && w.t.rxLen > 0
  {
    var b := w.e.dataIn[0];
    Work(w.e.(dataIn := w.e.dataIn[1..], trace := w.e.trace + [ReadDr(b)]),
         w.t.(rx := w.t.rx + [b], rxLen := w.t.rxLen - 1), w.live)
  }

  /** Completion: idle, no current transaction, interrupts off, head dequeued, callback invoked if set. */
  function Complete(w: Work, callback: Option<CallbackId>): Work
    requires w.e.queue != []
  {
    var t := w.t.(state := Idle);
    var e := w.e.(current := false, ctl := InterruptsOff(w.e.ctl), queue := w.e.queue[1..],
                  finished := w.e.finished + [t]);
    Work(if callback.Some? then e.(trace := e.trace + [Call(callback.value, t.context)]) else e, t, false)
  }

  /** SB: send the address byte with the direction bit. */
  function OnSb(w: Work): (r: Work)
    requires WorkInv(w)
    ensures WorkInv(r) && r.t == w.t && r.e.dataIn == w.e.dataIn
  {
    Emit(w, [SendAddress(AddressByte(w.t))])
  }

  /** The address byte for SB: R/W clear for a transmit, set otherwise. */
  function AddressByte(t: Transaction): (b: byte)
    ensures b >> 1 == t.devAddress & 0x7F
    ensures b & 1 == 1 <==> t.state != BusyTx
  {
    if t.state == BusyTx then AddressWrite(t.devAddress) else AddressRead(t.devAddress)
  }

  /** ADDR: clear it; in receive, set ACK, POS and STOP for the number of bytes to come. */
  function OnAddr(w: Work): (r: Work)
    requires WorkInv(w)
    ensures WorkInv(r) && r.t == w.t && r.e.dataIn == w.e.dataIn
  {
    match w.t.state
    case Idle => w
    case BusyTx => Emit(w, [ClearAddr])
    case BusyRx =>
      var (c, ops) := AddrReceive(w.t.rxLen, w.e.ctl);
      Work(w.e.(ctl := c, trace := w.e.trace + ops), w.t, w.live)
  }

  /** The handler may still read DR once more for RXNE. */
  predicate CanReadForRxne(w: Work)
  {
    w.t.state == BusyRx && (w.t.rxLen > 3 || w.t.rxLen == 1) ==> |w.e.dataIn| >= 1
  }

  /** BTF: end a transmit whose bytes are all out; in receive, the last three bytes. */
  function OnBtf(w: Work): (r: Work)
    requires WorkInv(w) && |w.e.dataIn| >= 2
    ensures WorkInv(r) && CanReadForRxne(r)
  {
    match w.t.state
    case Idle => w
    case BusyTx =>
      if w.t.txLen == 0 then Complete(Emit(w, [Stop]), w.t.onTxDone) else w
    case BusyRx =>
      if w.t.rxLen == 3 then ReadByte(Emit(SetAck(w, false), [AckOff]))
      else if w.t.rxLen == 2 then Complete(ReadByte(ReadByte(Emit(w, [Stop]))), w.t.onRxDone)
      else w
  }

  /** TXE: write the next transmit byte while any remain. */
  function OnTxe(w: Work): (r: Work)
    requires WorkInv(w)
    ensures WorkInv(r) && (CanReadForRxne(w) ==> CanReadForRxne(r))
  {
    if w.t.state == BusyTx && w.t.txLen > 0 then
      Work(w.e.(trace := w.e.trace + [WriteDr(w.t.tx[0])]),
           w.t.(tx := w.t.tx[1..], txLen := w.t.txLen - 1), w.live)
    else w
  }

  /** RXNE: read a byte while more than three remain, or the last one, which completes. */
  function OnRxne(w: Work): (r: Work)
    requires WorkInv(w) && CanReadForRxne(w)
    ensures WorkInv(r)
  {
    if w.t.state == BusyRx then
      if w.t.rxLen > 3 then ReadByte(w)
      else if w.t.rxLen == 1 then Complete(ReadByte(w), w.t.onRxDone)
      else w
    else w
  }

  /** Write the working copy back into the head slot if it is still current. */
  function Finish(w: Work): (e: Engine)
    requires WorkInv(w)
    ensures Inv(e)
  {
    if w.live then w.e.(queue := [w.t] + w.e.queue[1..]) else w.e
  }

  /** SB, ADDR and BTF in the handler's order, each only while the event interrupt is enabled. */
  function Early(w: Work, f: Sr1, evt: bool): (r: Work)
    requires WorkInv(w) && |w.e.dataIn| >= 2
    ensures WorkInv(r) && CanReadForRxne(r)
  {
    var w1 := if evt && f.sb then OnSb(w) else w;
    var w2 := if evt && f.addr then OnAddr(w1) else w1;
    if evt && f.btf then OnBtf(w2) else w2
  }

  /** TXE and RXNE, which also need the buffer interrupt enabled. */
  function Late(w: Work, f: Sr1, evt: bool, buf: bool): (r: Work)
    requires WorkInv(w) && CanReadForRxne(w)
    ensures WorkInv(r)
  {
    var w4 := if evt && buf && f.txe then OnTxe(w) else w;
    if evt && buf && f.rxne then OnRxne(w4) else w4
  }

  /**
   * I2C_IrqEventHandler: one call with SR1 showing `f`. With nothing
   * current and nothing queued it does nothing; otherwise the queue head
   * becomes current and the enabled phases run on it.
   */
  function Handle(e: Engine, f: Sr1): (r: Engine)
    requires Inv(e) && |e.dataIn| >= 2
    ensures Inv(r)
  {
    if !e.current && e.queue == [] then e
    else Finish(Worked(e, f))
  }

  /** The working state after every enabled phase has run on the head. */
  function Worked(e: Engine, f: Sr1): (w: Work)
    requires Inv(e) && |e.dataIn| >= 2 && e.queue != []
    ensures WorkInv(w)
  {
    Late(Early(Begin(e), f, e.ctl.evtIe), f, e.ctl.evtIe, e.ctl.bufIe)
  }

  /** The handler's start: the queue head becomes (or stays) current. */
  function Begin(e: Engine): (w: Work)
    requires Inv(e) && e.queue != []
    ensures WorkInv(w) && w.live && w.t == e.queue[0]
  {
    Work(e.(current := true), e.queue[0], true)
  }

  class I2cEngine {
    var name: I2cName
    var config: Config
    var initialized: bool
    /** queue over the transactions storage. */
    var queue: Ring.Buffer<Transaction>
    /** currentTransaction != NULL; it then points at the queue head. */
    var current: bool
    var ctl: Control
    /** CR2 FREQ, CCR and TRISE as I2C_Init programs them. */
    var freq: nat
    var ccr: I2cClock.Ccr
    var trise: nat
    /** Register actions so far. */
    var trace: seq<BusOp>
    /** What DR returns on the next reads. */
    var dataIn: seq<byte>
    /** Completed transactions, each as it stood when it completed. */
    var finished: seq<Transaction>

    ghost predicate Valid()
      reads this, queue, queue.data
    {
      queue.Valid() && !queue.overwrite && Inv(Abs())
    }

    ghost function Abs(): Engine
      reads this, queue, queue.data
      requires queue.Valid()
    {
      Engine(initialized, queue.Contents(), queue.Capacity(), current, ctl, trace, dataIn, finished)
    }

    /**
     * I2C_Init: programs the clock registers from PCLK1, sets or clears ACK
     * as configured, creates the empty transaction queue over `storage`
     * (records of `recordSize` bytes), clears the current transaction,
     * enables the peripheral and marks the engine initialized. Writing CR2
     * leaves every interrupt disabled. `cfgr` is RCC_CFGR.
     */
    constructor Init(name: I2cName, config: Config, cfgr: bv32, storage: array<Transaction>, recordSize: nat,
                     incoming: seq<byte>, irq: IrqTable)
      requires cfgr & I2cClock.SWS_MASK != I2cClock.SWS_MASK
      requires config.speed > 0
      requires recordSize > 0 && storage.Length > 0 && storage.Length * recordSize < 0x1_0000
      ensures Valid() && fresh(queue) && queue.data == storage
      ensures this.name == name && this.config == config
      ensures initialized && !current && queue.Contents() == [] && queue.Capacity() == storage.Length - 1
      ensures ctl == Control(config.ackControl, false, true, false, false, false)
      ensures freq == I2cClock.FrequencyField(I2cClock.Pclk1(cfgr))
      ensures ccr == I2cClock.InitCcr(I2cClock.Pclk1(cfgr), config.mode, config.speed, config.dutyCycle)
      ensures trise == I2cClock.RiseTime(I2cClock.Pclk1(cfgr), config.mode)
      ensures trace == [] && dataIn == incoming && finished == []
      ensures irq.i2c1 == if name == I2c1 then this else old(irq.i2c1)
      modifies irq
    {
      this.name := name;
      this.config := config;
      var pclk := I2cClock.Pclk1(cfgr);
      freq := I2cClock.FrequencyField(pclk);
      ccr := I2cClock.InitCcr(pclk, config.mode, config.speed, config.dutyCycle);
      var cr1 := Control(config.ackControl, false, false, false, false, false);
      trise := I2cClock.RiseTime(pclk, config.mode);
      queue := new Ring.Buffer(storage, storage.Length * recordSize, recordSize, false);
      current := false;
      ctl := cr1.(pe := true);
      initialized := true;
      trace := [];
      dataIn := incoming;
      finished := [];
      new;
      if name == I2c1 {
        irq.i2c1 := this;
      }
    }

    /** I2C_Deinit: the peripheral is disabled and the engine no longer initialized. */
    method Deinit()
      requires Valid() && initialized
      modifies this
      ensures Valid() && !initialized && !ctl.pe
      ensures ctl == old(ctl).(pe := false) && queue == old(queue)
      ensures Abs() == old(Abs()).(initialized := false, ctl := old(ctl).(pe := false))
    {
      ctl := ctl.(pe := false);
      initialized := false;
    }

    method SubmitAs(t: Transaction, dir: XferState) returns (r: Result, caller: Transaction)
      requires Valid() && WellFormed(t) && dir != Idle
      modifies this, queue, queue.data
      ensures Valid() && queue == old(queue) && name == old(name) && config == old(config)
      ensures freq == old(freq) && ccr == old(ccr) && trise == old(trise)
      ensures (r, caller, Abs()) == Submit(old(Abs()), t, dir)
    {
      if !initialized {
        return Error, t;
      }
      caller := t.(state := dir);
      var ok := queue.Put(caller);
      if !ok {
        return QueueFull, caller;
      }
      ctl := InterruptsOn(ctl);
      trace := trace + [Start];
      r := Ok;
    }

    /** I2C_MasterTransmit_IT. */
    method MasterTransmitIT(t: Transaction) returns (r: Result, caller: Transaction)
      requires Valid() && WellFormed(t)
      modifies this, queue, queue.data
      ensures Valid() && queue == old(queue) && name == old(name) && config == old(config)
      ensures freq == old(freq) && ccr == old(ccr) && trise == old(trise)
      ensures (r, caller, Abs()) == Submit(old(Abs()), t, BusyTx)
    {
      r, caller := SubmitAs(t, BusyTx);
    }

    /** I2C_MasterReceive_IT. */
    method MasterReceiveIT(t: Transaction) returns (r: Result, caller: Transaction)
      requires Valid() && WellFormed(t)
      modifies this, queue, queue.data
      ensures Valid() && queue == old(queue) && name == old(name) && config == old(config)
      ensures freq == old(freq) && ccr == old(ccr) && trise == old(trise)
      ensures (r, caller, Abs()) == Submit(old(Abs()), t, BusyRx)
    {
      r, caller := SubmitAs(t, BusyRx);
    }

    /** `*t->rxBuffer++ = DR; t->rxLen--` on the working copy. */
    method Read(t: Transaction, live: bool) returns (t': Transaction)
      requires Valid() && |dataIn| > 0 && t.rxLen > 0
      modifies this`dataIn, this`trace
      ensures Valid() && Work(Abs(), t', live) == ReadByte(Work(old(Abs()), t, live))
    {
      var b := dataIn[0];
      dataIn := dataIn[1..];
      trace := trace + [ReadDr(b)];
      t' := t.(rx := t.rx + [b], rxLen := t.rxLen - 1);
    }

    /** The completion sequence of the BTF and RXNE branches. */
    method CompleteCurrent(t: Transaction, callback: Option<CallbackId>) returns (t': Transaction)
      requires Valid() && current
      modifies this`current, this`ctl, this`finished, this`trace, queue
      ensures queue.data == old(queue.data)
      ensures Valid() && !t'.state.BusyTx? && Work(Abs(), t', false) == Complete(Work(old(Abs()), t, true), callback)
    {
      t' := t.(state := Idle);
      current := false;
      ctl := InterruptsOff(ctl);
      var _, _ := queue.Get(t');
      finished := finished + [t'];
      if callback.Some? {
        trace := trace + [Call(callback.value, t'.context)];
      }
    }

    method SbPhase(t: Transaction, live: bool)
      requires Valid() && WorkInv(Work(Abs(), t, live))
      modifies this`trace
      ensures Valid() && Work(Abs(), t, live) == OnSb(Work(old(Abs()), t, live))
    {
      if t.state == BusyTx {
        trace := trace + [SendAddress(AddressWrite(t.devAddress))];
      } else {
        trace := trace + [SendAddress(AddressRead(t.devAddress))];
      }
    }

    method AddrPhase(t: Transaction, live: bool)
      requires Valid() && WorkInv(Work(Abs(), t, live))
      modifies this`trace, this`ctl
      ensures Valid() && Work(Abs(), t, live) == OnAddr(Work(old(Abs()), t, live))
    {
      if t.state == BusyTx {
        trace := trace + [ClearAddr];
      } else if t.state == BusyRx {
        var (c, ops) := AddrReceive(t.rxLen, ctl);
        ctl := c;
        trace := trace + ops;
      }
    }

    method BtfPhase(t: Transaction, live: bool) returns (t': Transaction, live': bool)
      requires Valid() && WorkInv(Work(Abs(), t, live)) && |dataIn| >= 2
      modifies this`trace, this`ctl, this`dataIn, this`current, this`finished, queue
      ensures queue.data == old(queue.data)
      ensures Valid() && Work(Abs(), t', live') == OnBtf(Work(old(Abs()), t, live))
    {
      t', live' := t, live;
      if t.state == BusyTx {
        if t.txLen == 0 {
          trace := trace + [Stop];
          t' := CompleteCurrent(t, t.onTxDone);
          live' := false;
        }
      } else if t.state == BusyRx {
        if t.rxLen == 3 {
          ctl := ctl.(ack := false);
          trace := trace + [AckOff];
          t' := Read(t, live);
        } else if t.rxLen == 2 {
          trace := trace + [Stop];
          t' := Read(t, live);
          t' := Read(t', live);
          t' := CompleteCurrent(t', t.onRxDone);
          live' := false;
        }
      }
    }

    method TxePhase(t: Transaction, live: bool) returns (t': Transaction)
      requires Valid() && WorkInv(Work(Abs(), t, live))
      modifies this`trace
      ensures Valid() && Work(Abs(), t', live) == OnTxe(Work(old(Abs()), t, live))
    {
      t' := t;
      if t.state == BusyTx && t.txLen > 0 {
        trace := trace + [WriteDr(t.tx[0])];
        t' := t.(tx := t.tx[1..], txLen := t.txLen - 1);
      }
    }

    method RxnePhase(t: Transaction, live: bool) returns (t': Transaction, live': bool)
      requires Valid() && WorkInv(Work(Abs(), t, live)) && CanReadForRxne(Work(Abs(), t, live))
      modifies this`trace, this`ctl, this`dataIn, this`current, this`finished, queue
      ensures queue.data == old(queue.data)
      ensures Valid() && Work(Abs(), t', live') == OnRxne(Work(old(Abs()), t, live))
    {
      t', live' := t, live;
      if t.state == BusyRx {
        if t.rxLen > 3 {
          t' := Read(t, live);
        } else if t.rxLen == 1 {
          t' := Read(t, live);
          t' := CompleteCurrent(t', t.onRxDone);
          live' := false;
        }
      }
    }

    method EarlyPhases(t: Transaction, f: Sr1, evt: bool) returns (t': Transaction, live': bool)
      requires Valid() && WorkInv(Work(Abs(), t, true)) && |dataIn| >= 2
      modifies this`trace, this`ctl, this`dataIn, this`current, this`finished, queue
      ensures queue.data == old(queue.data)
      ensures Valid() && Work(Abs(), t', live') == Early(Work(old(Abs()), t, true), f, evt)
    {
      ghost var w := Work(Abs(), t, true);
      if evt && f.sb {
        SbPhase(t, true);
        w := OnSb(w);
      }
      if evt && f.addr {
        AddrPhase(t, true);
        w := OnAddr(w);
      }
      assert w == Work(Abs(), t, true);
      t', live' := t, true;
      if evt && f.btf {
        t', live' := BtfPhase(t, true);
      }
    }

    method LatePhases(t: Transaction, live: bool, f: Sr1, evt: bool, buf: bool) returns (t': Transaction, live': bool)
      requires Valid() && WorkInv(Work(Abs(), t, live)) && CanReadForRxne(Work(Abs(), t, live))
      modifies this`trace, this`ctl, this`dataIn, this`current, this`finished, queue
      ensures queue.data == old(queue.data)
      ensures Valid() && Work(Abs(), t', live') == Late(Work(old(Abs()), t, live), f, evt, buf)
    {
      t', live' := t, live;
      if evt && buf && f.txe {
        t' := TxePhase(t, live);
      }
      if evt && buf && f.rxne {
        t', live' := RxnePhase(t', live);
      }
    }

    /** I2C_IrqEventHandler. */
    method IrqEventHandler(f: Sr1)
      requires Valid() && |dataIn| >= 2
      modifies this, queue, queue.data
      ensures Valid() && queue == old(queue) && name == old(name) && config == old(config)
      ensures freq == old(freq) && ccr == old(ccr) && trise == old(trise)
      ensures Abs() == Handle(old(Abs()), f)
    {
      if !current {
        if queue.IsEmpty() {
          return;
        }
        current := true;
      }
      Drive(f);
    }

    /** The handler once the queue head is current. */
    method Drive(f: Sr1)
      requires Valid() && current && |dataIn| >= 2
      modifies this`trace, this`ctl, this`dataIn, this`current, this`finished, queue, queue.data
      ensures Valid() && queue == old(queue)
      ensures Abs() == Finish(Late(Early(Work(old(Abs()), old(Abs()).queue[0], true), f, old(ctl).evtIe),
                                   f, old(ctl).evtIe, old(ctl).bufIe))
    {
      var t := queue.Front().value;
      var evt, buf := ctl.evtIe, ctl.bufIe;
      ghost var w0 := Work(Abs(), t, true);
      var live;
      t, live := EarlyPhases(t, f, evt);
      t, live := LatePhases(t, live, f, evt, buf);
      ghost var w2 := Work(Abs(), t, live);
      assert w2 == Late(Early(w0, f, evt), f, evt, buf);
      WriteBack(t, live);
    }

    /** A transaction still current is stored back through currentTransaction. */
    method WriteBack(t: Transaction, live: bool)
      requires Valid() && WorkInv(Work(Abs(), t, live))
      modifies queue.data
      ensures Valid() && Abs() == Finish(Work(old(Abs()), t, live))
    {
      if live {
        queue.ReplaceFront(t);
      }
    }
  }

  /**
   * m_I2CIrq: the handles the interrupt vectors use. I2C_Init records only
   * an I2C_1 handle, and only the I2C1 event vector is wired to the event
   * handler, so I2C2 and I2C3 engines never see their interrupts.
   */
  class IrqTable {
    var i2c1: I2cEngine?

    constructor ()
      ensures i2c1 == null
    {
      i2c1 := null;
    }

    /** I2C1_EV_IRQHandler: the event handler on the recorded I2C_1 handle. */
    method I2c1EventIrq(f: Sr1)
      requires i2c1 != null && i2c1.Valid() && |i2c1.dataIn| >= 2
      modifies i2c1, i2c1.queue, i2c1.queue.data
      ensures i2c1 == old(i2c1) && i2c1.Valid()
      ensures i2c1.Abs() == Handle(old(i2c1.Abs()), f)
    {
      i2c1.IrqEventHandler(f);
    }
  }
}
