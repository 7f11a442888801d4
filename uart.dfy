/**
 * The interrupt-driven USART transmitter of uart/uart.c.
 *
 * UartWrite puts bytes into a byte ring buffer created with overwrite on
 * and, when no transmission is running, starts one: the first byte goes to
 * DR and the TXE interrupt is enabled. Each TXE interrupt sends the next
 * queued byte; with the queue empty it switches TXE off and TC on, and the
 * TC interrupt ends the transmission (isTransmitting false,
 * isTransmitCompeted true). UartIdle reports isTransmitCompeted.
 *
 * The control bits are those of USART_CR1 and USART_CR2 in section 19.6
 * of RM0383 (STM32F411 reference manual). SR is an input stream read once
 * per access; DR writes and the TC clear are logged in order.
 */
module Uart {
  import opened Common
  import Ring

  datatype UartName = Uart1 | Uart6

  /** USART_CR1 bits. */
  const CR1_RE: bv32 := 0x0004
  const CR1_TE: bv32 := 0x0008
  const CR1_TCIE: bv32 := 0x0040
  const CR1_TXEIE: bv32 := 0x0080
  const CR1_PCE: bv32 := 0x0400
  const CR1_M: bv32 := 0x1000
  const CR1_UE: bv32 := 0x2000
  const CR1_OVER8: bv32 := 0x8000
  /** USART_CR2 STOP[1:0]. */
  const CR2_STOP: bv32 := 0x3000

  /** The bits UartInit sets or clears in CR1. */
  const INIT_MASK: bv32 := CR1_RE | CR1_TE | CR1_PCE | CR1_M | CR1_UE | CR1_OVER8

  /** The SR flags the handler tests. */
  datatype SrFlags = SrFlags(txe: bool, tc: bool)

  /** What the transmitter does to the peripheral, apart from CR1: a byte into DR, or TC cleared in SR. */
  datatype UartOp = Dr(b: byte) | ClearTc

  predicate TxeIeOn(cr1: bv32) { cr1 & CR1_TXEIE != 0 }
  predicate TcIeOn(cr1: bv32) { cr1 & CR1_TCIE != 0 }

  function EnableTxe(cr1: bv32): (r: bv32)
    ensures TxeIeOn(r) && (TcIeOn(r) <==> TcIeOn(cr1))
  {
    cr1 | CR1_TXEIE
  }

  /** DisableTxInterrupt then EnableTcInterrupt. */
  function TxeToTc(cr1: bv32): (r: bv32)
    ensures !TxeIeOn(r) && TcIeOn(r)
  {
    (cr1 & !CR1_TXEIE) | CR1_TCIE
  }

  function DisableTc(cr1: bv32): (r: bv32)
    ensures !TcIeOn(r) && (TxeIeOn(r) <==> TxeIeOn(cr1))
  {
    cr1 & !CR1_TCIE
  }

  /**
   * The CR1 UartInit leaves: transmitter, receiver and USART enabled,
   * 8 data bits, no parity, oversampling by 16, every other bit as it was.
   */
  function InitCr1(cr1: bv32): (r: bv32)
    ensures r & CR1_TE != 0 && r & CR1_RE != 0 && r & CR1_UE != 0
    ensures r & CR1_M == 0 && r & CR1_PCE == 0 && r & CR1_OVER8 == 0
    ensures r & !INIT_MASK == cr1 & !INIT_MASK
  {
    ((((((cr1 | CR1_TE) | CR1_RE) & !CR1_M) & !CR1_PCE) & !CR1_OVER8) | CR1_UE)
  }

  /** The CR2 UartInit leaves: one stop bit, every other bit as it was. */
  function InitCr2(cr2: bv32): (r: bv32)
    ensures r & CR2_STOP == 0 && r & !CR2_STOP == cr2 & !CR2_STOP
  {
    cr2 & !CR2_STOP
  }

  /**
   * The transmitter as UartWrite and the handler see it: the two flags,
   * the queued bytes, CR1, the log and how many SR reads have happened.
   */
  datatype Tx = Tx(
    transmitting: bool,
    completed: bool,
    queue: seq<byte>,
    capacity: nat,
    cr1: bv32,
    trace: seq<UartOp>,
    srReads: nat)

  /** The queue never exceeds its capacity, and the flags never both hold. */
  predicate Inv(u: Tx)
  {
    0 < u.capacity && |u.queue| <= u.capacity && !(u.transmitting && u.completed)
  }

  /** The bytes written to DR, in order. */
  function Sent(trace: seq<UartOp>): (s: seq<byte>)
    ensures |s| <= |trace|
  {
    if trace == [] then []
    else Sent(trace[..|trace| - 1]) + (if trace[|trace| - 1].Dr? then [trace[|trace| - 1].b] else [])
  }

  lemma SentSnoc(trace: seq<UartOp>, op: UartOp)
    ensures Sent(trace + [op]) == Sent(trace) + (if op.Dr? then [op.b] else [])
  {
    assert (trace + [op])[..|trace|] == trace;
  }

  /** UartStart: the next byte into DR with TXE enabled, or, with nothing queued, the transmission over. */
  function StartStep(u: Tx): (r: Tx)
    requires Inv(u) && u.transmitting
    ensures Inv(r)
  {
    if u.queue != [] then
      u.(queue := u.queue[1..], trace := u.trace + [Dr(u.queue[0])], cr1 := EnableTxe(u.cr1))
    else u.(transmitting := false, completed := true)
  }

  /** UartWrite: every byte put in order (the oldest dropped when full), then a transmission started if none runs. */
  function WriteStep(u: Tx, bytes: seq<byte>): (r: Tx)
    requires Inv(u)
    ensures Inv(r)
  {
    var u1 := u.(queue := Ring.EnqueueAll(u.queue, u.capacity, true, bytes));
    if !u.transmitting then StartStep(u1.(transmitting := true, completed := false)) else u1
  }

  /** The TX branch of UartOnInterrupt. */
  function OnTxe(u: Tx, srAt: nat -> SrFlags): (r: Tx)
    requires Inv(u)
    ensures Inv(r) && r.srReads == u.srReads + 1
  {
    var u1 := u.(srReads := u.srReads + 1);
    if srAt(u.srReads).txe && TxeIeOn(u.cr1) then
      if u.queue != [] then u1.(queue := u.queue[1..], trace := u.trace + [Dr(u.queue[0])])
      else u1.(cr1 := TxeToTc(u.cr1))
    else u1
  }

  /** The TC branch: TC cleared in SR (a read and a write), TCIE off, the transmission over. */
  function OnTc(u: Tx, srAt: nat -> SrFlags): (r: Tx)
    requires Inv(u)
    ensures Inv(r)
  {
    var u1 := u.(srReads := u.srReads + 1);
    if srAt(u.srReads).tc && TcIeOn(u.cr1) then
      u1.(srReads := u1.srReads + 1, trace := u.trace + [ClearTc], cr1 := DisableTc(u.cr1),
          transmitting := false, completed := true)
    else u1
  }

  /** UartOnInterrupt. */
  function InterruptStep(u: Tx, srAt: nat -> SrFlags): (r: Tx)
    requires Inv(u)
    ensures Inv(r)
  {
    OnTc(OnTxe(u, srAt), srAt)
  }

  /** UartInit's transmitter: neither transmitting nor completed, nothing queued, not idle. */
  function Initial(capacity: nat, cr1: bv32): (r: Tx)
    requires 0 < capacity
    ensures Inv(r) && !r.transmitting && !r.completed && r.queue == [] && r.trace == []
  {
    Tx(false, false, [], capacity, InitCr1(cr1), [], 0)
  }

  /**
   * Bytes leave in the order they were queued: no step of the handler or
   * of UartStart loses, duplicates or reorders them. What has been sent
   * followed by what is still queued never changes.
   */
  lemma StartKeepsOrder(u: Tx)
    requires Inv(u) && u.transmitting
    ensures Sent(StartStep(u).trace) + StartStep(u).queue == Sent(u.trace) + u.queue
  {
    if u.queue != [] {
      SentSnoc(u.trace, Dr(u.queue[0]));
      assert [u.queue[0]] + u.queue[1..] == u.queue;
    }
  }

  lemma InterruptKeepsOrder(u: Tx, srAt: nat -> SrFlags)
    requires Inv(u)
    ensures Sent(InterruptStep(u, srAt).trace) + InterruptStep(u, srAt).queue == Sent(u.trace) + u.queue
  {
    TxeKeepsOrder(u, srAt);
    TcKeepsOrder(OnTxe(u, srAt), srAt);
  }

  lemma TxeKeepsOrder(u: Tx, srAt: nat -> SrFlags)
    requires Inv(u)
    ensures Sent(OnTxe(u, srAt).trace) + OnTxe(u, srAt).queue == Sent(u.trace) + u.queue
  {
    if srAt(u.srReads).txe && TxeIeOn(u.cr1) && u.queue != [] {
      SentSnoc(u.trace, Dr(u.queue[0]));
      assert [u.queue[0]] + u.queue[1..] == u.queue;
    }
  }

  lemma TcKeepsOrder(u: Tx, srAt: nat -> SrFlags)
    requires Inv(u)
    ensures Sent(OnTc(u, srAt).trace) + OnTc(u, srAt).queue == Sent(u.trace) + u.queue
  {
    SentSnoc(u.trace, ClearTc);
  }

  /**
   * While the queue has room, UartWrite adds its bytes after everything
   * already sent or queued, in order.
   */
  lemma WriteAppends(u: Tx, bytes: seq<byte>)
    requires Inv(u) && |u.queue| + |bytes| <= u.capacity
    ensures Sent(WriteStep(u, bytes).trace) + WriteStep(u, bytes).queue == Sent(u.trace) + u.queue + bytes
  {
    Ring.EnqueueAllFifo(u.queue, u.capacity, true, bytes);
    if !u.transmitting {
      StartKeepsOrder(u.(queue := u.queue + bytes, transmitting := true, completed := false));
    }
  }

  /** On overflow the queue keeps the newest `capacity` bytes. */
  lemma WriteKeepsNewest(u: Tx, bytes: seq<byte>)
    requires Inv(u) && u.transmitting
    ensures WriteStep(u, bytes).queue == Ring.Newest(u.queue + bytes, u.capacity)
  {
    Ring.EnqueueAllOverwrite(u.queue, u.capacity, bytes);
  }

  /**
   * UartWrite starts a transmission only when none runs: then
   * isTransmitting is set and isTransmitCompeted cleared, and the first
   * queued byte goes to DR with TXE enabled — or, with nothing to send,
   * the transmission is over at once. A running transmission is only fed.
   */
  lemma WriteStarts(u: Tx, bytes: seq<byte>)
    requires Inv(u)
    ensures var q := Ring.EnqueueAll(u.queue, u.capacity, true, bytes);
      var r := WriteStep(u, bytes);
      (u.transmitting ==> r == u.(queue := q)) &&
      (!u.transmitting && q != [] ==> r.transmitting && !r.completed && TxeIeOn(r.cr1)) &&
      (!u.transmitting && q != [] ==> r.trace == u.trace + [Dr(q[0])] && r.queue == q[1..]) &&
      (!u.transmitting && q == [] ==> !r.transmitting && r.completed && r.trace == u.trace)
  {
  }

  /**
   * A TXE interrupt with TXEIE set sends the next byte, or, with nothing
   * queued, switches TXE off and TC on; a TC interrupt with TCIE set then
   * clears TC, switches TCIE off and ends the transmission.
   */
  lemma TxeThenTc(u: Tx, srAt: nat -> SrFlags)
    requires Inv(u)
    ensures var r := OnTxe(u, srAt);
      (srAt(u.srReads).txe && TxeIeOn(u.cr1) && u.queue != [] ==>
         r.trace == u.trace + [Dr(u.queue[0])] && r.queue == u.queue[1..] && r.cr1 == u.cr1) &&
      (srAt(u.srReads).txe && TxeIeOn(u.cr1) && u.queue == [] ==>
         r.trace == u.trace && !TxeIeOn(r.cr1) && TcIeOn(r.cr1)) &&
      (!(srAt(u.srReads).txe && TxeIeOn(u.cr1)) ==> r == u.(srReads := u.srReads + 1))
    ensures var r := OnTc(u, srAt);
      (srAt(u.srReads).tc && TcIeOn(u.cr1) ==>
         r.trace == u.trace + [ClearTc] && !TcIeOn(r.cr1) && !r.transmitting && r.completed && r.queue == u.queue) &&
      (!(srAt(u.srReads).tc && TcIeOn(u.cr1)) ==> r == u.(srReads := u.srReads + 1))
  {
  }

  /** UartIdle is false from UartInit until a transmission has been completed. */
  lemma NotIdleAfterInit(capacity: nat, cr1: bv32)
    requires 0 < capacity
    ensures !Initial(capacity, cr1).completed
  {
  }

  /**
   * isTransmitCompeted only becomes true where a transmission ends: in
   * UartStart with nothing queued, or at the TC interrupt; a TXE interrupt
   * never sets it.
   */
  lemma CompletedOnlyAtEnd(u: Tx, srAt: nat -> SrFlags)
    requires Inv(u) && !u.completed
    ensures OnTxe(u, srAt).completed == false
    ensures OnTc(u, srAt).completed ==> srAt(u.srReads).tc && TcIeOn(u.cr1)
  {
  }

  /**
   * Bytes written after the last byte has left the queue but before TC
   * fires are stranded: isTransmitting is still set, so UartWrite only
   * queues them, and the TC interrupt then reports the transmission
   * complete with TXEIE off and the bytes still queued.
   */
  lemma StrandedAfterTc(capacity: nat, cr1: bv32, b: byte)
    requires 0 < capacity
    ensures var u0 := Tx(true, false, [], capacity, TxeToTc(cr1), [], 0);
      var u1 := WriteStep(u0, [b]);
      var u2 := InterruptStep(u1, n => SrFlags(false, true));
      u2.completed && !u2.transmitting && u2.queue == [b] && !TxeIeOn(u2.cr1) && Sent(u2.trace) == []
  {
    var u0 := Tx(true, false, [], capacity, TxeToTc(cr1), [], 0);
    Ring.EnqueueAllFifo(u0.queue, capacity, true, [b]);
    assert Sent([ClearTc]) == Sent([]) + [];
  }

  /** m_UartIrq and m_initialized. */
  class UartIrq {
    var handles: map<UartName, UartPort>
    var initialized: bool

    constructor ()
      ensures handles == map[] && !initialized
    {
      handles := map[];
      initialized := false;
    }

    /** USART1_IRQHandler and USART6_IRQHandler: the handler on the registered object. */
    method Dispatch(name: UartName)
      requires name in handles && handles[name].Valid()
      modifies handles[name], handles[name].queue
      ensures handles == old(handles) && handles[name].Valid()
      ensures handles[name].Abs() == InterruptStep(old(handles[name].Abs()), handles[name].srAt)
    {
      handles[name].OnInterrupt();
    }
  }

  class UartPort {
    var name: UartName
    var cr1: bv32
    var cr2: bv32
    var brr: bv32
    /** txBuffer over txData. */
    var queue: Ring.Buffer<byte>
    var transmitting: bool
    var completed: bool
    var trace: seq<UartOp>
    var srReads: nat
    const srAt: nat -> SrFlags

    ghost predicate Valid()
      reads this, queue, queue.data
    {
      queue.Valid() && queue.overwrite && Inv(Abs())
    }

    ghost function Abs(): Tx
      reads this, queue, queue.data
      requires queue.Valid()
    {
      Tx(transmitting, completed, queue.Contents(), queue.Capacity(), cr1, trace, srReads)
    }

    /**
     * UartInit: both flags false, CR1 and CR2 configured, BRR programmed
     * with `brr`, the byte queue created with overwrite over `storage`, and
     * the object registered for its interrupt.
     */
    constructor Init(name: UartName, brr: bv32, cr1: bv32, cr2: bv32, srAt: nat -> SrFlags,
                     storage: array<byte>, irq: UartIrq)
      requires 1 < storage.Length < 0x1_0000
      modifies irq
      ensures Valid() && fresh(queue) && queue.data == storage
      ensures Abs() == Initial(storage.Length - 1, cr1)
      ensures this.name == name && this.brr == brr && this.cr2 == InitCr2(cr2) && this.srAt == srAt
      ensures irq.handles == old(irq.handles)[name := this] && irq.initialized
    {
      transmitting := false;
      this.name := name;
      completed := false;
      this.brr := brr;
      this.cr1 := InitCr1(cr1);
      this.cr2 := InitCr2(cr2);
      queue := new Ring.Buffer(storage, storage.Length, 1, true);
      trace := [];
      srReads := 0;
      this.srAt := srAt;
      new;
      irq.handles := irq.handles[name := this];
      irq.initialized := true;
    }

    /** UartWrite. */
    method Write(buffer: array<byte>, size: nat)
      requires Valid() && size < 256 && size <= buffer.Length && buffer != queue.data
      modifies this`transmitting, this`completed, this`cr1, this`trace, queue, queue.data
      ensures Valid() && Abs() == WriteStep(old(Abs()), buffer[..size])
    {
      PutAll(queue, buffer, size);
      if !transmitting {
        transmitting := true;
        completed := false;
        Start();
      }
    }

    /** The for loop of UartWrite: BufferPut for each byte in turn. */
    static method PutAll(q: Ring.Buffer<byte>, buffer: array<byte>, size: nat)
      requires q.Valid() && q.overwrite && size <= buffer.Length && buffer != q.data
      modifies q, q.data
      ensures q.Valid() && q.overwrite && q.data == old(q.data)
      ensures q.Contents() == Ring.EnqueueAll(old(q.Contents()), q.Capacity(), true, buffer[..size])
    {
      ghost var q0 := q.Contents();
      var i := 0;
      while i < size
        invariant i <= size && q.Valid() && q.overwrite && q.data == old(q.data)
        invariant q.Contents() == Ring.EnqueueAll(q0, q.Capacity(), true, buffer[..i])
      {
        EnqueueAllSnoc(q0, q.Capacity(), buffer[..i], buffer[i]);
        assert buffer[..i + 1] == buffer[..i] + [buffer[i]];
        var _ := q.Put(buffer[i]);
        i := i + 1;
      }
      assert buffer[..size] == buffer[..i];
    }

    /** UartStart. */
    method Start()
      requires Valid() && transmitting
      modifies this`cr1, this`trace, this`transmitting, this`completed, queue
      ensures Valid() && Abs() == StartStep(old(Abs()))
    {
      var ok, item := queue.Get(0);
      if ok {
        trace := trace + [Dr(item)];
        cr1 := EnableTxe(cr1);
      } else {
        transmitting := false;
        completed := true;
      }
    }

    /** UartOnInterrupt. */
    method OnInterrupt()
      requires Valid()
      modifies this`cr1, this`trace, this`transmitting, this`completed, this`srReads, queue
      ensures Valid() && Abs() == InterruptStep(old(Abs()), srAt)
    {
      TxPart();
      TcPart();
    }

    /** The TX handle. */
    method TxPart()
      requires Valid()
      modifies this`cr1, this`trace, this`srReads, queue
      ensures Valid() && Abs() == OnTxe(old(Abs()), srAt)
    {
      var sr := srAt(srReads);
      srReads := srReads + 1;
      if sr.txe && TxeIeOn(cr1) {
        var ok, item := queue.Get(0);
        if ok {
          trace := trace + [Dr(item)];
        } else {
          cr1 := TxeToTc(cr1);
        }
      }
    }

    /** The TX complete handle. */
    method TcPart()
      requires Valid()
      modifies this`cr1, this`trace, this`transmitting, this`completed, this`srReads
      ensures Valid() && Abs() == OnTc(old(Abs()), srAt)
    {
      var sr := srAt(srReads);
      srReads := srReads + 1;
      if sr.tc && TcIeOn(cr1) {
        srReads := srReads + 1;
        trace := trace + [ClearTc];
        cr1 := DisableTc(cr1);
        transmitting := false;
        completed := true;
      }
    }

    /** UartIdle. */
    function Idle(): bool
      reads this
    {
      completed
    }
  }

  /** Putting one more byte extends the run of puts. */
  lemma {:induction false} EnqueueAllSnoc(q: seq<byte>, capacity: nat, xs: seq<byte>, x: byte)
    requires |q| <= capacity
    ensures Ring.EnqueueAll(q, capacity, true, xs + [x]) ==
      Ring.Enqueue(Ring.EnqueueAll(q, capacity, true, xs), capacity, true, x).1
    decreases |xs|
  {
    if xs == [] {
      assert [x][1..] == [];
    } else {
      Ring.EnqueueBounded(q, capacity, true, xs[0]);
      assert (xs + [x])[1..] == xs[1..] + [x];
      EnqueueAllSnoc(Ring.Enqueue(q, capacity, true, xs[0]).1, capacity, xs[1..], x);
    }
  }
}
