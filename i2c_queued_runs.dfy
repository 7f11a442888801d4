/**
 * What the queued I2C engine's handler does to a transaction across calls:
 * the current transaction is always the queue head, it is removed exactly
 * once, when it completes, and by then it has moved exactly its byte count
 * through DR, in order, and its callback has been invoked once.
 */
module I2cQueuedRuns {
  import opened Common
  import opened I2cTypes
  import opened I2cQueued

  /**
   * `t'` is `t` after some handling, with the bytes `d` that DR was then to
   * return and `d'` that it is to return now: receive stored the next DR
   * bytes in order, transmit advanced through its buffer, and nothing that
   * identifies the transaction changed.
   */
  predicate TxnStep(t: Transaction, t': Transaction, d: seq<byte>, d': seq<byte>)
  {
    WellFormed(t) &&
    t'.devAddress == t.devAddress && t'.onTxDone == t.onTxDone && t'.onRxDone == t.onRxDone &&
    t'.context == t.context &&
    Took(d, d', t.rx, t'.rx, t.rxLen - t'.rxLen) && Dropped(t.tx, t'.tx, t.txLen - t'.txLen) &&
    (t.state != BusyRx ==> t'.rxLen == t.rxLen) &&
    (t.state != BusyTx ==> t'.txLen == t.txLen)
  }

  /** `t'` is `t` completed: idle, with nothing left to send or receive after at least one received byte. */
  predicate Done(t: Transaction, t': Transaction)
  {
    t'.state == Idle &&
    (t.state == BusyTx ==> t'.txLen == 0) &&
    (t.state == BusyRx ==> t'.rxLen == 0 < t.rxLen)
  }

  /** The callback a completed transaction owes its owner. */
  function Notified(t: Transaction): seq<(CallbackId, nat)>
  {
    var cb := if t.state == BusyTx then t.onTxDone else t.onRxDone;
    if cb.Some? then [(cb.value, t.context)] else []
  }

  /** The trace only grew, at its end. */
  predicate Grows(e: Engine, r: Engine)
  {
    |e.trace| <= |r.trace| && r.trace[..|e.trace|] == e.trace
  }

  /** The bytes read from DR since `e` are the ones the receive stored. */
  predicate ReadsLogged(e: Engine, t: Transaction, r: Engine, t': Transaction)
  {
    Took(e.dataIn, r.dataIn, BytesRead(e.trace), BytesRead(r.trace), t.rxLen - t'.rxLen)
  }

  /** The data bytes written to DR since `e` are the ones the transmit consumed. */
  predicate WritesLogged(e: Engine, t: Transaction, r: Engine, t': Transaction)
  {
    Took(t.tx, t'.tx, BytesWritten(e.trace), BytesWritten(r.trace), t.txLen - t'.txLen)
  }

  /** The callbacks invoked since `e`: the transaction's own, once, exactly if it completed. */
  predicate CallsLogged(e: Engine, t: Transaction, r: Engine, done: bool)
  {
    Calls(r.trace) == Calls(e.trace) + (if done then Notified(t) else [])
  }

  /**
   * The engine went from `e`, handling `t`, to `r`, where `t` is now `t'`:
   * the trace grew at its end, its DR reads are the bytes the receive
   * stored, its DR data writes are the bytes the transmit consumed, and the
   * callback was invoked exactly when the transaction completed (`done`),
   * which also switched the interrupts off and cleared the current
   * transaction.
   */
  predicate Advance(e: Engine, t: Transaction, r: Engine, t': Transaction, done: bool)
  {
    TxnStep(t, t', e.dataIn, r.dataIn) && Grows(e, r) && ReadsLogged(e, t, r, t') &&
    WritesLogged(e, t, r, t') && CallsLogged(e, t, r, done) &&
    r.initialized == e.initialized && r.capacity == e.capacity &&
    (done ==> Done(t, t') && !r.current && !r.ctl.evtIe && !r.ctl.errIe && !r.ctl.bufIe) &&
    (!done ==> t'.state == t.state)
  }

  /** Within one handler call: `w` is the working state reached from the live state `s`. */
  predicate Follows(s: Work, w: Work)
  {
    s.e.queue != [] && Advance(s.e, s.t, w.e, w.t, !w.live) &&
    (w.live ==> w.e.queue == s.e.queue && w.e.finished == s.e.finished && w.e.current) &&
    (!w.live ==> w.e.queue == s.e.queue[1..] && w.e.finished == s.e.finished + [w.t])
  }

  lemma TxnStepTrans(a: Transaction, b: Transaction, c: Transaction,
                     d0: seq<byte>, d1: seq<byte>, d2: seq<byte>)
    requires TxnStep(a, b, d0, d1) && TxnStep(b, c, d1, d2) && b.state == a.state
    ensures TxnStep(a, c, d0, d2)
  {
    TookTrans(d0, d1, d2, a.rx, b.rx, c.rx, a.rxLen - b.rxLen, b.rxLen - c.rxLen, a.rxLen - c.rxLen);
    DroppedTrans(a.tx, b.tx, c.tx, a.txLen - b.txLen, b.txLen - c.txLen, a.txLen - c.txLen);
  }

  lemma GrowsTrans(e0: Engine, e1: Engine, e2: Engine)
    requires Grows(e0, e1) && Grows(e1, e2)
    ensures Grows(e0, e2)
  {
    assert e2.trace[..|e0.trace|] == e2.trace[..|e1.trace|][..|e0.trace|];
  }

  lemma ReadsTrans(e0: Engine, a: Transaction, e1: Engine, b: Transaction, e2: Engine, c: Transaction)
    requires TxnStep(a, b, e0.dataIn, e1.dataIn) && TxnStep(b, c, e1.dataIn, e2.dataIn)
    requires ReadsLogged(e0, a, e1, b) && ReadsLogged(e1, b, e2, c)
    ensures ReadsLogged(e0, a, e2, c)
  {
    TookTrans(e0.dataIn, e1.dataIn, e2.dataIn, BytesRead(e0.trace), BytesRead(e1.trace), BytesRead(e2.trace),
              a.rxLen - b.rxLen, b.rxLen - c.rxLen, a.rxLen - c.rxLen);
  }

  lemma WritesTrans(e0: Engine, a: Transaction, e1: Engine, b: Transaction, e2: Engine, c: Transaction)
    requires TxnStep(a, b, e0.dataIn, e1.dataIn) && TxnStep(b, c, e1.dataIn, e2.dataIn)
    requires WritesLogged(e0, a, e1, b) && WritesLogged(e1, b, e2, c)
    ensures WritesLogged(e0, a, e2, c)
  {
    TookTrans(a.tx, b.tx, c.tx, BytesWritten(e0.trace), BytesWritten(e1.trace), BytesWritten(e2.trace),
              a.txLen - b.txLen, b.txLen - c.txLen, a.txLen - c.txLen);
  }

  lemma AdvanceTrans(e0: Engine, a: Transaction, e1: Engine, b: Transaction,
                     e2: Engine, c: Transaction, done: bool)
    requires Advance(e0, a, e1, b, false) && Advance(e1, b, e2, c, done)
    ensures Advance(e0, a, e2, c, done)
  {
    TxnStepTrans(a, b, c, e0.dataIn, e1.dataIn, e2.dataIn);
    GrowsTrans(e0, e1, e2);
    ReadsTrans(e0, a, e1, b, e2, c);
    WritesTrans(e0, a, e1, b, e2, c);
    assert Notified(b) == Notified(a);
  }

  lemma FollowsTrans(s: Work, w: Work, w': Work)
    requires Follows(s, w) && w.live && Follows(w, w')
    ensures Follows(s, w')
  {
    AdvanceTrans(s.e, s.t, w.e, w.t, w'.e, w'.t, !w'.live);
  }

  lemma FollowsRefl(w: Work)
    requires WorkInv(w) && w.live && w.e.queue != []
    ensures Follows(w, w)
  {
    assert w.e.trace[..|w.e.trace|] == w.e.trace;
    assert w.e.dataIn[0..] == w.e.dataIn;
    assert w.t.tx[0..] == w.t.tx;
    assert w.t.tx[..0] == [];
    assert w.e.dataIn[..0] == [];
  }

  /** Appending actions to the trace appends what they read, write and call. */
  lemma Appended(w: Work, ops: seq<BusOp>)
    ensures BytesRead(w.e.trace + ops) == BytesRead(w.e.trace) + BytesRead(ops)
    ensures BytesWritten(w.e.trace + ops) == BytesWritten(w.e.trace) + BytesWritten(ops)
    ensures Calls(w.e.trace + ops) == Calls(w.e.trace) + Calls(ops)
    ensures (w.e.trace + ops)[..|w.e.trace|] == w.e.trace
  {
    BytesReadAppend(w.e.trace, ops);
    BytesWrittenAppend(w.e.trace, ops);
    CallsAppend(w.e.trace, ops);
  }

  /** Register actions that move no data and call nothing, with the control bits set to `c`. */
  lemma EmitStep(w: Work, c: Control, ops: seq<BusOp>)
    requires WorkInv(w) && w.live
    requires BytesRead(ops) == [] && BytesWritten(ops) == [] && Calls(ops) == []
    ensures Follows(w, Work(w.e.(ctl := c, trace := w.e.trace + ops), w.t, w.live))
  {
    FollowsRefl(w);
    Appended(w, ops);
  }

  /** One received byte: the next one DR was to return, stored at the end of rx. */
  lemma ReadStep(w: Work)
    requires WorkInv(w) && w.live && w.t.state == BusyRx && w.t.rxLen > 0 && |w.e.dataIn| > 0
    ensures Follows(w, ReadByte(w))
  {
    var d := w.e.dataIn;
    FollowsRefl(w);
    Appended(w, [ReadDr(d[0])]);
    assert d[..1] == [d[0]];
  }

  /** One transmitted byte: the next one of the transmit buffer. */
  lemma TxeStep(w: Work)
    requires WorkInv(w) && w.live && w.t.state == BusyTx && w.t.txLen > 0
    ensures Follows(w, OnTxe(w))
  {
    FollowsRefl(w);
    Appended(w, [WriteDr(w.t.tx[0])]);
    assert w.t.tx[..1] == [w.t.tx[0]];
  }

  /** A transmit with nothing left completes with its own callback. */
  lemma CompleteTxStep(w: Work)
    requires WorkInv(w) && w.live && w.t.state == BusyTx && w.t.txLen == 0
    ensures Follows(w, Complete(w, w.t.onTxDone))
  {
    var ops := if w.t.onTxDone.Some? then [Call(w.t.onTxDone.value, w.t.context)] else [];
    FollowsRefl(w);
    Appended(w, ops);
  }

  /** A receive reading its last byte completes with its own callback. */
  lemma CompleteRxStep(w: Work)
    requires WorkInv(w) && w.live && w.t.state == BusyRx && w.t.rxLen == 1 && |w.e.dataIn| > 0
    ensures Follows(w, Complete(ReadByte(w), w.t.onRxDone))
  {
    ReadStep(w);
    var w1 := ReadByte(w);
    var ops := if w.t.onRxDone.Some? then [Call(w.t.onRxDone.value, w.t.context)] else [];
    Appended(w1, ops);
    var w2 := Complete(w1, w.t.onRxDone);
    GrowsTrans(w.e, w1.e, w2.e);
  }

  lemma SbFollows(s: Work, w: Work)
    requires Follows(s, w) && WorkInv(w) && w.live
    ensures Follows(s, OnSb(w))
  {
    EmitStep(w, w.e.ctl, [SendAddress(AddressByte(w.t))]);
    FollowsTrans(s, w, OnSb(w));
  }

  lemma AddrFollows(s: Work, w: Work)
    requires Follows(s, w) && WorkInv(w) && w.live
    ensures Follows(s, OnAddr(w))
  {
    var c := w.e.ctl;
    match w.t.state
    case Idle =>
    case BusyTx =>
      EmitStep(w, c, [ClearAddr]);
      FollowsTrans(s, w, OnAddr(w));
    case BusyRx =>
      var (c', ops) := AddrReceive(w.t.rxLen, c);
      EmitStep(w, c', ops);
      FollowsTrans(s, w, OnAddr(w));
  }

  lemma BtfFollows(s: Work, w: Work)
    requires Follows(s, w) && WorkInv(w) && |w.e.dataIn| >= 2
    ensures Follows(s, OnBtf(w))
  {
    if !w.live {
    } else if w.t.state == BusyTx && w.t.txLen == 0 {
      BtfTxStep(w);
      FollowsTrans(s, w, OnBtf(w));
    } else if w.t.state == BusyRx && w.t.rxLen == 3 {
      BtfThreeStep(w);
      FollowsTrans(s, w, OnBtf(w));
    } else if w.t.state == BusyRx && w.t.rxLen == 2 {
      BtfTwoStep(w);
      FollowsTrans(s, w, OnBtf(w));
    }
  }

  /** BTF of a transmit with nothing left: STOP, then completion. */
  lemma BtfTxStep(w: Work)
    requires WorkInv(w) && w.live && w.e.queue != [] && |w.e.dataIn| >= 2
    requires w.t.state == BusyTx && w.t.txLen == 0
    ensures Follows(w, OnBtf(w))
  {
    var w1 := Emit(w, [Stop]);
    EmitStep(w, w.e.ctl, [Stop]);
    CompleteTxStep(w1);
    FollowsTrans(w, w1, OnBtf(w));
  }

  /** BTF with three bytes left: ACK off, then one byte. */
  lemma BtfThreeStep(w: Work)
    requires WorkInv(w) && w.live && w.e.queue != [] && |w.e.dataIn| >= 2
    requires w.t.state == BusyRx && w.t.rxLen == 3
    ensures Follows(w, OnBtf(w))
  {
    var w1 := Emit(SetAck(w, false), [AckOff]);
    EmitStep(w, w.e.ctl.(ack := false), [AckOff]);
    ReadStep(w1);
    FollowsTrans(w, w1, OnBtf(w));
  }

  /** BTF with two bytes left: STOP, both bytes, then completion. */
  lemma BtfTwoStep(w: Work)
    requires WorkInv(w) && w.live && w.e.queue != [] && |w.e.dataIn| >= 2
    requires w.t.state == BusyRx && w.t.rxLen == 2
    ensures Follows(w, OnBtf(w))
  {
    var w1 := Emit(w, [Stop]);
    EmitStep(w, w.e.ctl, [Stop]);
    ReadStep(w1);
    var w2 := ReadByte(w1);
    CompleteRxStep(w2);
    FollowsTrans(w1, w2, OnBtf(w));
    FollowsTrans(w, w1, OnBtf(w));
  }

  lemma TxeFollows(s: Work, w: Work)
    requires Follows(s, w) && WorkInv(w)
    ensures Follows(s, OnTxe(w))
  {
    if w.live && w.t.state == BusyTx && w.t.txLen > 0 {
      TxeStep(w);
      FollowsTrans(s, w, OnTxe(w));
    } else {
      assert OnTxe(w) == w;
    }
  }

  lemma RxneFollows(s: Work, w: Work)
    requires Follows(s, w) && WorkInv(w) && CanReadForRxne(w)
    ensures Follows(s, OnRxne(w))
  {
    if w.live && w.t.state == BusyRx {
      if w.t.rxLen > 3 {
        ReadStep(w);
        FollowsTrans(s, w, OnRxne(w));
      } else if w.t.rxLen == 1 {
        CompleteRxStep(w);
        FollowsTrans(s, w, OnRxne(w));
      }
    }
  }

  lemma EarlyFollows(s: Work, f: Sr1, evt: bool)
    requires WorkInv(s) && s.live && s.e.queue != [] && |s.e.dataIn| >= 2
    ensures Follows(s, Early(s, f, evt))
  {
    FollowsRefl(s);
    var w1 := if evt && f.sb then OnSb(s) else s;
    if evt && f.sb { SbFollows(s, s); }
    var w2 := if evt && f.addr then OnAddr(w1) else w1;
    if evt && f.addr { AddrFollows(s, w1); }
    if evt && f.btf { BtfFollows(s, w2); }
  }

  lemma LateFollows(s: Work, w: Work, f: Sr1, evt: bool, buf: bool)
    requires Follows(s, w) && WorkInv(w) && CanReadForRxne(w)
    ensures Follows(s, Late(w, f, evt, buf))
  {
    var w4 := if evt && buf && f.txe then OnTxe(w) else w;
    LateTxe(s, w, f, evt, buf);
    if evt && buf && f.rxne { RxneFollows(s, w4); }
  }

  lemma LateTxe(s: Work, w: Work, f: Sr1, evt: bool, buf: bool)
    requires Follows(s, w) && WorkInv(w) && CanReadForRxne(w)
    ensures var w4 := if evt && buf && f.txe then OnTxe(w) else w;
      Follows(s, w4) && WorkInv(w4) && CanReadForRxne(w4)
  {
    if evt && buf && f.txe { TxeFollows(s, w); }
  }

  /**
   * One handler call with work queued: the head is handled and either stays
   * at the head, still busy in the same direction, with the rest of the
   * queue untouched; or it completes, is removed from the queue and
   * appended to the finished transactions.
   */
  lemma HandleStep(e: Engine, f: Sr1)
    requires Inv(e) && |e.dataIn| >= 2 && e.queue != []
    ensures var r := Handle(e, f);
      var t := e.queue[0];
      if |r.finished| > |e.finished| then
        r.finished == e.finished + [r.finished[|e.finished|]] && r.queue == e.queue[1..] &&
        Advance(e, t, r, r.finished[|e.finished|], true)
      else
        r.finished == e.finished && r.queue != [] && r.queue[1..] == e.queue[1..] && r.current &&
        Advance(e, t, r, r.queue[0], false)
  {
    if Worked(e, f).live {
      HandleLive(e, f);
    } else {
      HandleDone(e, f);
    }
  }

  lemma HandleFollows(e: Engine, f: Sr1)
    requires Inv(e) && |e.dataIn| >= 2 && e.queue != []
    ensures Follows(Begin(e), Worked(e, f))
  {
    var s := Begin(e);
    EarlyFollows(s, f, e.ctl.evtIe);
    LateFollows(s, Early(s, f, e.ctl.evtIe), f, e.ctl.evtIe, e.ctl.bufIe);
  }

  lemma HandleLive(e: Engine, f: Sr1)
    requires Inv(e) && |e.dataIn| >= 2 && e.queue != [] && Worked(e, f).live
    ensures var r := Handle(e, f);
      r.finished == e.finished && r.queue != [] && r.queue[1..] == e.queue[1..] && r.current &&
      Advance(e, e.queue[0], r, r.queue[0], false)
  {
    var w := Worked(e, f);
    HandleFollows(e, f);
    var r := Handle(e, f);
    assert r == w.e.(queue := [w.t] + e.queue[1..]);
    AdvanceFrame(Begin(e).e, e, e.queue[0], w.e, r, w.t, false);
  }

  lemma HandleDone(e: Engine, f: Sr1)
    requires Inv(e) && |e.dataIn| >= 2 && e.queue != [] && !Worked(e, f).live
    ensures var r := Handle(e, f);
      |r.finished| > |e.finished| &&
      r.finished == e.finished + [r.finished[|e.finished|]] && r.queue == e.queue[1..] &&
      Advance(e, e.queue[0], r, r.finished[|e.finished|], true)
  {
    var w := Worked(e, f);
    HandleFollows(e, f);
    var r := Handle(e, f);
    assert r == w.e;
    AdvanceFrame(Begin(e).e, e, e.queue[0], w.e, r, w.t, true);
  }

  /** `Advance` depends only on the trace, the DR stream, the status and the control bits. */
  lemma AdvanceFrame(e: Engine, e': Engine, t: Transaction, r: Engine, r': Engine, t': Transaction, done: bool)
    requires Advance(e, t, r, t', done)
    requires e'.trace == e.trace && e'.dataIn == e.dataIn && e'.initialized == e.initialized && e'.capacity == e.capacity
    requires r'.trace == r.trace && r'.dataIn == r.dataIn && r'.initialized == r.initialized && r'.capacity == r.capacity
    requires r'.current == r.current && r'.ctl == r.ctl
    ensures Advance(e', t, r', t', done)
  {
  }

  /**
   * The handler called for each of the SR1 samples `fs` in turn, up to and
   * including the call that completes the current head. `dataIn` must hold
   * the head's outstanding receive bytes and the two a call may read.
   */
  function RunUntilDone(e: Engine, fs: seq<Sr1>): (r: Engine)
    requires Inv(e) && e.queue != [] && |e.dataIn| >= e.queue[0].rxLen + 2
    ensures Inv(r)
    decreases |fs|
  {
    if fs == [] then e
    else
      HandleStep(e, fs[0]);
      var e1 := Handle(e, fs[0]);
      if |e1.finished| > |e.finished| then e1 else RunUntilDone(e1, fs[1..])
  }

  /**
   * Over any run of handler calls until the head completes: the head stays
   * current at the front with the rest of the queue untouched, and when it
   * completes it is the one transaction removed and finished, having
   * stored every byte it asked for in the order DR delivered them (or sent
   * every byte of its buffer in order), with its callback invoked once.
   */
  lemma {:induction false} RunHead(e: Engine, fs: seq<Sr1>)
    requires Inv(e) && e.queue != [] && |e.dataIn| >= e.queue[0].rxLen + 2
    ensures HeadRun(e, RunUntilDone(e, fs))
    decreases |fs|
  {
    if fs == [] {
      FollowsRefl(Begin(e));
    } else {
      HandleStep(e, fs[0]);
      var e1 := Handle(e, fs[0]);
      if |e1.finished| <= |e.finished| {
        RunHead(e1, fs[1..]);
        HeadRunTrans(e, e1, RunUntilDone(e1, fs[1..]));
      }
    }
  }

  /** `r` is reached from `e` by handler calls that at most complete the head. */
  predicate HeadRun(e: Engine, r: Engine)
  {
    e.queue != [] &&
    if |r.finished| > |e.finished| then
      r.finished == e.finished + [r.finished[|e.finished|]] && r.queue == e.queue[1..] &&
      Advance(e, e.queue[0], r, r.finished[|e.finished|], true)
    else
      r.finished == e.finished && r.queue != [] && r.queue[1..] == e.queue[1..] &&
      Advance(e, e.queue[0], r, r.queue[0], false)
  }

  lemma HeadRunTrans(e: Engine, e1: Engine, r: Engine)
    requires HeadRun(e, e1) && |e1.finished| <= |e.finished| && HeadRun(e1, r)
    ensures HeadRun(e, r)
  {
    if |r.finished| > |e1.finished| {
      AdvanceTrans(e, e.queue[0], e1, e1.queue[0], r, r.finished[|e.finished|], true);
    } else {
      AdvanceTrans(e, e.queue[0], e1, e1.queue[0], r, r.queue[0], false);
    }
  }

  /** A completed receive stored exactly its rxLen bytes, the first ones DR delivered, in order. */
  lemma ReceiveStoresExactly(e: Engine, fs: seq<Sr1>)
    requires Inv(e) && e.queue != [] && |e.dataIn| >= e.queue[0].rxLen + 2
    requires e.queue[0].state == BusyRx
    ensures var r := RunUntilDone(e, fs);
      var t := e.queue[0];
      |r.finished| > |e.finished| ==>
        r.finished[|e.finished|].rx == t.rx + e.dataIn[..t.rxLen] &&
        r.dataIn == e.dataIn[t.rxLen..] &&
        BytesRead(r.trace) == BytesRead(e.trace) + e.dataIn[..t.rxLen] &&
        BytesWritten(r.trace) == BytesWritten(e.trace)
  {
    RunHead(e, fs);
    var r := RunUntilDone(e, fs);
    if |r.finished| > |e.finished| {
      ReceiveMoved(e, e.queue[0], r, r.finished[|e.finished|]);
    }
  }

  lemma ReceiveMoved(e: Engine, t: Transaction, r: Engine, x: Transaction)
    requires Advance(e, t, r, x, true) && t.state == BusyRx
    ensures x.rx == t.rx + e.dataIn[..t.rxLen] && r.dataIn == e.dataIn[t.rxLen..]
    ensures BytesRead(r.trace) == BytesRead(e.trace) + e.dataIn[..t.rxLen]
    ensures BytesWritten(r.trace) == BytesWritten(e.trace)
  {
    assert x.rxLen == 0 && x.txLen == t.txLen;
    assert t.tx[..0] == [];
  }

  /** A completed transmit wrote exactly its txLen bytes of tx to DR, in order, and read nothing. */
  lemma TransmitSendsExactly(e: Engine, fs: seq<Sr1>)
    requires Inv(e) && e.queue != [] && |e.dataIn| >= e.queue[0].rxLen + 2
    requires e.queue[0].state == BusyTx
    ensures var r := RunUntilDone(e, fs);
      var t := e.queue[0];
      |r.finished| > |e.finished| ==>
        BytesWritten(r.trace) == BytesWritten(e.trace) + t.tx[..t.txLen] &&
        BytesRead(r.trace) == BytesRead(e.trace) && r.dataIn == e.dataIn
  {
    RunHead(e, fs);
    var r := RunUntilDone(e, fs);
    if |r.finished| > |e.finished| {
      TransmitMoved(e, e.queue[0], r, r.finished[|e.finished|]);
    }
  }

  lemma TransmitMoved(e: Engine, t: Transaction, r: Engine, x: Transaction)
    requires Advance(e, t, r, x, true) && t.state == BusyTx
    ensures BytesWritten(r.trace) == BytesWritten(e.trace) + t.tx[..t.txLen]
    ensures BytesRead(r.trace) == BytesRead(e.trace) && r.dataIn == e.dataIn
  {
    assert x.txLen == 0 && x.rxLen == t.rxLen;
    assert e.dataIn[..0] == [] && e.dataIn[0..] == e.dataIn;
  }

  /** A receive of zero bytes clears ADDR and issues STOP but never completes: it blocks the queue. */
  lemma ZeroLengthReceiveNeverCompletes(e: Engine, fs: seq<Sr1>)
    requires Inv(e) && e.queue != [] && |e.dataIn| >= 2
    requires e.queue[0].state == BusyRx && e.queue[0].rxLen == 0
    ensures var r := RunUntilDone(e, fs);
      r.finished == e.finished && r.queue != [] && r.queue[0].state == BusyRx && r.queue[0].rxLen == 0
  {
    RunHead(e, fs);
  }

  /** With the event interrupt disabled the handler only makes the head current. */
  lemma DisabledHandlerOnlyFetches(e: Engine, f: Sr1)
    requires Inv(e) && |e.dataIn| >= 2 && !e.ctl.evtIe
    ensures Handle(e, f) == if !e.current && e.queue == [] then e else e.(current := true)
  {
    if e.current || e.queue != [] {
      var s := Begin(e);
      assert Early(s, f, false) == s;
      assert Late(s, f, false, e.ctl.bufIe) == s;
      assert [e.queue[0]] + e.queue[1..] == e.queue;
    }
  }

  /**
   * A completion switches every interrupt off even when more transactions
   * are queued; until the next submit re-enables them, no handler call
   * makes progress on the new head.
   */
  lemma CompletionStallsQueue(e: Engine, f: Sr1, g: Sr1)
    requires Inv(e) && |e.dataIn| >= 2 && e.queue != []
    requires |Handle(e, f).finished| > |e.finished| && |Handle(e, f).dataIn| >= 2
    ensures var r := Handle(e, f);
      !r.ctl.evtIe && Handle(r, g) == (if r.queue == [] then r else r.(current := true))
  {
    HandleStep(e, f);
    var r := Handle(e, f);
    DisabledHandlerOnlyFetches(r, g);
  }

  /**
   * Submitting: an uninitialised engine returns Error with no effect; a
   * full queue returns QueueFull after the caller's state was set, with no
   * effect on the engine; otherwise the transaction joins the queue's tail,
   * the three interrupt classes are enabled and START is requested, even
   * while another transaction is in flight.
   */
  lemma SubmitOutcomes(e: Engine, t: Transaction, dir: XferState)
    requires Inv(e) && WellFormed(t) && dir != Idle
    ensures var (res, caller, r) := Submit(e, t, dir);
      (res == Error <==> !e.initialized) &&
      (res == QueueFull <==> e.initialized && |e.queue| == e.capacity) &&
      (res != Ok ==> r == e) &&
      (res != Error ==> caller == t.(state := dir)) &&
      (res == Error ==> caller == t) &&
      (res == Ok ==> r == e.(queue := e.queue + [t.(state := dir)], ctl := InterruptsOn(e.ctl),
                              trace := e.trace + [Start]))
  {
  }

  /** Submitted transactions are queued in submission order while there is room. */
  lemma SubmitsQueueInOrder(e: Engine, t1: Transaction, t2: Transaction, d1: XferState, d2: XferState)
    requires Inv(e) && WellFormed(t1) && WellFormed(t2) && d1 != Idle && d2 != Idle
    requires e.initialized && |e.queue| + 2 <= e.capacity
    ensures var r1 := Submit(e, t1, d1).2;
      Submit(r1, t2, d2).2.queue == e.queue + [t1.(state := d1), t2.(state := d2)]
  {
  }

  /** On SB the first action is the address byte: the 7-bit address, then R/W set exactly for a receive. */
  lemma SbSendsAddress(e: Engine, f: Sr1)
    requires Inv(e) && |e.dataIn| >= 2 && e.queue != [] && e.ctl.evtIe && f.sb
    ensures var r := Handle(e, f);
      var t := e.queue[0];
      |r.trace| > |e.trace| && r.trace[|e.trace|].SendAddress? &&
      r.trace[|e.trace|].address >> 1 == t.devAddress & 0x7F &&
      (r.trace[|e.trace|].address & 1 == 1 <==> t.state == BusyRx)
  {
    var w1 := OnSb(Begin(e));
    assert w1.e.trace == e.trace + [SendAddress(AddressByte(e.queue[0]))];
    AfterSb(e, f);
    var r := Handle(e, f);
    assert r.trace[|e.trace|] == r.trace[..|w1.e.trace|][|e.trace|];
  }

  /** Everything after SB in one handler call only appends to the trace. */
  lemma AfterSb(e: Engine, f: Sr1)
    requires Inv(e) && |e.dataIn| >= 2 && e.queue != [] && e.ctl.evtIe && f.sb
    ensures Grows(OnSb(Begin(e)).e, Handle(e, f))
  {
    var w1 := OnSb(Begin(e));
    var w3 := Early(Begin(e), f, true);
    EarlyAfterSb(e, f);
    LateFollows(w1, w3, f, true, e.ctl.bufIe);
    var w := Late(w3, f, true, e.ctl.bufIe);
    assert Worked(e, f) == w;
    assert Handle(e, f).trace == w.e.trace;
  }

  /** ADDR and BTF after SB follow the state SB left. */
  lemma EarlyAfterSb(e: Engine, f: Sr1)
    requires Inv(e) && |e.dataIn| >= 2 && e.queue != [] && f.sb
    ensures Follows(OnSb(Begin(e)), Early(Begin(e), f, true))
  {
    var w1 := OnSb(Begin(e));
    FollowsRefl(w1);
    var w2 := if f.addr then OnAddr(w1) else w1;
    if f.addr { AddrFollows(w1, w1); }
    if f.btf { BtfFollows(w1, w2); }
  }
}
