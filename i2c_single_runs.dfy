/**
 * What the single-transaction engine's handler does across calls: the
 * transaction moves its bytes through DR in order until it goes idle, it
 * then stays exactly as it is, the event interrupt is never switched off
 * and no callback is ever made. Also the submit rules and the blocking
 * receive's trace.
 */
module I2cSingleRuns {
  import opened Common
  import opened I2cTypes
  import opened I2cSingle

  /**
   * `t'` is `t` after some handling, with the DR bytes `d` then to come
   * and `d'` now to come: received bytes were the next ones of `d`, the
   * transmit advanced through its buffer, the address did not change.
   */
  predicate TStep(t: Transfer, t': Transfer, d: seq<byte>, d': seq<byte>)
  {
    WellFormed(t) && t'.devAddress == t.devAddress &&
    Took(d, d', t.rx, t'.rx, t.rxLen - t'.rxLen) && Dropped(t.tx, t'.tx, t.txLen - t'.txLen) &&
    (t.state != BusyRx ==> t'.rxLen == t.rxLen) &&
    (t.state != BusyTx ==> t'.txLen == t.txLen) &&
    (t'.state == t.state || t'.state == Idle)
  }

  /** Going idle means the transfer is finished: nothing left to send, or at least one byte and then all bytes received. */
  predicate Done(t: Transfer, t': Transfer)
  {
    t'.state == Idle ==>
      (t.state == BusyTx ==> t'.txLen == 0) &&
      (t.state == BusyRx ==> t'.rxLen == 0 < t.rxLen)
  }

  predicate Grows(e: Engine, r: Engine)
  {
    |e.trace| <= |r.trace| && r.trace[..|e.trace|] == e.trace
  }

  /** The DR reads since `e` are the bytes the receive stored. */
  predicate ReadsLogged(e: Engine, t: Transfer, r: Engine, t': Transfer)
  {
    Took(e.dataIn, r.dataIn, BytesRead(e.trace), BytesRead(r.trace), t.rxLen - t'.rxLen)
  }

  /** The DR data writes since `e` are the bytes the transmit consumed. */
  predicate WritesLogged(e: Engine, t: Transfer, r: Engine, t': Transfer)
  {
    Took(t.tx, t'.tx, BytesWritten(e.trace), BytesWritten(r.trace), t.txLen - t'.txLen)
  }

  /**
   * The engine went from `e` to `r`: the transfer advanced and, if it went
   * idle, is finished; the trace grew at its end with exactly the bytes
   * moved and no callback; the interrupt enables and the initialised flag
   * are as they were.
   */
  predicate Advance(e: Engine, r: Engine)
  {
    e.transfer.Some? && r.transfer.Some? &&
    TStep(e.transfer.value, r.transfer.value, e.dataIn, r.dataIn) &&
    Done(e.transfer.value, r.transfer.value) &&
    Grows(e, r) && ReadsLogged(e, e.transfer.value, r, r.transfer.value) &&
    WritesLogged(e, e.transfer.value, r, r.transfer.value) && Calls(r.trace) == Calls(e.trace) &&
    r.initialized == e.initialized &&
    r.ctl.evtIe == e.ctl.evtIe && r.ctl.errIe == e.ctl.errIe && r.ctl.bufIe == e.ctl.bufIe
  }

  lemma TStepTrans(a: Transfer, b: Transfer, c: Transfer, d0: seq<byte>, d1: seq<byte>, d2: seq<byte>)
    requires TStep(a, b, d0, d1) && TStep(b, c, d1, d2)
    ensures TStep(a, c, d0, d2)
  {
    TookTrans(d0, d1, d2, a.rx, b.rx, c.rx, a.rxLen - b.rxLen, b.rxLen - c.rxLen, a.rxLen - c.rxLen);
    DroppedTrans(a.tx, b.tx, c.tx, a.txLen - b.txLen, b.txLen - c.txLen, a.txLen - c.txLen);
  }

  lemma DoneTrans(a: Transfer, b: Transfer, c: Transfer, d0: seq<byte>, d1: seq<byte>, d2: seq<byte>)
    requires TStep(a, b, d0, d1) && TStep(b, c, d1, d2) && Done(a, b) && Done(b, c)
    ensures Done(a, c)
  {
  }

  lemma GrowsTrans(e0: Engine, e1: Engine, e2: Engine)
    requires Grows(e0, e1) && Grows(e1, e2)
    ensures Grows(e0, e2)
  {
    assert e2.trace[..|e0.trace|] == e2.trace[..|e1.trace|][..|e0.trace|];
  }

  lemma ReadsTrans(e0: Engine, a: Transfer, e1: Engine, b: Transfer, e2: Engine, c: Transfer)
    requires TStep(a, b, e0.dataIn, e1.dataIn) && TStep(b, c, e1.dataIn, e2.dataIn)
    requires ReadsLogged(e0, a, e1, b) && ReadsLogged(e1, b, e2, c)
    ensures ReadsLogged(e0, a, e2, c)
  {
    TookTrans(e0.dataIn, e1.dataIn, e2.dataIn, BytesRead(e0.trace), BytesRead(e1.trace), BytesRead(e2.trace),
              a.rxLen - b.rxLen, b.rxLen - c.rxLen, a.rxLen - c.rxLen);
  }

  lemma WritesTrans(e0: Engine, a: Transfer, e1: Engine, b: Transfer, e2: Engine, c: Transfer)
    requires TStep(a, b, e0.dataIn, e1.dataIn) && TStep(b, c, e1.dataIn, e2.dataIn)
    requires WritesLogged(e0, a, e1, b) && WritesLogged(e1, b, e2, c)
    ensures WritesLogged(e0, a, e2, c)
  {
    TookTrans(a.tx, b.tx, c.tx, BytesWritten(e0.trace), BytesWritten(e1.trace), BytesWritten(e2.trace),
              a.txLen - b.txLen, b.txLen - c.txLen, a.txLen - c.txLen);
  }

  lemma AdvanceTrans(e0: Engine, e1: Engine, e2: Engine)
    requires Advance(e0, e1) && Advance(e1, e2)
    ensures Advance(e0, e2)
  {
    TStepTrans(e0.transfer.value, e1.transfer.value, e2.transfer.value, e0.dataIn, e1.dataIn, e2.dataIn);
    DoneTrans(e0.transfer.value, e1.transfer.value, e2.transfer.value, e0.dataIn, e1.dataIn, e2.dataIn);
    GrowsTrans(e0, e1, e2);
    ReadsTrans(e0, e0.transfer.value, e1, e1.transfer.value, e2, e2.transfer.value);
    WritesTrans(e0, e0.transfer.value, e1, e1.transfer.value, e2, e2.transfer.value);
  }

  lemma AdvanceRefl(e: Engine)
    requires Inv(e) && e.transfer.Some?
    ensures Advance(e, e)
  {
    var t := e.transfer.value;
    assert e.trace[..|e.trace|] == e.trace;
    assert e.dataIn[0..] == e.dataIn;
    assert t.tx[0..] == t.tx;
    assert t.tx[..0] == [];
    assert e.dataIn[..0] == [];
  }

  lemma Appended(e: Engine, ops: seq<BusOp>)
    ensures BytesRead(e.trace + ops) == BytesRead(e.trace) + BytesRead(ops)
    ensures BytesWritten(e.trace + ops) == BytesWritten(e.trace) + BytesWritten(ops)
    ensures Calls(e.trace + ops) == Calls(e.trace) + Calls(ops)
    ensures (e.trace + ops)[..|e.trace|] == e.trace
  {
    BytesReadAppend(e.trace, ops);
    BytesWrittenAppend(e.trace, ops);
    CallsAppend(e.trace, ops);
  }

  /** Register actions that move no data, with the ACK and POS bits set as `c` says. */
  lemma EmitStep(e: Engine, c: Control, ops: seq<BusOp>)
    requires Inv(e) && e.transfer.Some?
    requires c == e.ctl.(ack := c.ack, pos := c.pos)
    requires BytesRead(ops) == [] && BytesWritten(ops) == [] && Calls(ops) == []
    ensures Advance(e, e.(ctl := c, trace := e.trace + ops))
  {
    AdvanceRefl(e);
    Appended(e, ops);
  }

  lemma ReadStep(e: Engine)
    requires Inv(e) && e.transfer.Some? && e.transfer.value.state == BusyRx
    requires e.transfer.value.rxLen > 0 && |e.dataIn| > 0
    ensures Advance(e, ReadByte(e))
  {
    var d := e.dataIn;
    AdvanceRefl(e);
    Appended(e, [ReadDr(d[0])]);
    assert d[..1] == [d[0]];
  }

  /** Going idle after the last byte, on an engine that has just reached it. */
  lemma IdleStep(e: Engine, s: Engine)
    requires Advance(s, e)
    requires s.transfer.value.state != Idle
    requires s.transfer.value.state == BusyTx ==> e.transfer.value.txLen == 0
    requires s.transfer.value.state == BusyRx ==> e.transfer.value.rxLen == 0 < s.transfer.value.rxLen
    ensures Advance(s, SetIdle(e))
  {
    var st, t := s.transfer.value, e.transfer.value;
    IdleTransfer(st, t, s.dataIn, e.dataIn);
    IdleLogged(s, st, e, t);
  }

  lemma IdleTransfer(st: Transfer, t: Transfer, d: seq<byte>, d': seq<byte>)
    requires TStep(st, t, d, d') && st.state != Idle
    requires st.state == BusyTx ==> t.txLen == 0
    requires st.state == BusyRx ==> t.rxLen == 0 < st.rxLen
    ensures TStep(st, t.(state := Idle), d, d') && Done(st, t.(state := Idle))
  {
    SameProgress(st, t, t.(state := Idle), d, d');
  }

  /** TStep does not look at the state beyond "unchanged or idle". */
  lemma SameProgress(st: Transfer, t: Transfer, t': Transfer, d: seq<byte>, d': seq<byte>)
    requires TStep(st, t, d, d')
    requires t'.devAddress == t.devAddress && t'.rx == t.rx && t'.rxLen == t.rxLen
    requires t'.tx == t.tx && t'.txLen == t.txLen && t'.state == Idle
    ensures TStep(st, t', d, d')
  {
    var k, j := st.rxLen - t.rxLen, st.txLen - t.txLen;
    assert Took(d, d', st.rx, t.rx, k) && Dropped(st.tx, t.tx, j);
    assert Took(d, d', st.rx, t'.rx, st.rxLen - t'.rxLen) && Dropped(st.tx, t'.tx, st.txLen - t'.txLen);
  }

  lemma IdleLogged(s: Engine, st: Transfer, e: Engine, t: Transfer)
    requires ReadsLogged(s, st, e, t) && WritesLogged(s, st, e, t)
    ensures ReadsLogged(s, st, e.(transfer := Some(t.(state := Idle))), t.(state := Idle))
    ensures WritesLogged(s, st, e.(transfer := Some(t.(state := Idle))), t.(state := Idle))
  {
  }

  lemma SbFollows(s: Engine, e: Engine)
    requires Advance(s, e) && Inv(e)
    ensures Advance(s, OnSb(e))
  {
    EmitStep(e, e.ctl, [SendAddress(Cur(e).devAddress)]);
    AdvanceTrans(s, e, OnSb(e));
  }

  lemma AddrFollows(s: Engine, e: Engine)
    requires Advance(s, e) && Inv(e)
    ensures Advance(s, OnAddr(e))
  {
    if Cur(e).state != Idle {
      AddrStep(e);
      AdvanceTrans(s, e, OnAddr(e));
    }
  }

  lemma AddrStep(e: Engine)
    requires Inv(e) && e.transfer.Some?
    ensures Advance(e, OnAddr(e))
  {
    match Cur(e).state
    case Idle => AdvanceRefl(e);
    case BusyTx => EmitStep(e, e.ctl, [ClearAddr]);
    case BusyRx =>
      var (c, ops) := AddrReceive(Cur(e).rxLen, e.ctl);
      EmitStep(e, c, ops);
  }

  lemma BtfFollows(s: Engine, e: Engine)
    requires Advance(s, e) && Inv(e) && |e.dataIn| >= 2
    ensures Advance(s, OnBtf(e))
  {
    var t := Cur(e);
    if t.state == BusyTx && t.txLen == 0 {
      BtfTxFollows(s, e);
    } else if t.state == BusyRx && t.rxLen == 3 {
      BtfThreeFollows(s, e);
    } else if t.state == BusyRx && t.rxLen == 2 {
      BtfTwoFollows(s, e);
    }
  }

  lemma BtfTxFollows(s: Engine, e: Engine)
    requires Advance(s, e) && Inv(e) && |e.dataIn| >= 2
    requires Cur(e).state == BusyTx && Cur(e).txLen == 0
    ensures Advance(s, OnBtf(e))
  {
    var e1 := Emit(e, [Stop]);
    EmitStep(e, e.ctl, [Stop]);
    AdvanceTrans(s, e, e1);
    IdleStep(e1, s);
  }

  lemma BtfThreeFollows(s: Engine, e: Engine)
    requires Advance(s, e) && Inv(e) && |e.dataIn| >= 2
    requires Cur(e).state == BusyRx && Cur(e).rxLen == 3
    ensures Advance(s, OnBtf(e))
  {
    var e1 := Emit(e.(ctl := e.ctl.(ack := false)), [AckOff]);
    EmitStep(e, e.ctl.(ack := false), [AckOff]);
    ReadStep(e1);
    AdvanceTrans(e, e1, OnBtf(e));
    AdvanceTrans(s, e, OnBtf(e));
  }

  lemma BtfTwoFollows(s: Engine, e: Engine)
    requires Advance(s, e) && Inv(e) && |e.dataIn| >= 2
    requires Cur(e).state == BusyRx && Cur(e).rxLen == 2
    ensures Advance(s, OnBtf(e))
  {
    var e3 := ReadByte(ReadByte(Emit(e, [Stop])));
    BtfTwoReads(e);
    AdvanceTrans(s, e, e3);
    IdleStep(e3, s);
    assert OnBtf(e) == SetIdle(e3);
  }

  /** STOP, then the last two bytes. */
  lemma BtfTwoReads(e: Engine)
    requires Inv(e) && e.transfer.Some? && |e.dataIn| >= 2
    requires Cur(e).state == BusyRx && Cur(e).rxLen == 2
    ensures Advance(e, ReadByte(ReadByte(Emit(e, [Stop]))))
  {
    var e1 := Emit(e, [Stop]);
    EmitStep(e, e.ctl, [Stop]);
    ReadStep(e1);
    var e2 := ReadByte(e1);
    ReadStep(e2);
    var e3 := ReadByte(e2);
    AdvanceTrans(e1, e2, e3);
    AdvanceTrans(e, e1, e3);
  }

  lemma TxeStep(e: Engine)
    requires Inv(e) && e.transfer.Some? && Cur(e).state == BusyTx && Cur(e).txLen > 0
    ensures Advance(e, OnTxe(e))
  {
    var t := Cur(e);
    AdvanceRefl(e);
    Appended(e, [WriteDr(t.tx[0])]);
    assert t.tx[..1] == [t.tx[0]];
  }

  lemma TxeFollows(s: Engine, e: Engine)
    requires Advance(s, e) && Inv(e)
    ensures Advance(s, OnTxe(e))
  {
    if Cur(e).state == BusyTx && Cur(e).txLen > 0 {
      TxeStep(e);
      AdvanceTrans(s, e, OnTxe(e));
    }
  }

  lemma RxneFollows(s: Engine, e: Engine)
    requires Advance(s, e) && Inv(e) && CanReadForRxne(e)
    ensures Advance(s, OnRxne(e))
  {
    var t := Cur(e);
    if t.state == BusyRx && t.rxLen > 3 {
      ReadStep(e);
      AdvanceTrans(s, e, OnRxne(e));
    } else if t.state == BusyRx && t.rxLen == 1 {
      ReadStep(e);
      AdvanceTrans(s, e, ReadByte(e));
      IdleStep(ReadByte(e), s);
    }
  }

  lemma EarlyFollows(e: Engine, f: Sr1)
    requires Inv(e) && e.transfer.Some? && |e.dataIn| >= 2
    ensures Advance(e, Early(e, f))
  {
    AdvanceRefl(e);
    var e1 := if f.sb then OnSb(e) else e;
    if f.sb { SbFollows(e, e); }
    var e2 := if f.addr then OnAddr(e1) else e1;
    if f.addr { AddrFollows(e, e1); }
    if f.btf { BtfFollows(e, e2); }
  }

  lemma LateFollows(s: Engine, e: Engine, f: Sr1, buf: bool)
    requires Advance(s, e) && Inv(e) && CanReadForRxne(e)
    ensures Advance(s, Late(e, f, buf))
  {
    var e4 := if buf && f.txe then OnTxe(e) else e;
    if buf && f.txe { TxeFollows(s, e); }
    if buf && f.rxne { RxneFollows(s, e4); }
  }

  /**
   * One handler call once a transaction has been submitted: it advances,
   * goes idle only when finished, moves exactly the bytes it logs, and
   * neither disables an interrupt nor calls back.
   */
  lemma HandleStep(e: Engine, f: Sr1)
    requires Inv(e) && e.transfer.Some? && |e.dataIn| >= 2
    ensures Advance(e, Handle(e, f))
  {
    if !e.ctl.evtIe {
      AdvanceRefl(e);
    } else {
      EarlyFollows(e, f);
      LateFollows(e, Early(e, f), f, e.ctl.bufIe);
    }
  }

  /** The handler called for each SR1 sample of `fs` in turn; `dataIn` holds the outstanding receive bytes and two more. */
  function Run(e: Engine, fs: seq<Sr1>): (r: Engine)
    requires Inv(e) && e.transfer.Some? && |e.dataIn| >= e.transfer.value.rxLen + 2
    ensures Inv(r)
    decreases |fs|
  {
    if fs == [] then e
    else
      HandleStep(e, fs[0]);
      Run(Handle(e, fs[0]), fs[1..])
  }

  lemma {:induction false} RunAdvances(e: Engine, fs: seq<Sr1>)
    requires Inv(e) && e.transfer.Some? && |e.dataIn| >= e.transfer.value.rxLen + 2
    ensures Advance(e, Run(e, fs))
    decreases |fs|
  {
    if fs == [] {
      AdvanceRefl(e);
    } else {
      HandleStep(e, fs[0]);
      var e1 := Handle(e, fs[0]);
      RunAdvances(e1, fs[1..]);
      AdvanceTrans(e, e1, Run(e1, fs[1..]));
    }
  }

  /** A receive that went idle stored exactly its rxLen bytes, the first ones DR delivered, in order. */
  lemma ReceiveStoresExactly(e: Engine, fs: seq<Sr1>)
    requires Inv(e) && e.transfer.Some? && |e.dataIn| >= e.transfer.value.rxLen + 2
    requires e.transfer.value.state == BusyRx
    ensures var r := Run(e, fs);
      var t := e.transfer.value;
      r.transfer.Some? && r.transfer.value.devAddress == t.devAddress &&
      (r.transfer.value.state == Idle ==>
        r.transfer.value.rxLen == 0 &&
        r.transfer.value.rx == t.rx + e.dataIn[..t.rxLen] &&
        r.dataIn == e.dataIn[t.rxLen..] &&
        BytesRead(r.trace) == BytesRead(e.trace) + e.dataIn[..t.rxLen] &&
        BytesWritten(r.trace) == BytesWritten(e.trace))
  {
    RunAdvances(e, fs);
    ReceiveMoved(e, Run(e, fs));
  }

  lemma ReceiveMoved(e: Engine, r: Engine)
    requires Advance(e, r) && e.transfer.value.state == BusyRx
    ensures var t, x := e.transfer.value, r.transfer.value;
      x.devAddress == t.devAddress &&
      (x.state == Idle ==>
        x.rxLen == 0 && x.rx == t.rx + e.dataIn[..t.rxLen] && r.dataIn == e.dataIn[t.rxLen..] &&
        BytesRead(r.trace) == BytesRead(e.trace) + e.dataIn[..t.rxLen] &&
        BytesWritten(r.trace) == BytesWritten(e.trace))
  {
    var t := e.transfer.value;
    assert r.transfer.value.txLen == t.txLen;
    assert t.tx[..0] == [];
  }

  /** A transmit that went idle wrote exactly its txLen bytes of tx to DR, in order, and read nothing. */
  lemma TransmitSendsExactly(e: Engine, fs: seq<Sr1>)
    requires Inv(e) && e.transfer.Some? && |e.dataIn| >= e.transfer.value.rxLen + 2
    requires e.transfer.value.state == BusyTx
    ensures var r := Run(e, fs);
      var t := e.transfer.value;
      r.transfer.Some? &&
      (r.transfer.value.state == Idle ==>
        r.transfer.value.txLen == 0 &&
        BytesWritten(r.trace) == BytesWritten(e.trace) + t.tx[..t.txLen] &&
        BytesRead(r.trace) == BytesRead(e.trace) && r.dataIn == e.dataIn)
  {
    RunAdvances(e, fs);
    TransmitMoved(e, Run(e, fs));
  }

  lemma TransmitMoved(e: Engine, r: Engine)
    requires Advance(e, r) && e.transfer.value.state == BusyTx
    ensures var t, x := e.transfer.value, r.transfer.value;
      x.state == Idle ==>
        x.txLen == 0 && BytesWritten(r.trace) == BytesWritten(e.trace) + t.tx[..t.txLen] &&
        BytesRead(r.trace) == BytesRead(e.trace) && r.dataIn == e.dataIn
  {
    assert r.transfer.value.rxLen == e.transfer.value.rxLen;
    assert e.dataIn[..0] == [] && e.dataIn[0..] == e.dataIn;
  }

  /** A receive of zero bytes never goes idle: it issues STOP on ADDR but stays busy for good. */
  lemma ZeroLengthReceiveNeverIdles(e: Engine, fs: seq<Sr1>)
    requires Inv(e) && e.transfer.Some? && |e.dataIn| >= 2
    requires e.transfer.value.state == BusyRx && e.transfer.value.rxLen == 0
    ensures Run(e, fs).transfer.Some? && Run(e, fs).transfer.value.state == BusyRx
  {
    RunAdvances(e, fs);
  }

  /**
   * Completion neither disables an interrupt nor calls back, and an idle
   * transaction stays exactly as it is under any further handler calls.
   */
  lemma IdleIsFinal(e: Engine, fs: seq<Sr1>)
    requires Inv(e) && e.transfer.Some? && |e.dataIn| >= e.transfer.value.rxLen + 2
    requires e.transfer.value.state == Idle
    ensures var r := Run(e, fs);
      r.transfer == e.transfer && r.dataIn == e.dataIn && r.ctl.evtIe == e.ctl.evtIe &&
      Calls(r.trace) == Calls(e.trace)
  {
    RunAdvances(e, fs);
    var t, t' := e.transfer.value, Run(e, fs).transfer.value;
    assert t.rx + e.dataIn[..0] == t.rx;
    assert t.tx[0..] == t.tx;
  }

  /** On SB the handler writes the stored devAddress as it is, whatever the state. */
  lemma SbSendsStoredAddress(e: Engine, f: Sr1)
    requires Inv(e) && |e.dataIn| >= 2 && e.ctl.evtIe && f.sb
    ensures var r := Handle(e, f);
      |r.trace| > |e.trace| && r.trace[|e.trace|] == SendAddress(e.transfer.value.devAddress)
  {
    var e1 := OnSb(e);
    EarlyAfterSb(e, f);
    LateFollows(e1, Early(e, f), f, e.ctl.bufIe);
    var r := Handle(e, f);
    assert r == Late(Early(e, f), f, e.ctl.bufIe);
    assert r.trace[|e.trace|] == r.trace[..|e1.trace|][|e.trace|];
  }

  /** ADDR and BTF after SB follow the state SB left. */
  lemma EarlyAfterSb(e: Engine, f: Sr1)
    requires Inv(e) && |e.dataIn| >= 2 && e.transfer.Some? && f.sb
    ensures Advance(OnSb(e), Early(e, f))
  {
    var e1 := OnSb(e);
    AdvanceRefl(e1);
    var e2 := if f.addr then OnAddr(e1) else e1;
    if f.addr { AddrFollows(e1, e1); }
    if f.btf { BtfFollows(e1, e2); }
  }

  /**
   * Submitting: a busy transaction comes back with its own state and no
   * effect; an idle one is stored with its address encoded for the
   * direction, interrupts on and START requested, replacing whatever
   * transaction was in flight.
   */
  lemma SubmitOutcomes(e: Engine, t: Transfer, dir: XferState)
    requires Inv(e) && e.initialized && WellFormed(t) && dir != Idle
    ensures var (state, r) := Submit(e, t, dir);
      (t.state != Idle ==> state == t.state && r == e) &&
      (t.state == Idle ==>
        state == dir && r.transfer.Some? && r.transfer.value.state == dir &&
        r.transfer.value.devAddress >> 1 == t.devAddress & 0x7F &&
        (r.transfer.value.devAddress & 1 == 1 <==> dir == BusyRx) &&
        r.transfer.value.(devAddress := t.devAddress, state := Idle) == t &&
        r.ctl == InterruptsOn(e.ctl) && r.trace == e.trace + [Start])
  {
  }

  /**
   * The address is encoded in the caller's transaction itself, so
   * submitting the same transaction again after it went idle shifts it a
   * second time: address 0x50 is sent as 0xA0 the first time and as 0x40
   * the second.
   */
  lemma ResubmitShiftsAgain(e: Engine, t: Transfer)
    requires Inv(e) && e.initialized && WellFormed(t) && t.state == Idle && t.devAddress == 0x50
    ensures var r1 := Submit(e, t, BusyTx).1;
      var t1 := r1.transfer.value.(state := Idle);
      var r2 := Submit(r1, t1, BusyTx).1;
      r1.transfer.value.devAddress == 0xA0 && r2.transfer.value.devAddress == 0x40
  {
    assert AddressWrite(0x50) == 0xA0;
    assert AddressWrite(0xA0) == 0x40;
  }

  /** The blocking receive reads exactly `len` bytes from DR, the ones stored in the caller's buffer. */
  lemma {:induction false} ReceiveReadsExactly(len: nat, a: byte, c: Control, d: seq<byte>)
    requires len <= |d|
    ensures BytesRead(ReceiveOps(len, a, c, d)) == d[..len]
    ensures BytesWritten(ReceiveOps(len, a, c, d)) == [] && Calls(ReceiveOps(len, a, c, d)) == []
  {
    var pre: seq<BusOp> := [Start, SendAddress(AddressRead(a))];
    var ops := AddrReceive(len, c).1;
    var rd := ReceiveData(len, d);
    BytesReadAppend(pre + ops + rd, [AckOn]);
    BytesReadAppend(pre + ops, rd);
    BytesReadAppend(pre, ops);
    BytesWrittenAppend(pre + ops + rd, [AckOn]);
    BytesWrittenAppend(pre + ops, rd);
    BytesWrittenAppend(pre, ops);
    CallsAppend(pre + ops + rd, [AckOn]);
    CallsAppend(pre + ops, rd);
    CallsAppend(pre, ops);
    ReceiveDataMoves(len, d);
  }

  lemma ReceiveDataMoves(len: nat, d: seq<byte>)
    requires len <= |d|
    ensures BytesRead(ReceiveData(len, d)) == d[..len]
    ensures BytesWritten(ReceiveData(len, d)) == [] && Calls(ReceiveData(len, d)) == []
  {
    if len == 1 {
      Cons(ReadDr(d[0]), []);
      assert d[..1] == [d[0]];
    } else if len == 2 {
      TwoBytesMoves(d[0], d[1]);
      assert d[..2] == [d[0], d[1]];
    } else if len > 2 {
      ManyBytesMoves(len, d);
    }
  }

  lemma ManyBytesMoves(len: nat, d: seq<byte>)
    requires 2 < len <= |d|
    ensures BytesRead(ReceiveData(len, d)) == d[..len]
    ensures BytesWritten(ReceiveData(len, d)) == [] && Calls(ReceiveData(len, d)) == []
  {
    var head := Reads(d[..len - 3]);
    var tail := [AckOff, ReadDr(d[len - 3]), Stop, ReadDr(d[len - 2]), ReadDr(d[len - 1])];
    assert ReceiveData(len, d) == head + tail;
    LastThreeMoves(d[len - 3], d[len - 2], d[len - 1]);
    ReadsMoves(d[..len - 3]);
    BytesReadAppend(head, tail);
    BytesWrittenAppend(head, tail);
    CallsAppend(head, tail);
    assert d[..len] == d[..len - 3] + [d[len - 3], d[len - 2], d[len - 1]];
  }

  lemma TwoBytesMoves(x: byte, y: byte)
    ensures var ops := [Stop, ReadDr(x), ReadDr(y), PosOff];
      BytesRead(ops) == [x, y] && BytesWritten(ops) == [] && Calls(ops) == []
  {
    var ops := [Stop, ReadDr(x), ReadDr(y), PosOff];
    assert ops == [Stop] + ([ReadDr(x)] + ([ReadDr(y)] + [PosOff]));
    ConsRead(PosOff, []);
    ConsRead(ReadDr(y), [PosOff]);
    ConsRead(ReadDr(x), [ReadDr(y), PosOff]);
    ConsRead(Stop, [ReadDr(x), ReadDr(y), PosOff]);
    ConsQuiet(PosOff, []);
    ConsQuiet(ReadDr(y), [PosOff]);
    ConsQuiet(ReadDr(x), [ReadDr(y), PosOff]);
    ConsQuiet(Stop, [ReadDr(x), ReadDr(y), PosOff]);
  }

  lemma LastThreeMoves(x: byte, y: byte, z: byte)
    ensures var ops := [AckOff, ReadDr(x), Stop, ReadDr(y), ReadDr(z)];
      BytesRead(ops) == [x, y, z] && BytesWritten(ops) == [] && Calls(ops) == []
  {
    ConsRead(ReadDr(z), []);
    ConsRead(ReadDr(y), [ReadDr(z)]);
    ConsRead(Stop, [ReadDr(y), ReadDr(z)]);
    ConsRead(ReadDr(x), [Stop, ReadDr(y), ReadDr(z)]);
    ConsRead(AckOff, [ReadDr(x), Stop, ReadDr(y), ReadDr(z)]);
    ConsQuiet(ReadDr(z), []);
    ConsQuiet(ReadDr(y), [ReadDr(z)]);
    ConsQuiet(Stop, [ReadDr(y), ReadDr(z)]);
    ConsQuiet(ReadDr(x), [Stop, ReadDr(y), ReadDr(z)]);
    ConsQuiet(AckOff, [ReadDr(x), Stop, ReadDr(y), ReadDr(z)]);
  }

  /** A read or control action in front of others adds no data write and no call. */
  lemma ConsQuiet(op: BusOp, rest: seq<BusOp>)
    requires !op.WriteDr? && !op.Call?
    ensures BytesWritten([op] + rest) == BytesWritten(rest) && Calls([op] + rest) == Calls(rest)
  {
    Cons(op, rest);
  }

  lemma ConsRead(op: BusOp, rest: seq<BusOp>)
    ensures BytesRead([op] + rest) == (if op.ReadDr? then [op.b] else []) + BytesRead(rest)
  {
    Cons(op, rest);
  }

  lemma {:induction false} ReadsMoves(bs: seq<byte>)
    ensures BytesRead(Reads(bs)) == bs && BytesWritten(Reads(bs)) == [] && Calls(Reads(bs)) == []
    decreases |bs|
  {
    if bs != [] {
      ReadsMoves(bs[1..]);
      Cons(ReadDr(bs[0]), Reads(bs[1..]));
    }
  }

  /** What one register action in front of others reads, writes and calls. */
  lemma Cons(op: BusOp, rest: seq<BusOp>)
    ensures BytesRead([op] + rest) == (if op.ReadDr? then [op.b] else []) + BytesRead(rest)
    ensures BytesWritten([op] + rest) == (if op.WriteDr? then [op.b] else []) + BytesWritten(rest)
    ensures Calls([op] + rest) == (if op.Call? then [(op.callback, op.context)] else []) + Calls(rest)
  {
    assert ([op] + rest)[0] == op;
    assert ([op] + rest)[1..] == rest;
  }

  /** The blocking receive always requests exactly one STOP, for every byte count. */
  lemma ReceiveStopsOnce(len: nat, a: byte, c: Control, d: seq<byte>)
    requires len <= |d|
    ensures multiset(ReceiveOps(len, a, c, d))[Stop] == 1
  {
    AddrStops(len, c);
    DataStops(len, d);
    StopsOfFour([Start, SendAddress(AddressRead(a))], AddrReceive(len, c).1, ReceiveData(len, d), [AckOn]);
  }

  lemma StopsOfFour(p: seq<BusOp>, q: seq<BusOp>, r: seq<BusOp>, s: seq<BusOp>)
    requires |p| == 2 && p[0] == Start && p[1].SendAddress? && s == [AckOn]
    ensures multiset(p + q + r + s)[Stop] == multiset(q)[Stop] + multiset(r)[Stop]
  {
    assert p == [p[0], p[1]];
  }

  lemma AddrStops(len: nat, c: Control)
    ensures multiset(AddrReceive(len, c).1)[Stop] == if len <= 1 then 1 else 0
  {
  }

  lemma DataStops(len: nat, d: seq<byte>)
    requires len <= |d|
    ensures multiset(ReceiveData(len, d))[Stop] == if len >= 2 then 1 else 0
  {
    if len > 2 {
      ManyBytesStop(len, d);
    } else if len == 2 {
      assert ReceiveData(len, d) == [Stop, ReadDr(d[0]), ReadDr(d[1]), PosOff];
    } else if len == 1 {
      assert ReceiveData(len, d) == [ReadDr(d[0])];
    }
  }

  lemma ManyBytesStop(len: nat, d: seq<byte>)
    requires 2 < len <= |d|
    ensures multiset(ReceiveData(len, d))[Stop] == 1
  {
    ReadsNoStop(d[..len - 3]);
    var tail := [AckOff, ReadDr(d[len - 3]), Stop, ReadDr(d[len - 2]), ReadDr(d[len - 1])];
    assert ReceiveData(len, d) == Reads(d[..len - 3]) + tail;
    assert multiset(tail)[Stop] == 1;
  }

  lemma {:induction false} ReadsNoStop(bs: seq<byte>)
    ensures Stop !in multiset(Reads(bs))
    decreases |bs|
  {
    if bs != [] {
      ReadsNoStop(bs[1..]);
      assert Reads(bs) == [ReadDr(bs[0])] + Reads(bs[1..]);
    }
  }
}
