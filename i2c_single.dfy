/**
 * The earlier single-transaction I2C master of i2c/i2c.c. The handle keeps
 * a pointer to one caller-owned transaction; submitting an idle
 * transaction encodes its address in place and makes it the one the event
 * handler drives. Completion only marks it idle: no callback, no interrupt
 * disabling. A blocking master receive applies the same byte-count policy
 * with polling.
 */
module I2cSingle {
  import opened Common
  import opened I2cTypes
  import I2cClock

  /**
   * The transaction the handler works on, as i2c/i2c.c uses it
   * (TxRxState, devAddress, the buffers and their lengths); `rx` is what
   * has been stored through rxBuffer.
   */
  datatype Transfer = Transfer(
    state: XferState,
    devAddress: byte,
    tx: seq<byte>,
    txLen: nat,
    rx: seq<byte>,
    rxLen: nat)

  predicate WellFormed(t: Transfer)
  {
    t.txLen <= |t.tx|
  }

  /** The handle: initialised flag, the transaction pointer, control bits, register actions, DR input. */
  datatype Engine = Engine(
    initialized: bool,
    transfer: Option<Transfer>,
    ctl: Control,
    trace: seq<BusOp>,
    dataIn: seq<byte>)

  /** The event interrupt is only ever enabled by a submit, which also sets the transaction. */
  predicate Inv(e: Engine)
  {
    (e.ctl.evtIe ==> e.transfer.Some?) &&
    (e.transfer.Some? ==> WellFormed(e.transfer.value))
  }

  /**
   * I2C_MasterTransmit_IT (dir BusyTx) and I2C_MasterReceive_IT (dir
   * BusyRx): the returned state and the engine. A busy transaction is
   * returned untouched; an idle one has its address encoded in place and
   * becomes the engine's transaction, replacing any other.
   */
  function Submit(e: Engine, t: Transfer, dir: XferState): (r: (XferState, Engine))
    requires Inv(e) && e.initialized && WellFormed(t) && dir != Idle
    ensures Inv(r.1)
  {
    if t.state != Idle then (t.state, e)
    else
      var address := if dir == BusyTx then AddressWrite(t.devAddress) else AddressRead(t.devAddress);
      var t' := t.(devAddress := address, state := dir);
      (dir, e.(transfer := Some(t'), ctl := InterruptsOn(e.ctl), trace := e.trace + [Start]))
  }

  function Cur(e: Engine): Transfer
    requires e.transfer.Some?
  {
    e.transfer.value
  }

  function Emit(e: Engine, ops: seq<BusOp>): Engine
  {
    e.(trace := e.trace + ops)
  }

  /** `*rxBuffer++ = DR; rxLen--`. */
  function ReadByte(e: Engine): Engine
    requires e.transfer.Some? && Cur(e).rxLen > 0 && |e.dataIn| > 0
  {
    var b := e.dataIn[0];
    var t := Cur(e);
    e.(transfer := Some(t.(rx := t.rx + [b], rxLen := t.rxLen - 1)),
       dataIn := e.dataIn[1..], trace := e.trace + [ReadDr(b)])
  }

  function SetIdle(e: Engine): Engine
    requires e.transfer.Some?
  {
    e.(transfer := Some(Cur(e).(state := Idle)))
  }

  /** SB: the already encoded devAddress is written as it is. */
  function OnSb(e: Engine): (r: Engine)
    requires Inv(e) && e.transfer.Some?
    ensures Inv(r) && r.transfer == e.transfer && r.dataIn == e.dataIn
  {
    Emit(e, [SendAddress(Cur(e).devAddress)])
  }

  function OnAddr(e: Engine): (r: Engine)
    requires Inv(e) && e.transfer.Some?
    ensures Inv(r) && r.transfer == e.transfer && r.dataIn == e.dataIn
  {
    match Cur(e).state
    case Idle => e
    case BusyTx => Emit(e, [ClearAddr])
    case BusyRx =>
      var (c, ops) := AddrReceive(Cur(e).rxLen, e.ctl);
      e.(ctl := c, trace := e.trace + ops)
  }

  predicate CanReadForRxne(e: Engine)
  {
    e.transfer.Some? && Cur(e).state == BusyRx && (Cur(e).rxLen > 3 || Cur(e).rxLen == 1) ==> |e.dataIn| >= 1
  }

  function OnBtf(e: Engine): (r: Engine)
    requires Inv(e) && e.transfer.Some? && |e.dataIn| >= 2
    ensures Inv(r) && r.transfer.Some? && CanReadForRxne(r)
  {
    var t := Cur(e);
    match t.state
    case Idle => e
    case BusyTx => if t.txLen == 0 then SetIdle(Emit(e, [Stop])) else e
    case BusyRx =>
      if t.rxLen == 3 then ReadByte(Emit(e.(ctl := e.ctl.(ack := false)), [AckOff]))
      else if t.rxLen == 2 then SetIdle(ReadByte(ReadByte(Emit(e, [Stop]))))
      else e
  }

  function OnTxe(e: Engine): (r: Engine)
    requires Inv(e) && e.transfer.Some?
    ensures Inv(r) && r.transfer.Some? && (CanReadForRxne(e) ==> CanReadForRxne(r))
  {
    var t := Cur(e);
    if t.state == BusyTx && t.txLen > 0 then
      e.(transfer := Some(t.(tx := t.tx[1..], txLen := t.txLen - 1)), trace := e.trace + [WriteDr(t.tx[0])])
    else e
  }

  function OnRxne(e: Engine): (r: Engine)
    requires Inv(e) && e.transfer.Some? && CanReadForRxne(e)
    ensures Inv(r) && r.transfer.Some?
  {
    var t := Cur(e);
    if t.state == BusyRx then
      if t.rxLen > 3 then ReadByte(e)
      else if t.rxLen == 1 then SetIdle(ReadByte(e))
      else e
    else e
  }

  /** SB, ADDR and BTF, on an engine whose event interrupt is enabled. */
  function Early(e: Engine, f: Sr1): (r: Engine)
    requires Inv(e) && e.transfer.Some? && |e.dataIn| >= 2
    ensures Inv(r) && r.transfer.Some? && CanReadForRxne(r)
  {
    var e1 := if f.sb then OnSb(e) else e;
    var e2 := if f.addr then OnAddr(e1) else e1;
    if f.btf then OnBtf(e2) else e2
  }

  /** TXE and RXNE, which also need the buffer interrupt. */
  function Late(e: Engine, f: Sr1, buf: bool): (r: Engine)
    requires Inv(e) && e.transfer.Some? && CanReadForRxne(e)
    ensures Inv(r) && r.transfer.Some?
  {
    var e4 := if buf && f.txe then OnTxe(e) else e;
    if buf && f.rxne then OnRxne(e4) else e4
  }

  /** I2C_IrqEventHandler of the single-transaction engine: nothing at all unless the event interrupt is enabled. */
  function Handle(e: Engine, f: Sr1): (r: Engine)
    requires Inv(e) && |e.dataIn| >= 2
    ensures Inv(r)
  {
    if !e.ctl.evtIe then e else Late(Early(e, f), f, e.ctl.bufIe)
  }

  /** N reads of DR, in order, as the blocking receive's RXNE loop performs them. */
  function Reads(bs: seq<byte>): (ops: seq<BusOp>)
    ensures |ops| == |bs|
  {
    if bs == [] then [] else [ReadDr(bs[0])] + Reads(bs[1..])
  }

  /** What the blocking receive does after ADDR, by byte count, given the bytes DR delivers. */
  function ReceiveData(len: nat, d: seq<byte>): seq<BusOp>
    requires len <= |d|
  {
    if len == 0 then []
    else if len == 1 then [ReadDr(d[0])]
    else if len == 2 then [Stop, ReadDr(d[0]), ReadDr(d[1]), PosOff]
    else Reads(d[..len - 3]) + [AckOff, ReadDr(d[len - 3]), Stop, ReadDr(d[len - 2]), ReadDr(d[len - 1])]
  }

  /**
   * I2C_MasterReceive's register actions with every wait satisfied: START,
   * the address with R/W set, the shared ADDR policy for `len`, the reads,
   * and ACK re-enabled at the end.
   */
  function ReceiveOps(len: nat, slaveAddr: byte, c: Control, d: seq<byte>): seq<BusOp>
    requires len <= |d|
  {
    [Start, SendAddress(AddressRead(slaveAddr))] + AddrReceive(len, c).1 + ReceiveData(len, d) + [AckOn]
  }

  /** The control bits after I2C_MasterReceive: ACK on; POS cleared again exactly when it set it. */
  function ReceiveCtl(len: nat, c: Control): (r: Control)
    ensures r.ack && r == c.(ack := true, pos := r.pos)
    ensures r.pos <==> c.pos && len != 2
  {
    var p := AddrReceive(len, c).0;
    if len == 2 then p.(pos := false, ack := true) else p.(ack := true)
  }

  class SingleEngine {
    var name: I2cName
    var initialized: bool
    /** obj->transaction; None until the first submit. */
    var transfer: Option<Transfer>
    var ctl: Control
    /** CR2 FREQ, CCR with its FS bit, and TRISE as I2C_Init programs them. */
    var freq: nat
    var ccr: nat
    var fs: bool
    var trise: nat
    var trace: seq<BusOp>
    var dataIn: seq<byte>

    function Abs(): Engine
      reads this
    {
      Engine(initialized, transfer, ctl, trace, dataIn)
    }

    predicate Valid()
      reads this
    {
      Inv(Abs())
    }

    /**
     * I2C_Init: software reset, CR2 FREQ from RCC_GetFrequency (masked to
     * 6 bits), ACK on, standard mode with CCR overwritten to 80, TRISE from
     * the same frequency, peripheral enabled. Interrupts stay disabled and
     * no transaction is set. `pllClock` stands for the PLL output the
     * source leaves unimplemented.
     */
    constructor Init(name: I2cName, cfgr: bv32, pllClock: nat, incoming: seq<byte>)
      requires ((cfgr >> 2) & 0x3) != 0x3
      ensures Valid() && this.name == name && initialized && transfer == None
      ensures ctl == Control(true, false, true, false, false, false)
      ensures freq == I2cClock.FrequencyMHz(cfgr, pllClock) % 64
      ensures ccr == 80 && !fs
      ensures trise == I2cClock.RiseTimeSingle(I2cClock.FrequencyMHz(cfgr, pllClock))
      ensures trace == [] && dataIn == incoming
    {
      this.name := name;
      var mhz := I2cClock.FrequencyMHz(cfgr, pllClock);
      freq := mhz % 64;
      fs := false;
      ccr := 80;
      trise := I2cClock.RiseTimeSingle(mhz);
      ctl := Control(true, false, true, false, false, false);
      transfer := None;
      initialized := true;
      trace := [];
      dataIn := incoming;
    }

    /** I2C_Deinit. */
    method Deinit()
      requires Valid() && initialized
      modifies this
      ensures Valid() && Abs() == old(Abs()).(initialized := false, ctl := old(ctl).(pe := false))
      ensures name == old(name) && freq == old(freq) && ccr == old(ccr) && fs == old(fs) && trise == old(trise)
    {
      ctl := ctl.(pe := false);
      initialized := false;
    }

    method SubmitAs(t: Transfer, dir: XferState) returns (state: XferState)
      requires Valid() && initialized && WellFormed(t) && dir != Idle
      modifies this
      ensures Valid() && (state, Abs()) == Submit(old(Abs()), t, dir)
      ensures name == old(name) && freq == old(freq) && ccr == old(ccr) && fs == old(fs) && trise == old(trise)
    {
      if t.state != Idle {
        return t.state;
      }
      var address := if dir == BusyTx then AddressWrite(t.devAddress) else AddressRead(t.devAddress);
      transfer := Some(t.(devAddress := address, state := dir));
      ctl := InterruptsOn(ctl);
      trace := trace + [Start];
      state := dir;
    }

    /** I2C_MasterTransmit_IT. */
    method MasterTransmitIT(t: Transfer) returns (state: XferState)
      requires Valid() && initialized && WellFormed(t)
      modifies this
      ensures Valid() && (state, Abs()) == Submit(old(Abs()), t, BusyTx)
      ensures name == old(name) && freq == old(freq) && ccr == old(ccr) && fs == old(fs) && trise == old(trise)
    {
      state := SubmitAs(t, BusyTx);
    }

    /** I2C_MasterReceive_IT. */
    method MasterReceiveIT(t: Transfer) returns (state: XferState)
      requires Valid() && initialized && WellFormed(t)
      modifies this
      ensures Valid() && (state, Abs()) == Submit(old(Abs()), t, BusyRx)
      ensures name == old(name) && freq == old(freq) && ccr == old(ccr) && fs == old(fs) && trise == old(trise)
    {
      state := SubmitAs(t, BusyRx);
    }

    method Read()
      requires Valid() && transfer.Some? && transfer.value.rxLen > 0 && |dataIn| > 0
      modifies this`transfer, this`dataIn, this`trace
      ensures Valid() && Abs() == ReadByte(old(Abs()))
    {
      var b := dataIn[0];
      var t := transfer.value;
      transfer := Some(t.(rx := t.rx + [b], rxLen := t.rxLen - 1));
      dataIn := dataIn[1..];
      trace := trace + [ReadDr(b)];
    }

    method SbPhase()
      requires Valid() && transfer.Some?
      modifies this`trace
      ensures Valid() && Abs() == OnSb(old(Abs()))
    {
      trace := trace + [SendAddress(transfer.value.devAddress)];
    }

    method AddrPhase()
      requires Valid() && transfer.Some?
      modifies this`trace, this`ctl
      ensures Valid() && Abs() == OnAddr(old(Abs()))
    {
      var t := transfer.value;
      if t.state == BusyTx {
        trace := trace + [ClearAddr];
      } else if t.state == BusyRx {
        var (c, ops) := AddrReceive(t.rxLen, ctl);
        ctl := c;
        trace := trace + ops;
      }
    }

    method BtfPhase()
      requires Valid() && transfer.Some? && |dataIn| >= 2
      modifies this`transfer, this`dataIn, this`trace, this`ctl
      ensures Valid() && Abs() == OnBtf(old(Abs()))
    {
      var t := transfer.value;
      if t.state == BusyTx && t.txLen == 0 {
        trace := trace + [Stop];
        transfer := Some(t.(state := Idle));
      } else if t.state == BusyRx && t.rxLen == 3 {
        ctl := ctl.(ack := false);
        trace := trace + [AckOff];
        Read();
      } else if t.state == BusyRx && t.rxLen == 2 {
        trace := trace + [Stop];
        Read();
        Read();
        transfer := Some(transfer.value.(state := Idle));
      }
    }

    method EarlyPhases(f: Sr1)
      requires Valid() && transfer.Some? && |dataIn| >= 2
      modifies this`transfer, this`dataIn, this`trace, this`ctl
      ensures Valid() && Abs() == Early(old(Abs()), f)
    {
      if f.sb {
        SbPhase();
      }
      if f.addr {
        AddrPhase();
      }
      if f.btf {
        BtfPhase();
      }
    }

    method LatePhases(f: Sr1, buf: bool)
      requires Valid() && transfer.Some? && CanReadForRxne(Abs())
      modifies this`transfer, this`dataIn, this`trace
      ensures Valid() && Abs() == Late(old(Abs()), f, buf)
    {
      if buf && f.txe {
        var t := transfer.value;
        if t.state == BusyTx && t.txLen > 0 {
          trace := trace + [WriteDr(t.tx[0])];
          transfer := Some(t.(tx := t.tx[1..], txLen := t.txLen - 1));
        }
      }
      if buf && f.rxne {
        var t := transfer.value;
        if t.state == BusyRx && t.rxLen > 3 {
          Read();
        } else if t.state == BusyRx && t.rxLen == 1 {
          Read();
          transfer := Some(transfer.value.(state := Idle));
        }
      }
    }

    /** I2C_IrqEventHandler. */
    method IrqEventHandler(f: Sr1)
      requires Valid() && |dataIn| >= 2
      modifies this
      ensures Valid() && Abs() == Handle(old(Abs()), f)
      ensures name == old(name) && freq == old(freq) && ccr == old(ccr) && fs == old(fs) && trise == old(trise)
    {
      if !ctl.evtIe {
        return;
      }
      var buf := ctl.bufIe;
      EarlyPhases(f);
      LatePhases(f, buf);
    }

    /**
     * I2C_MasterReceive with every flag wait satisfied: reads `len` bytes
     * into rxBuffer by the byte-count cases 0, 1, 2 and more, and leaves
     * ACK enabled.
     */
    method MasterReceive(rxBuffer: array<byte>, len: nat, slaveAddr: byte)
      requires Valid() && initialized && len < 256 && len <= rxBuffer.Length && len <= |dataIn|
      modifies this`trace, this`dataIn, this`ctl, rxBuffer
      ensures Valid()
      ensures rxBuffer[..len] == old(dataIn)[..len] && rxBuffer[len..] == old(rxBuffer[len..])
      ensures dataIn == old(dataIn)[len..]
      ensures trace == old(trace) + ReceiveOps(len, slaveAddr, old(ctl), old(dataIn))
      ensures ctl == ReceiveCtl(len, old(ctl))
    {
      ghost var t0 := trace;
      ghost var d := dataIn;
      ghost var c0 := ctl;
      ReceiveAddress(len, slaveAddr);
      ghost var t1 := trace;
      ReceiveAll(rxBuffer, len);
      ReceiveFinish();
      ghost var pre: seq<BusOp> := [Start, SendAddress(AddressRead(slaveAddr))];
      Regroup(t0, pre, AddrReceive(len, c0).1, ReceiveData(len, d), [AckOn]);
    }

    /** ACK enabled again once the bytes are in. */
    method ReceiveFinish()
      requires Valid()
      modifies this`trace, this`ctl
      ensures Valid() && ctl == old(ctl).(ack := true) && trace == old(trace) + [AckOn]
    {
      ctl := ctl.(ack := true);
      trace := trace + [AckOn];
    }

    /** START, the address with R/W set, and the ADDR policy for `len`. */
    method ReceiveAddress(len: nat, slaveAddr: byte)
      requires Valid()
      modifies this`trace, this`ctl
      ensures Valid() && ctl == AddrReceive(len, old(ctl)).0
      ensures trace == old(trace) + [Start, SendAddress(AddressRead(slaveAddr))] + AddrReceive(len, old(ctl)).1
    {
      var (c, ops) := AddrReceive(len, ctl);
      trace := trace + [Start, SendAddress(AddressRead(slaveAddr))] + ops;
      ctl := c;
    }

    /** The data phase of I2C_MasterReceive, after ADDR has been cleared. */
    method ReceiveAll(rxBuffer: array<byte>, len: nat)
      requires Valid() && len <= rxBuffer.Length && len <= |dataIn|
      modifies this`trace, this`dataIn, this`ctl, rxBuffer
      ensures Valid()
      ensures rxBuffer[..len] == old(dataIn)[..len] && rxBuffer[len..] == old(rxBuffer[len..])
      ensures dataIn == old(dataIn)[len..]
      ensures trace == old(trace) + ReceiveData(len, old(dataIn))
      ensures ctl == if len == 2 then old(ctl).(pos := false) else if len > 2 then old(ctl).(ack := false) else old(ctl)
    {
      if len == 1 {
        ReceiveOne(rxBuffer);
      } else if len == 2 {
        ReceiveTwo(rxBuffer);
      } else if len > 2 {
        ghost var d := dataIn;
        ghost var t0 := trace;
        ReceiveLoop(rxBuffer, len);
        ReceiveLastThree(rxBuffer, len);
        assert d[..len] == d[..len - 3] + d[len - 3..len];
      }
    }

    /** One byte: STOP was already requested on ADDR; read DR once. */
    method ReceiveOne(rxBuffer: array<byte>)
      requires Valid() && 1 <= rxBuffer.Length && 1 <= |dataIn|
      modifies this`trace, this`dataIn, rxBuffer
      ensures Valid()
      ensures rxBuffer[..1] == old(dataIn)[..1] && rxBuffer[1..] == old(rxBuffer[1..])
      ensures dataIn == old(dataIn)[1..]
      ensures trace == old(trace) + ReceiveData(1, old(dataIn))
    {
      rxBuffer[0] := dataIn[0];
      trace := trace + [ReadDr(dataIn[0])];
      dataIn := dataIn[1..];
    }

    /** Two bytes: STOP, read DR twice, clear POS. */
    method ReceiveTwo(rxBuffer: array<byte>)
      requires Valid() && 2 <= rxBuffer.Length && 2 <= |dataIn|
      modifies this`trace, this`dataIn, this`ctl, rxBuffer
      ensures Valid()
      ensures rxBuffer[..2] == old(dataIn)[..2] && rxBuffer[2..] == old(rxBuffer[2..])
      ensures dataIn == old(dataIn)[2..]
      ensures trace == old(trace) + ReceiveData(2, old(dataIn))
      ensures ctl == old(ctl).(pos := false)
    {
      trace := trace + [Stop];
      rxBuffer[0] := dataIn[0];
      rxBuffer[1] := dataIn[1];
      trace := trace + [ReadDr(dataIn[0]), ReadDr(dataIn[1])];
      dataIn := dataIn[2..];
      ctl := ctl.(pos := false);
      trace := trace + [PosOff];
    }

    /** The RXNE loop: every byte but the last three, acknowledged. */
    method ReceiveLoop(rxBuffer: array<byte>, len: nat)
      requires Valid() && 3 <= len <= rxBuffer.Length && len <= |dataIn|
      modifies this`trace, this`dataIn, rxBuffer
      ensures Valid()
      ensures rxBuffer[..len - 3] == old(dataIn)[..len - 3] && rxBuffer[len - 3..] == old(rxBuffer[len - 3..])
      ensures dataIn == old(dataIn)[len - 3..]
      ensures trace == old(trace) + Reads(old(dataIn)[..len - 3])
    {
      ghost var d := dataIn;
      ghost var head := trace;
      var i := 0;
      var remaining := len;
      while remaining > 3
        invariant 0 <= i <= len - 3 && remaining == len - i
        invariant dataIn == d[i..]
        invariant trace == head + Reads(d[..i])
        invariant rxBuffer[..i] == d[..i] && rxBuffer[len - 3..] == old(rxBuffer[len - 3..])
      {
        rxBuffer[i] := dataIn[0];
        ReadsSnoc(d, i);
        trace := trace + [ReadDr(dataIn[0])];
        dataIn := dataIn[1..];
        i := i + 1;
        remaining := remaining - 1;
        assert rxBuffer[..i] == rxBuffer[..i - 1] + [d[i - 1]];
      }
    }

    /** The last three bytes: ACK off, read N-2, STOP, read N-1 and N. */
    method ReceiveLastThree(rxBuffer: array<byte>, len: nat)
      requires Valid() && 3 <= len <= rxBuffer.Length && 3 <= |dataIn|
      modifies this`trace, this`dataIn, this`ctl, rxBuffer
      ensures Valid() && ctl == old(ctl).(ack := false)
      ensures rxBuffer[..len - 3] == old(rxBuffer[..len - 3]) && rxBuffer[len..] == old(rxBuffer[len..])
      ensures rxBuffer[len - 3..len] == old(dataIn)[..3] && dataIn == old(dataIn)[3..]
      ensures trace == old(trace) + [AckOff, ReadDr(old(dataIn)[0]), Stop, ReadDr(old(dataIn)[1]), ReadDr(old(dataIn)[2])]
    {
      var i := len - 3;
      ctl := ctl.(ack := false);
      trace := trace + [AckOff, ReadDr(dataIn[0])];
      rxBuffer[i] := dataIn[0];
      trace := trace + [Stop, ReadDr(dataIn[1]), ReadDr(dataIn[2])];
      rxBuffer[i + 1] := dataIn[1];
      rxBuffer[i + 2] := dataIn[2];
      dataIn := dataIn[3..];
    }
  }

  lemma Regroup<T>(a: seq<T>, b: seq<T>, c: seq<T>, d: seq<T>, e: seq<T>)
    ensures a + b + c + d + e == a + (b + c + d + e)
  {
  }

  lemma ReadsSnoc(d: seq<byte>, i: nat)
    requires i < |d|
    ensures Reads(d[..i + 1]) == Reads(d[..i]) + [ReadDr(d[i])]
  {
    ReadsAppend(d[..i], [d[i]]);
    assert d[..i + 1] == d[..i] + [d[i]];
  }

  lemma {:induction false} ReadsAppend(a: seq<byte>, b: seq<byte>)
    ensures Reads(a + b) == Reads(a) + Reads(b)
    decreases |a|
  {
    if a == [] {
      assert a + b == b;
    } else {
      assert (a + b)[0] == a[0];
      assert (a + b)[1..] == a[1..] + b;
      ReadsAppend(a[1..], b);
    }
  }
}
