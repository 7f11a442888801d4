/**
 * What the two STM32F4 I2C master engines share: the bus instances, the
 * transfer state, the status flags the event handler samples, the control
 * bits it keeps, and the register actions it performs, in order.
 */
module I2cTypes {
  import opened Common

  datatype I2cName = I2c1 | I2c2 | I2c3

  /** I2C_STATE. */
  datatype XferState = Idle | BusyTx | BusyRx

  /**
   * One register action, in the order the driver performs it: START or STOP
   * requested in CR1, ACK or POS set or cleared, the ADDR flag cleared by
   * reading SR1 then SR2, the address byte written to DR (I2C_WriteAddress),
   * a data byte written to or read from DR, or an application callback
   * invoked with its context.
   */
  datatype BusOp =
    | Start
    | Stop
    | AckOn
    | AckOff
    | PosOn
    | PosOff
    | ClearAddr
    | SendAddress(address: byte)
    | WriteDr(b: byte)
    | ReadDr(b: byte)
    | Call(callback: CallbackId, context: nat)

  /** The SR1 flags the event handler tests: start bit, address sent, byte transfer finished, TXE, RXNE. */
  datatype Sr1 = Sr1(sb: bool, addr: bool, btf: bool, txe: bool, rxne: bool)

  /** CR1 ACK, POS and PE, and the CR2 event, error and buffer interrupt enables. */
  datatype Control = Control(ack: bool, pos: bool, pe: bool, evtIe: bool, errIe: bool, bufIe: bool)

  function InterruptsOn(c: Control): Control
  {
    c.(evtIe := true, errIe := true, bufIe := true)
  }

  function InterruptsOff(c: Control): Control
  {
    c.(evtIe := false, errIe := false, bufIe := false)
  }

  /** The address byte of a write: the 7-bit address shifted left, R/W bit 0 clear. */
  function AddressWrite(a: byte): (b: byte)
    ensures b & 1 == 0 && b >> 1 == a & 0x7F
  {
    (a << 1) & !1
  }

  /** The address byte of a read: the 7-bit address shifted left, R/W bit 0 set. */
  function AddressRead(a: byte): (b: byte)
    ensures b & 1 == 1 && b >> 1 == a & 0x7F
  {
    (a << 1) | 1
  }

  /** The bytes a trace read from DR, in order. */
  function BytesRead(ops: seq<BusOp>): (bs: seq<byte>)
    ensures |bs| <= |ops|
  {
    if ops == [] then []
    else (if ops[0].ReadDr? then [ops[0].b] else []) + BytesRead(ops[1..])
  }

  /** The data bytes a trace wrote to DR, in order (address bytes are `SendAddress`). */
  function BytesWritten(ops: seq<BusOp>): (bs: seq<byte>)
    ensures |bs| <= |ops|
  {
    if ops == [] then []
    else (if ops[0].WriteDr? then [ops[0].b] else []) + BytesWritten(ops[1..])
  }

  lemma {:induction false} BytesReadAppend(a: seq<BusOp>, b: seq<BusOp>)
    ensures BytesRead(a + b) == BytesRead(a) + BytesRead(b)
    decreases |a|
  {
    if a == [] {
      assert a + b == b;
    } else {
      var h := if a[0].ReadDr? then [a[0].b] else [];
      assert (a + b)[0] == a[0];
      assert (a + b)[1..] == a[1..] + b;
      BytesReadAppend(a[1..], b);
      calc {
        BytesRead(a + b);
        h + BytesRead(a[1..] + b);
        h + (BytesRead(a[1..]) + BytesRead(b));
        (h + BytesRead(a[1..])) + BytesRead(b);
      }
    }
  }

  lemma {:induction false} BytesWrittenAppend(a: seq<BusOp>, b: seq<BusOp>)
    ensures BytesWritten(a + b) == BytesWritten(a) + BytesWritten(b)
    decreases |a|
  {
    if a == [] {
      assert a + b == b;
    } else {
      var h := if a[0].WriteDr? then [a[0].b] else [];
      assert (a + b)[0] == a[0];
      assert (a + b)[1..] == a[1..] + b;
      BytesWrittenAppend(a[1..], b);
      calc {
        BytesWritten(a + b);
        h + BytesWritten(a[1..] + b);
        h + (BytesWritten(a[1..]) + BytesWritten(b));
        (h + BytesWritten(a[1..])) + BytesWritten(b);
      }
    }
  }

  /** The callbacks a trace invoked, with their contexts, in order. */
  function Calls(ops: seq<BusOp>): (cs: seq<(CallbackId, nat)>)
    ensures |cs| <= |ops|
  {
    if ops == [] then []
    else (if ops[0].Call? then [(ops[0].callback, ops[0].context)] else []) + Calls(ops[1..])
  }

  lemma {:induction false} CallsAppend(a: seq<BusOp>, b: seq<BusOp>)
    ensures Calls(a + b) == Calls(a) + Calls(b)
    decreases |a|
  {
    if a == [] {
      assert a + b == b;
    } else {
      var h := if a[0].Call? then [(a[0].callback, a[0].context)] else [];
      assert (a + b)[0] == a[0];
      assert (a + b)[1..] == a[1..] + b;
      CallsAppend(a[1..], b);
      calc {
        Calls(a + b);
        h + Calls(a[1..] + b);
        h + (Calls(a[1..]) + Calls(b));
        (h + Calls(a[1..])) + Calls(b);
      }
    }
  }

  /**
   * On ADDR in a master receive, both engines set the ACK and POS bits and
   * place STOP from the number of bytes still to come (section 18.3.3 of
   * RM0383): STOP, after clearing ADDR, for 0 or 1 byte; ACK on for 3 or
   * more; ACK off and POS set for exactly 2.
   */
  function AddrReceive(rxLen: nat, c: Control): (r: (Control, seq<BusOp>))
    ensures ClearAddr in r.1
    ensures Stop in r.1 <==> rxLen <= 1
    ensures Stop in r.1 ==> r.1[|r.1| - 1] == Stop && r.1[|r.1| - 2] == ClearAddr
    ensures rxLen > 0 ==> (r.0.ack <==> rxLen >= 3)
    ensures rxLen == 0 ==> r.0 == c
    ensures r.0.pos <==> c.pos || rxLen == 2
    ensures r.0 == c.(ack := r.0.ack, pos := r.0.pos)
    ensures BytesRead(r.1) == [] && BytesWritten(r.1) == [] && Calls(r.1) == []
  {
    if rxLen == 0 then (c, [ClearAddr, Stop])
    else if rxLen == 1 then (c.(ack := false), [AckOff, ClearAddr, Stop])
    else if rxLen == 2 then (c.(ack := false, pos := true), [AckOff, PosOn, ClearAddr])
    else (c.(ack := true), [AckOn, ClearAddr])
  }

  /** `d'` is what is left of the stream `d` after its first `k` elements were appended to `r`, giving `r'`. */
  predicate Took<T(==)>(d: seq<T>, d': seq<T>, r: seq<T>, r': seq<T>, k: int)
  {
    0 <= k <= |d| && d' == d[k..] && r' == r + d[..k]
  }

  /** `s'` is `s` without its first `k` elements. */
  predicate Dropped<T(==)>(s: seq<T>, s': seq<T>, k: int)
  {
    0 <= k <= |s| && s' == s[k..]
  }

  /** Taking k1 then k2 elements takes k = k1 + k2, and the collected parts concatenate. */
  lemma TookTrans<T>(d0: seq<T>, d1: seq<T>, d2: seq<T>, r0: seq<T>, r1: seq<T>, r2: seq<T>, k1: int, k2: int, k: int)
    requires Took(d0, d1, r0, r1, k1) && Took(d1, d2, r1, r2, k2) && k == k1 + k2
    ensures Took(d0, d2, r0, r2, k)
  {
    assert d0[..k] == d0[..k1] + d1[..k2];
  }

  lemma DroppedTrans<T>(s0: seq<T>, s1: seq<T>, s2: seq<T>, k1: int, k2: int, k: int)
    requires Dropped(s0, s1, k1) && Dropped(s1, s2, k2) && k == k1 + k2
    ensures Dropped(s0, s2, k)
  {
  }
}
