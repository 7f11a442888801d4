/**
 * The fixed-capacity ring buffer of buffer/buffer.c.
 *
 * The C buffer stores records of `typeSize` bytes in `length` bytes of
 * caller-provided storage and keeps `start` and `end` as byte offsets.
 * Here the storage is an array of records, one element per slot, and
 * `start` and `end` stay byte offsets: slot k begins at byte k * typeSize.
 * One slot is always kept free, so a buffer of n slots holds n - 1 records.
 */
module Ring {
  import opened Common
  import opened Arith

  /** The byte offset of the slot after `index`, wrapping at `length`. */
  function NextIndex(index: nat, typeSize: nat, length: nat): nat
    requires length > 0
  {
    (index + typeSize) % length
  }

  /** The records of `d` from slot `head` on, `count` of them, wrapping round. */
  function Window<T>(d: seq<T>, head: nat, count: nat): (w: seq<T>)
    requires head < |d| && count <= |d|
    ensures |w| == count
    ensures forall i :: 0 <= i < count ==> w[i] == d[Wrap(head + i, |d|)]
  {
    seq(count, i requires 0 <= i < count => d[Wrap(head + i, |d|)])
  }

  /** Slot `x` of a ring of `n` slots, for x below 2n. */
  function Wrap(x: nat, n: nat): (k: nat)
    requires x < 2 * n
    ensures k < n
  {
    if x < n then x else x - n
  }

  /** The number of slots from `head` forward to `tail` in a ring of `n` slots. */
  function Dist(head: nat, tail: nat, n: nat): (c: nat)
    requires head < n && tail < n
    ensures c < n
  {
    if tail >= head then tail - head else tail + n - head
  }

  /**
   * What a put does to the queued records: appended when there is room;
   * when full, refused without overwrite, otherwise the oldest record is
   * dropped first (and with no room at all the new record is lost as well).
   */
  function Enqueue<T>(q: seq<T>, capacity: nat, overwrite: bool, x: T): (r: (bool, seq<T>))
    requires |q| <= capacity
  {
    if |q| < capacity then (true, q + [x])
    else if !overwrite then (false, q)
    else if capacity == 0 then (true, [])
    else (true, q[1..] + [x])
  }

  /** A put never leaves more records than the capacity, and keeps the newest record when it accepts. */
  lemma EnqueueBounded<T>(q: seq<T>, capacity: nat, overwrite: bool, x: T)
    requires |q| <= capacity
    ensures |Enqueue(q, capacity, overwrite, x).1| <= capacity
    ensures Enqueue(q, capacity, overwrite, x).0 <==> (|q| < capacity || overwrite)
    ensures Enqueue(q, capacity, overwrite, x).0 && capacity > 0 ==>
              Enqueue(q, capacity, overwrite, x).1[|Enqueue(q, capacity, overwrite, x).1| - 1] == x
  {
  }

  /**
   * Putting `xs` one after another into a queue that never overflows
   * appends them in order: the queue is first in, first out.
   */
  function EnqueueAll<T>(q: seq<T>, capacity: nat, overwrite: bool, xs: seq<T>): (r: seq<T>)
    requires |q| <= capacity
    ensures |r| <= capacity
    decreases |xs|
  {
    if xs == [] then q
    else
      EnqueueBounded(q, capacity, overwrite, xs[0]);
      EnqueueAll(Enqueue(q, capacity, overwrite, xs[0]).1, capacity, overwrite, xs[1..])
  }

  lemma {:induction false} EnqueueAllFifo<T>(q: seq<T>, capacity: nat, overwrite: bool, xs: seq<T>)
    requires |q| + |xs| <= capacity
    ensures EnqueueAll(q, capacity, overwrite, xs) == q + xs
    decreases |xs|
  {
    if xs != [] {
      assert Enqueue(q, capacity, overwrite, xs[0]).1 == q + [xs[0]];
      EnqueueAllFifo(q + [xs[0]], capacity, overwrite, xs[1..]);
      assert (q + [xs[0]]) + xs[1..] == q + xs;
    }
  }

  /**
   * With overwrite on, putting `xs` leaves the newest records: the last
   * `capacity` records of everything put so far (for a capacity above zero).
   */
  lemma {:induction false} EnqueueAllOverwrite<T>(q: seq<T>, capacity: nat, xs: seq<T>)
    requires 0 < capacity && |q| <= capacity
    ensures EnqueueAll(q, capacity, true, xs) == Newest(q + xs, capacity)
    decreases |xs|
  {
    if xs != [] {
      var q' := Enqueue(q, capacity, true, xs[0]).1;
      OverwriteOne(q, capacity, xs[0]);
      EnqueueAllOverwrite(q', capacity, xs[1..]);
      NewestAppend(q + [xs[0]], capacity, xs[1..]);
      assert (q + [xs[0]]) + xs[1..] == q + xs;
    }
  }

  /** One put with overwrite on keeps the newest `capacity` records. */
  lemma OverwriteOne<T>(q: seq<T>, capacity: nat, x: T)
    requires 0 < capacity && |q| <= capacity
    ensures Enqueue(q, capacity, true, x) == (true, Newest(q + [x], capacity))
  {
    if |q| == capacity {
      assert q[1..] + [x] == (q + [x])[1..];
    }
  }

  /** The last `n` elements of `s` (all of `s` when it is shorter). */
  function Newest<T>(s: seq<T>, n: nat): (r: seq<T>)
    ensures |r| == if |s| <= n then |s| else n
    ensures forall i :: 0 <= i < |r| ==> r[i] == s[|s| - |r| + i]
  {
    if |s| <= n then s else s[|s| - n..]
  }

  lemma NewestAppend<T>(s: seq<T>, n: nat, t: seq<T>)
    ensures Newest(Newest(s, n) + t, n) == Newest(s + t, n)
  {
    var a := Newest(Newest(s, n) + t, n);
    var b := Newest(s + t, n);
    assert |a| == |b|;
    forall i | 0 <= i < |a| ensures a[i] == b[i] {
      if |s| - |Newest(s, n)| + (|Newest(s, n)| + |t| - |a| + i) >= |s| {
        assert a[i] == t[|t| - |a| + i];
      }
    }
  }

  class Buffer<T(0)> {
    /** The storage, one element per slot of `typeSize` bytes. */
    var data: array<T>
    /** Byte offset of the oldest record. */
    var start: nat
    /** Byte offset of the slot the next record goes into. */
    var end: nat
    /** Size of the storage in bytes. */
    var length: nat
    /** Size of one record in bytes. */
    var typeSize: nat
    /** Whether a put into a full buffer drops the oldest record. */
    var overwrite: bool

    ghost predicate Valid()
      reads this
    {
      typeSize > 0 && data.Length > 0 && length == data.Length * typeSize && length < 0x1_0000 &&
      start < length && end < length && start % typeSize == 0 && end % typeSize == 0
    }

    /** The slot the head offset `start` names. */
    function Head(): nat
      reads this
      requires Valid()
    {
      start / typeSize
    }

    function Tail(): nat
      reads this
      requires Valid()
    {
      end / typeSize
    }

    /** The queued records, oldest first. */
    ghost function Contents(): (s: seq<T>)
      reads this, data
      requires Valid()
      ensures |s| < data.Length
    {
      SlotsAreSlots(start, end, typeSize, data.Length);
      Window(data[..], Head(), Dist(Head(), Tail(), data.Length))
    }

    /** BufferCapacity: one slot is always left free. */
    function Capacity(): (c: nat)
      reads this
      requires Valid()
      ensures c == data.Length - 1
    {
      MulDiv(data.Length - 1, typeSize);
      SubMul(data.Length, 1, typeSize);
      (length - typeSize) / typeSize
    }

    /** BufferCount: the number of queued records. */
    function Count(): (c: nat)
      reads this, data
      requires Valid()
      ensures c == |Contents()|
    {
      CountIsSlots(start, end, typeSize, data.Length);
      (if end >= start then end - start else length - start + end) / typeSize
    }

    /** BufferIsEmpty. */
    function IsEmpty(): (b: bool)
      reads this, data
      requires Valid()
      ensures b <==> Contents() == []
    {
      SlotsAreSlots(start, end, typeSize, data.Length);
      end == start
    }

    /** BufferIsFull: the slot after `end` is `start`. */
    function IsFull(): (b: bool)
      reads this, data
      requires Valid()
      ensures b <==> |Contents()| == Capacity()
    {
      SlotsAreSlots(start, end, typeSize, data.Length);
      NextSlot(Tail(), typeSize, data.Length);
      NextIndex(end, typeSize, length) == start
    }

    /** BufferCreate over caller-provided storage of `length` bytes. */
    constructor (storage: array<T>, length: nat, typeSize: nat, overwrite: bool)
      requires typeSize > 0 && storage.Length > 0
      requires length == storage.Length * typeSize && length < 0x1_0000
      ensures Valid() && data == storage && this.overwrite == overwrite
      ensures this.length == length && this.typeSize == typeSize
      ensures Contents() == [] && Capacity() == storage.Length - 1
    {
      data := storage;
      end := 0;
      this.length := length;
      this.overwrite := overwrite;
      start := 0;
      this.typeSize := typeSize;
    }

    /** BufferClear: forget every record. */
    method Clear()
      requires Valid()
      modifies this
      ensures Valid() && Contents() == []
      ensures data == old(data) && length == old(length) && typeSize == old(typeSize)
      ensures overwrite == old(overwrite)
    {
      end := 0;
      start := 0;
    }

    /** BufferPut. */
    method Put(x: T) returns (ok: bool)
      requires Valid()
      modifies this, data
      ensures Valid() && data == old(data) && length == old(length) && typeSize == old(typeSize)
      ensures overwrite == old(overwrite)
      ensures (ok, Contents()) == Enqueue(old(Contents()), Capacity(), overwrite, x)
    {
      ghost var n := data.Length;
      ghost var d := data[..];
      SlotsAreSlots(start, end, typeSize, n);
      NextSlot(Tail(), typeSize, n);
      NextSlot(Head(), typeSize, n);
      PutSlots(d, Head(), Tail(), x);
      var full := NextIndex(end, typeSize, length) == start;
      if full {
        if !overwrite {
          return false;
        }
        start := NextIndex(start, typeSize, length);
      }
      data[end / typeSize] := x;
      end := NextIndex(end, typeSize, length);
      ok := true;
    }

    /** BufferGet: take the oldest record; on an empty buffer `dest` is left as it was. */
    method Get(dest: T) returns (ok: bool, item: T)
      requires Valid()
      modifies this
      ensures Valid() && data == old(data) && length == old(length) && typeSize == old(typeSize)
      ensures overwrite == old(overwrite)
      ensures ok <==> old(Contents()) != []
      ensures ok ==> item == old(Contents())[0] && Contents() == old(Contents())[1..]
      ensures !ok ==> item == dest && Contents() == old(Contents())
    {
      SlotsAreSlots(start, end, typeSize, data.Length);
      if end == start {
        return false, dest;
      }
      ghost var q := Contents();
      item := data[start / typeSize];
      assert item == q[0];
      NextSlot(Head(), typeSize, data.Length);
      start := NextIndex(start, typeSize, length);
      SlotsAreSlots(start, end, typeSize, data.Length);
      WindowDrop(data[..], old(Head()), |q|);
      ok := true;
    }

    /** BufferFront: the oldest record, which stays queued. */
    function Front(): (r: Option<T>)
      reads this, data
      requires Valid()
      ensures r == if Contents() == [] then None else Some(Contents()[0])
    {
      SlotsAreSlots(start, end, typeSize, data.Length);
      if end == start then None else Some(data[start / typeSize])
    }

    /** A write through the pointer BufferFront returns: the oldest record is replaced in place. */
    method ReplaceFront(x: T)
      requires Valid() && Contents() != []
      modifies data
      ensures Valid() && Contents() == [x] + old(Contents())[1..]
    {
      SlotsAreSlots(start, end, typeSize, data.Length);
      ghost var d := data[..];
      ghost var c := |Contents()|;
      data[start / typeSize] := x;
      assert data[..] == d[Head() := x];
      assert Contents() == [x] + old(Contents())[1..];
    }
  }

  /** Byte offsets that are multiples of the record size name the slots they start. */
  lemma SlotsAreSlots(start: nat, end: nat, ts: nat, n: nat)
    requires ts > 0 && n > 0 && start < n * ts && end < n * ts
    requires start % ts == 0 && end % ts == 0
    ensures start == (start / ts) * ts && end == (end / ts) * ts
    ensures start / ts < n && end / ts < n
    ensures (start == end) <==> (start / ts == end / ts)
  {
    assert start == (start / ts) * ts;
    assert end == (end / ts) * ts;
    if start / ts >= n {
      if start / ts > n {
        MulMonoStrict(n, start / ts, ts);
      }
    }
    if end / ts >= n {
      if end / ts > n {
        MulMonoStrict(n, end / ts, ts);
      }
    }
  }

  /** The byte offset after slot k is the start of the next slot, wrapping to slot 0. */
  lemma NextSlot(k: nat, ts: nat, n: nat)
    requires ts > 0 && k < n
    ensures NextIndex(k * ts, ts, n * ts) == (if k + 1 < n then k + 1 else 0) * ts
    ensures NextIndex(k * ts, ts, n * ts) % ts == 0
    ensures NextIndex(k * ts, ts, n * ts) / ts == if k + 1 < n then k + 1 else 0
  {
    var x := k * ts + ts;
    var len := n * ts;
    AddMul(k, 1, ts);
    assert x == (k + 1) * ts;
    if k + 1 < n {
      MulMonoStrict(k + 1, n, ts);
      ModSmall(x, len);
      MulDiv(k + 1, ts);
    } else {
      assert x == len;
      MulMonoStrict(0, n, ts);
      DivUnique(x, len, 1, 0);
      MulDiv(0, ts);
    }
  }

  /** BufferCount's byte arithmetic divided by the record size is the slot distance. */
  lemma CountIsSlots(start: nat, end: nat, ts: nat, n: nat)
    requires ts > 0 && n > 0 && start < n * ts && end < n * ts
    requires start % ts == 0 && end % ts == 0
    ensures (if end >= start then end - start else n * ts - start + end) / ts
            == Dist(start / ts, end / ts, n)
  {
    SlotsAreSlots(start, end, ts, n);
    var a, b := start / ts, end / ts;
    if end >= start {
      assert b >= a;
      SubMul(b, a, ts);
      MulDiv(b - a, ts);
    } else {
      assert b < a;
      SubMul(n, a, ts);
      assert n * ts - start + end == (n - a) * ts + b * ts;
      assert (n - a) * ts + b * ts == (n - a + b) * ts;
      MulDiv(n - a + b, ts);
    }
  }

  /** The slot after slot k in a ring of n slots. */
  function Succ(k: nat, n: nat): nat
  {
    if k + 1 < n then k + 1 else 0
  }

  /**
   * BufferPut on slots: writing `x` at the tail and advancing the tail (and,
   * when full, first the head) changes the window as Enqueue says.
   */
  lemma PutSlots<T>(d: seq<T>, h: nat, t: nat, x: T)
    requires h < |d| && t < |d|
    ensures var n := |d|;
            var q := Window(d, h, Dist(h, t, n));
            var full := Succ(t, n) == h;
            var h' := if full then Succ(h, n) else h;
            |q| <= n - 1 &&
            Window(d[t := x], h', Dist(h', Succ(t, n), n))
              == Enqueue(q, n - 1, true, x).1 &&
            (full <==> |q| == n - 1)
  {
    var n := |d|;
    var c := Dist(h, t, n);
    assert Wrap(h + c, n) == t;
    WindowUpdate(d, h, c, x);
    if Succ(t, n) == h && n > 1 {
      WindowDrop(d[t := x], h, c + 1);
      assert Window(d[t := x], h, c + 1)[1..] == Window(d, h, c)[1..] + [x];
    }
  }

  /** Writing the slot after a window of c < n records extends the window by that record. */
  lemma WindowUpdate<T>(d: seq<T>, h: nat, c: nat, x: T)
    requires h < |d| && c < |d|
    ensures Window(d[Wrap(h + c, |d|) := x], h, c + 1) == Window(d, h, c) + [x]
  {
  }

  /** Taking the first record of a window leaves the window from the next slot. */
  lemma WindowDrop<T>(d: seq<T>, h: nat, c: nat)
    requires h < |d| && 0 < c <= |d|
    ensures Window(d, Wrap(h + 1, |d|), c - 1) == Window(d, h, c)[1..]
  {
  }
}
