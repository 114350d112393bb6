/** The byte ring of src/module_at/ringbuff.c, used by one caller at a time. */
module RingBuffer {
  import opened CStrings

  datatype Code = OK | FULL | TOO_SHORT

  // ---- the bounded queue the ring implements ----

  /** The bytes not yet popped and the sticky full flag. */
  datatype Fifo = Fifo(contents: seq<char>, full: bool)

  function Capacity(size: nat): nat {
    if size == 0 then 0 else size - 1
  }

  function Min(a: nat, b: nat): nat {
    if a < b then a else b
  }

  /** A batch push takes the prefix that fits; it is OK exactly when all of it fits. */
  function Push(q: Fifo, data: seq<char>, size: nat): (Fifo, Code)
    requires |q.contents| <= Capacity(size)
  {
    if |data| > size then (q, TOO_SHORT)
    else
      var k := Min(|data|, Capacity(size) - |q.contents|);
      (Fifo(q.contents + data[..k], q.full || k < |data|), if k == |data| then OK else FULL)
  }

  /** A batch pop gives the oldest bytes, at most `len` of them. */
  function Pop(q: Fifo, len: nat): (Fifo, seq<char>) {
    var k := Min(len, |q.contents|);
    (q.(contents := q.contents[k..]), q.contents[..k])
  }

  lemma PushStart(q: Fifo, size: nat)
    requires |q.contents| <= Capacity(size)
    ensures Push(q, [], size) == (q, OK)
  {
    assert q.contents + [] == q.contents;
  }

  /** One more byte goes in while there is room; the first that does not settles the whole batch. */
  lemma PushStep(q: Fifo, data: seq<char>, i: nat, len: nat, size: nat)
    requires i < len <= |data| && len <= size && |q.contents| + i <= Capacity(size)
    ensures var sofar := Push(q, data[..i], size).0;
            && |sofar.contents| == |q.contents| + i
            && if |sofar.contents| < Capacity(size)
               then Push(q, data[..i + 1], size) == (sofar.(contents := sofar.contents + [data[i]]), OK)
               else Push(q, data[..len], size) == (sofar.(full := true), FULL)
  {
    assert data[..len][..i] == data[..i];
    assert data[..i][..i] == data[..i] && data[..i + 1][..i + 1] == data[..i + 1];
    assert q.contents + data[..i + 1] == q.contents + data[..i] + [data[i]];
  }

  lemma PopStart(q: Fifo)
    ensures Pop(q, 0) == (q, [])
  {
  }

  lemma PopStep(q: Fifo, n: nat)
    requires n < |q.contents|
    ensures var (left, got) := Pop(q, n);
            left.contents != [] &&
            Pop(q, n + 1) == (left.(contents := left.contents[1..]), got + [left.contents[0]])
  {
    assert q.contents[n..][1..] == q.contents[n + 1..];
    assert q.contents[..n + 1] == q.contents[..n] + [q.contents[n]];
  }

  lemma PopMore(q: Fifo, n: nat)
    requires n <= |q.contents| && Pop(q, n).0.contents != []
    ensures n < |q.contents|
  {
  }

  lemma PopEnd(q: Fifo, n: nat, len: nat)
    requires n <= len && n <= |q.contents| && (n == len || Pop(q, n).0.contents == [])
    ensures Pop(q, n) == Pop(q, len)
  {
  }

  // ---- the ring ----

  function After(p: nat, size: nat): nat {
    if p + 1 < size then p + 1 else 0
  }

  /** The bytes after `readpoint` up to `writepoint`, around the end of the buffer. */
  function Stored(b: seq<char>, r: nat, w: nat): seq<char>
    requires r < |b| && w < |b|
  {
    if r <= w then b[r + 1..w + 1] else b[r + 1..] + b[..w + 1]
  }

  lemma StoredSize(b: seq<char>, r: nat, w: nat)
    requires r < |b| && w < |b|
    ensures |Stored(b, r, w)| <= |b| - 1
    ensures |Stored(b, r, w)| == |b| - 1 <==> After(w, |b|) == r
    ensures Stored(b, r, w) == [] <==> r == w
  {
  }

  lemma StoredPush(b: seq<char>, r: nat, w: nat, c: char)
    requires r < |b| && w < |b| && After(w, |b|) != r
    ensures var w' := After(w, |b|); Stored(b[w' := c], r, w') == Stored(b, r, w) + [c]
  {
    var w' := After(w, |b|);
    var b' := b[w' := c];
    if r <= w && w' == 0 {
      assert b[r + 1..w + 1] == b'[r + 1..];
      assert b'[..w' + 1] == [c];
    }
  }

  lemma StoredPop(b: seq<char>, r: nat, w: nat)
    requires r < |b| && w < |b| && r != w
    ensures var r' := After(r, |b|);
            Stored(b, r, w) != [] && Stored(b, r, w)[0] == b[r'] && Stored(b, r', w) == Stored(b, r, w)[1..]
  {
    var r' := After(r, |b|);
    if r > w && r' == 0 {
      assert b[r + 1..] == [];
      assert Stored(b, r, w) == b[..w + 1];
    }
  }

  /** The first bytes of a buffer are these, the rest is as before. */
  predicate Filled(s: seq<char>, got: seq<char>, before: seq<char>) {
    |got| <= |before| && s == got + before[|got|..]
  }

  lemma FillStart(before: seq<char>)
    ensures Filled(before, [], before)
  {
  }

  lemma FillOne(s: seq<char>, got: seq<char>, before: seq<char>, c: char)
    requires Filled(s, got, before) && |got| < |before|
    ensures Filled(s[|got| := c], got + [c], before)
  {
  }

  lemma FillEnd(data: array<char>, got: seq<char>, before: seq<char>)
    requires Filled(data[..], got, before)
    ensures |got| <= data.Length && data[..|got|] == got && |before| == data.Length && data[|got|..] == before[|got|..]
  {
    assert data[..][..|got|] == got && data[..][|got|..] == before[|got|..];
  }

  class RingBuff {
    const buffer: array<char>
    var size: nat
    var readpoint: nat
    var writepoint: nat
    var full: bool

    ghost predicate Valid()
      reads this, buffer
    {
      size == buffer.Length && if size == 0 then readpoint == writepoint == 0 else readpoint < size && writepoint < size
    }

    ghost function Queue(): Fifo
      reads this, buffer
      requires Valid()
    {
      Fifo(if size == 0 then [] else Stored(buffer[..], readpoint, writepoint), full)
    }

    lemma QueueFits()
      requires Valid()
      ensures |Queue().contents| <= Capacity(size)
    {
      if size > 0 {
        StoredSize(buffer[..], readpoint, writepoint);
      }
    }

    /** ring_buff_init on a buffer of its whole size. */
    constructor (buff: array<char>)
      modifies buff
      ensures Valid() && buffer == buff && size == buff.Length && Queue() == Fifo([], false)
    {
      buffer := buff;
      size := buff.Length;
      readpoint, writepoint, full := 0, 0, false;
      new;
      Clear();
    }

    /** memset(buffer, 0, size) */
    method Clear()
      requires Valid()
      modifies buffer
      ensures forall k :: 0 <= k < size ==> buffer[k] == NUL
    {
      for i := 0 to size
        invariant forall k :: 0 <= k < i ==> buffer[k] == NUL
      {
        buffer[i] := NUL;
      }
    }

    /** ring_buff_flush */
    method Flush()
      requires Valid()
      modifies this, buffer
      ensures Valid() && size == old(size) && Queue() == Fifo([], false)
    {
      readpoint, writepoint := 0, 0;
      Clear();
      full := false;
    }

    /** The loop body of ring_buff_push_data. */
    method PushByte(c: char) returns (taken: bool)
      requires Valid() && size > 0
      modifies this, buffer
      ensures Valid() && size == old(size)
      ensures taken == (|old(Queue()).contents| < Capacity(size))
      ensures Queue() ==
              if taken then old(Queue().(contents := Queue().contents + [c])) else old(Queue().(full := true))
    {
      hide Stored;
      StoredSize(buffer[..], readpoint, writepoint);
      if After(writepoint, size) == readpoint {
        full := true;
        return false;
      }
      StoredPush(buffer[..], readpoint, writepoint, c);
      if writepoint < size - 1 {
        writepoint := writepoint + 1;
      } else {
        writepoint := 0;
      }
      buffer[writepoint] := c;
      taken := true;
    }

    /** The loop body of ring_buff_pop_data. */
    method PopByte() returns (c: char)
      requires Valid() && size > 0 && readpoint != writepoint
      modifies this`readpoint
      ensures Valid() && old(Queue()).contents != [] && c == old(Queue()).contents[0]
      ensures Queue() == old(Queue().(contents := Queue().contents[1..]))
    {
      hide Stored;
      StoredSize(buffer[..], readpoint, writepoint);
      StoredPop(buffer[..], readpoint, writepoint);
      if readpoint == size - 1 {
        readpoint := 0;
      } else {
        readpoint := readpoint + 1;
      }
      c := buffer[readpoint];
    }

    /** ring_buff_push_data; a negative length compares as a huge unsigned one. */
    method PushData(data: seq<char>, len: int) returns (rc: Code)
      requires Valid() && len <= |data|
      modifies this, buffer
      ensures Valid() && size == old(size) && |old(Queue()).contents| <= Capacity(size)
      ensures len < 0 ==> rc == TOO_SHORT && Queue() == old(Queue())
      ensures len >= 0 ==> (Queue(), rc) == Push(old(Queue()), data[..len], size)
      ensures rc == TOO_SHORT <==> len < 0 || len > size
      ensures var was, room := old(Queue()), (if size == 0 then 0 else size - 1) - |old(Queue()).contents|;
              && (rc == OK <==> 0 <= len <= size && len <= room)
              && (rc == OK ==> Queue() == Fifo(was.contents + data[..len], was.full))
              && (rc == FULL ==> 0 <= room < len && Queue() == Fifo(was.contents + data[..room], true))
    {
      QueueFits();
      ghost var q := Queue();
      if len < 0 || len > size {
        return TOO_SHORT;
      }
      hide Stored, Push;
      PushStart(q, size);
      for i := 0 to len
        invariant Valid() && size == old(size)
        invariant |q.contents| + i <= Capacity(size)
        invariant (Queue(), OK) == Push(q, data[..i], size)
      {
        PushStep(q, data, i, len, size);
        var taken := PushByte(data[i]);
        if !taken {
          return FULL;
        }
      }
      rc := OK;
    }

    /** ring_buff_pop_data; `n` is the number of bytes copied out. */
    method PopData(data: array<char>, len: int) returns (rc: Code, n: nat)
      requires Valid() && len <= data.Length && data != buffer
      modifies this, data
      ensures Valid() && size == old(size)
      ensures rc == if len < 0 || len > size then TOO_SHORT else OK
      ensures rc == TOO_SHORT ==> n == 0 && Queue() == old(Queue()) && data[..] == old(data[..])
      ensures rc == OK ==> n <= data.Length && (Queue(), data[..n]) == Pop(old(Queue()), len)
      ensures rc == OK ==> data[n..] == old(data[n..])
      ensures rc == OK ==>
                var was := old(Queue());
                && n == (if len <= |was.contents| then len else |was.contents|)
                && data[..n] == was.contents[..n] && Queue() == Fifo(was.contents[n..], was.full)
    {
      n := 0;
      if len < 0 || len > size {
        return TOO_SHORT, n;
      }
      ghost var got: seq<char>;
      ghost var before := data[..];
      n, got := PopLoop(data, len);
      FillEnd(data, got, before);
      rc := OK;
    }

    method PopLoop(data: array<char>, len: nat) returns (n: nat, ghost got: seq<char>)
      requires Valid() && len <= data.Length && data != buffer
      modifies this`readpoint, data
      ensures Valid() && (Queue(), got) == Pop(old(Queue()), len) && |got| == n && Filled(data[..], got, old(data[..]))
    {
      hide Stored, Pop, Capacity, Queue, Valid, Filled;
      ghost var q, before := Queue(), data[..];
      n, got := 0, [];
      PopStart(q);
      FillStart(before);
      while n < len && writepoint != readpoint
        invariant n <= len && n <= |q.contents| && Valid()
        invariant (Queue(), got) == Pop(q, n) && |got| == n && Filled(data[..], got, before)
      {
        QueueEmpty();
        PopMore(q, n);
        PopStep(q, n);
        ghost var now := data[..];
        ghost var c := PopInto(data, n);
        FillOne(now, got, before, c);
        got := got + [c];
        n := n + 1;
      }
      QueueEmpty();
      PopEnd(q, n, len);
    }

    /** data[n] = the next byte */
    method PopInto(data: array<char>, n: nat) returns (ghost c: char)
      requires Valid() && readpoint != writepoint && n < data.Length && data != buffer
      modifies this`readpoint, data
      ensures Valid() && old(Queue()).contents != [] && c == old(Queue()).contents[0]
      ensures Queue() == old(Queue().(contents := Queue().contents[1..]))
      ensures data[..] == old(data[..])[n := c]
    {
      hide Stored;
      var byte := PopByte();
      data[n] := byte;
      c := byte;
    }

    lemma QueueEmpty()
      requires Valid()
      ensures Queue().contents == [] <==> readpoint == writepoint
      ensures readpoint != writepoint ==> size > 0
    {
    }
  }

  // ---- runs ----

  datatype Op = PushOp(data: seq<char>) | PopOp(len: nat) | FlushOp

  function Step(q: Fifo, op: Op, size: nat): (r: Fifo)
    requires |q.contents| <= Capacity(size)
    ensures |r.contents| <= Capacity(size)
  {
    match op
    case PushOp(data) => Push(q, data, size).0
    case PopOp(len) => Pop(q, len).0
    case FlushOp => Fifo([], false)
  }

  function Run(ops: seq<Op>, size: nat): (r: Fifo)
    ensures |r.contents| <= Capacity(size)
  {
    if ops == [] then Fifo([], false) else Step(Run(ops[..|ops| - 1], size), ops[|ops| - 1], size)
  }

  /** The operation at `k` is a push that does not take all its bytes for want of room. */
  predicate Refused(ops: seq<Op>, k: nat, size: nat)
    requires k < |ops|
  {
    ops[k].PushOp? && Push(Run(ops[..k], size), ops[k].data, size).1 == FULL
  }

  /** `full` tells that some push was refused since the start or the last flush. */
  lemma {:induction false} FullMeansRefused(ops: seq<Op>, size: nat)
    ensures Run(ops, size).full <==>
            exists k :: 0 <= k < |ops| && Refused(ops, k, size) && forall j :: k < j < |ops| ==> !ops[j].FlushOp?
  {
    if ops != [] {
      var n := |ops| - 1;
      var before := ops[..n];
      FullMeansRefused(before, size);
      forall k | 0 <= k < n ensures Refused(before, k, size) == Refused(ops, k, size) {
        assert before[..k] == ops[..k];
      }
      assert before == ops[..n];
      if Run(ops, size).full && !Refused(ops, n, size) {
        assert Run(before, size).full;
      }
    }
  }

  /** What one operation takes in, and what it gives out. */
  function In(q: Fifo, op: Op, size: nat): seq<char>
    requires |q.contents| <= Capacity(size)
  {
    if op.PushOp? && |op.data| <= size then op.data[..Min(|op.data|, Capacity(size) - |q.contents|)] else []
  }

  function Out(q: Fifo, op: Op): seq<char> {
    if op.PopOp? then Pop(q, op.len).1 else []
  }

  function Taken(ops: seq<Op>, size: nat): seq<char> {
    if ops == [] then []
    else var n := |ops| - 1; Taken(ops[..n], size) + In(Run(ops[..n], size), ops[n], size)
  }

  function Given(ops: seq<Op>, size: nat): seq<char> {
    if ops == [] then []
    else var n := |ops| - 1; Given(ops[..n], size) + Out(Run(ops[..n], size), ops[n])
  }

  lemma StepConserves(q: Fifo, op: Op, size: nat)
    requires |q.contents| <= Capacity(size) && !op.FlushOp?
    ensures Out(q, op) + Step(q, op, size).contents == q.contents + In(q, op, size)
  {
  }

  /** Without a flush nothing is lost, made up or reordered. */
  lemma {:induction false} RingConserves(ops: seq<Op>, size: nat)
    requires forall k :: 0 <= k < |ops| ==> !ops[k].FlushOp?
    ensures Given(ops, size) + Run(ops, size).contents == Taken(ops, size)
  {
    if ops != [] {
      hide Step, In, Out;
      var n := |ops| - 1;
      RingConserves(ops[..n], size);
      var q := Run(ops[..n], size);
      StepConserves(q, ops[n], size);
      Regroup(Given(ops[..n], size), q.contents, Taken(ops[..n], size),
              Out(q, ops[n]), Run(ops, size).contents, In(q, ops[n], size));
    }
  }

  lemma Regroup(given: seq<char>, left: seq<char>, taken: seq<char>, out: seq<char>, left': seq<char>, in': seq<char>)
    requires given + left == taken && out + left' == left + in'
    ensures (given + out) + left' == taken + in'
  {
    assert (given + out) + left' == given + (out + left');
    assert given + (left + in') == (given + left) + in';
  }
}
