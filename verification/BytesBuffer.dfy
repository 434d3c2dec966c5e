/** `muggle/c/memory/bytes_buffer.c`: a byte ring that may jump to its start to keep memory contiguous. */
module BytesBuffer {

  type Byte = bv8

  /** The positions of `muggle_bytes_buffer_t`: capacity, write, read and truncate position. */
  datatype Marks = Marks(c: nat, w: nat, r: nat, t: nat)

  /** The order the code keeps among its positions: the truncate mark is never behind the writer. */
  predicate Ordered(m: Marks) {
    && m.w < m.c && 0 < m.t <= m.c && m.w <= m.t && m.r <= m.t
    && (m.w == m.t ==> m.r <= m.w) && (m.w == m.r ==> m.r == 0)
  }

  /** The bytes waiting to be read. */
  function Queue(b: seq<Byte>, m: Marks): seq<Byte>
    requires Ordered(m) && |b| == m.c
  {
    if m.w >= m.r then b[m.r..m.w] else b[m.r..m.t] + b[..m.w]
  }

  function ContiguousWritable(m: Marks): int {
    if m.w >= m.r then if m.r != 0 then m.c - m.w else m.c - m.w - 1 else m.r - m.w - 1
  }

  function JumpWritable(m: Marks): int {
    if m.w >= m.r && m.r != 0 then m.r - 1 else 0
  }

  function ContiguousReadable(m: Marks): int {
    if m.w >= m.r then m.w - m.r else m.t - m.r
  }

  function JumpReadable(m: Marks): int {
    if m.w >= m.r then 0 else m.w
  }

  /** `muggle_bytes_buffer_writable` and `muggle_bytes_buffer_readable`. */
  function Writable(m: Marks): int { ContiguousWritable(m) + JumpWritable(m) }

  function Readable(m: Marks): int { ContiguousReadable(m) + JumpReadable(m) }

  function Cleared(m: Marks): Marks { m.(w := 0, r := 0, t := m.c) }

  function Refreshed(m: Marks): Marks { if m.w == m.r then Cleared(m) else m }

  /** The positions after writing `n` contiguous bytes. */
  function Advanced(m: Marks, n: nat): Marks {
    var w := m.w + n;
    m.(w := if w == m.c then 0 else w, t := if m.t < w then m.c else m.t)
  }

  /** The positions after jumping to the start and writing `n` bytes there. */
  function Jumped(m: Marks, n: nat): Marks { m.(t := m.w, w := n) }

  /** What is waiting and what can be written never exceed the capacity minus one; no byte is lost but those behind a jump. */
  lemma Room(b: seq<Byte>, m: Marks)
    requires Ordered(m) && |b| == m.c
    ensures |Queue(b, m)| == Readable(m) && Readable(m) + Writable(m) == (if m.w >= m.r then m.c else m.t) - 1
    ensures 0 <= Writable(m) && 0 <= ContiguousWritable(m) && 0 <= JumpWritable(m)
  {
  }

  /** Without any capacity: every write is refused, even of no bytes, only empty reads succeed, and no call moves a
      position. */
  lemma NoCapacity(n: nat)
    ensures var m := Marks(0, 0, 0, 0);
      && Writable(m) < n && ContiguousWritable(m) < n && (n <= JumpWritable(m) ==> Jumped(m, n) == m)
      && Readable(m) == ContiguousReadable(m) == 0 && Refreshed(m) == m
  {
  }

  /** `s` with `src` laid over it from `at` on. */
  function Overlay(s: seq<Byte>, at: nat, src: seq<Byte>): (o: seq<Byte>)
    requires at + |src| <= |s|
    ensures |o| == |s|
  {
    s[..at] + src + s[at + |src|..]
  }

  lemma WriteAhead(b: seq<Byte>, m: Marks, src: seq<Byte>)
    requires Ordered(m) && |b| == m.c && |src| <= ContiguousWritable(m)
    ensures m.w + |src| <= |b|
    ensures Ordered(Advanced(m, |src|)) && Queue(Overlay(b, m.w, src), Advanced(m, |src|)) == Queue(b, m) + src
  {
    var b', m' := Overlay(b, m.w, src), Advanced(m, |src|);
    if m.w >= m.r {
      assert b'[m.r..m.w + |src|] == b[m.r..m.w] + src;
    } else {
      assert b'[m.r..m.t] == b[m.r..m.t];
      assert b'[..m.w + |src|] == b[..m.w] + src;
    }
  }

  lemma WriteJump(b: seq<Byte>, m: Marks, src: seq<Byte>)
    requires Ordered(m) && |b| == m.c && ContiguousWritable(m) < |src| <= JumpWritable(m)
    ensures Ordered(Jumped(m, |src|)) && Queue(Overlay(b, 0, src), Jumped(m, |src|)) == Queue(b, m) + src
  {
    var b' := Overlay(b, 0, src);
    assert b'[m.r..m.w] == b[m.r..m.w];
    assert b'[..|src|] == src;
  }

  lemma OverlayEnds(b: seq<Byte>, w: nat, head: seq<Byte>, tail: seq<Byte>, r: nat)
    requires |tail| <= r <= w && w + |head| == |b|
    ensures var b' := Overlay(Overlay(b, w, head), 0, tail);
      |b'| == |b| && b'[r..] == b[r..w] + head && b'[..|tail|] == tail
  {
    var b1 := Overlay(b, w, head);
    assert b1 == b[..w] + head;
    assert b1[r..] == b[r..w] + head;
    assert Overlay(b1, 0, tail) == tail + b1[|tail|..];
  }

  lemma WriteSplit(b: seq<Byte>, m: Marks, src: seq<Byte>)
    requires Ordered(m) && |b| == m.c
    requires ContiguousWritable(m) < |src| <= Writable(m) && JumpWritable(m) < |src|
    ensures var k := m.c - m.w;
      && ContiguousWritable(m) == k < |src| && Ordered(m.(t := m.c, w := |src| - k))
      && Queue(Overlay(Overlay(b, m.w, src[..k]), 0, src[k..]), m.(t := m.c, w := |src| - k)) == Queue(b, m) + src
  {
    hide Overlay;
    var k := m.c - m.w;
    OverlayEnds(b, m.w, src[..k], src[k..], m.r);
    var b' := Overlay(Overlay(b, m.w, src[..k]), 0, src[k..]);
    assert b'[m.r..m.c] == b'[m.r..];
    assert src[..k] + src[k..] == src;
  }

  /** The positions after `muggle_bytes_buffer_read` of `n` bytes. */
  function ReadMarks(m: Marks, n: nat): Marks
    requires Ordered(m)
  {
    if n <= ContiguousReadable(m) then
      var r := m.r + n;
      Refreshed(m.(r := if r == m.t then 0 else r))
    else if n <= Readable(m) then Refreshed(m.(r := n - ContiguousReadable(m)))
    else m
  }

  lemma ReadMarksKeep(m: Marks, n: nat)
    requires Ordered(m)
    ensures ReadMarks(m, n).c == m.c && (n > Readable(m) ==> ReadMarks(m, n) == m)
  {
  }

  /** The read would move the reader onto a truncate mark the writer stopped on. */
  predicate OnStaleMark(m: Marks, n: nat) { m.w >= m.r && m.r + n == m.t }

  /** The first `n` bytes of the queue, as the code collects them. */
  lemma FrontIs(b: seq<Byte>, m: Marks, n: nat)
    requires Ordered(m) && |b| == m.c && n <= Readable(m)
    ensures |Queue(b, m)| == Readable(m)
    ensures Queue(b, m)[..n] == if n <= ContiguousReadable(m) then b[m.r..m.r + n]
                                else b[m.r..m.r + ContiguousReadable(m)] + b[..n - ContiguousReadable(m)]
  {
    if m.w >= m.r {
      assert b[m.r..m.w][..n] == b[m.r..m.r + n];
    } else if n <= ContiguousReadable(m) {
      assert (b[m.r..m.t] + b[..m.w])[..n] == b[m.r..m.r + n];
    } else {
      assert (b[m.r..m.t] + b[..m.w])[..n] == b[m.r..m.t] + b[..n - ContiguousReadable(m)];
    }
  }

  /** A read takes the bytes it returns off the queue if and only if it does not end on a stale mark. */
  lemma ReadTakes(b: seq<Byte>, m: Marks, n: nat)
    requires Ordered(m) && |b| == m.c && n <= Readable(m)
    ensures |Queue(b, m)| == Readable(m)
    ensures var m' := ReadMarks(m, n);
      Ordered(m') && Queue(b, m') == Queue(b, m)[n..] <==> !OnStaleMark(m, n)
  {
    var m' := ReadMarks(m, n);
    if OnStaleMark(m, n) {
      StaleMarkResurrects(b, m, n);
    } else if m.w >= m.r {
      assert b[m.r..m.w][n..] == b[m.r + n..m.w];
    } else if n <= ContiguousReadable(m) {
      assert (b[m.r..m.t] + b[..m.w])[n..] == b[m.r + n..m.t] + b[..m.w];
    } else {
      var k := n - ContiguousReadable(m);
      assert (b[m.r..m.t] + b[..m.w])[n..] == b[k..m.w];
    }
  }

  /** After such a read the buffer offers bytes again that were read before. */
  lemma StaleMarkResurrects(b: seq<Byte>, m: Marks, n: nat)
    requires Ordered(m) && |b| == m.c && n <= Readable(m) && OnStaleMark(m, n)
    ensures Queue(b, m)[n..] == [] && ReadMarks(m, n).r == 0 && ReadMarks(m, n).w == m.t > 0
  {
  }

  lemma ReaderMoveTakes(b: seq<Byte>, m: Marks, n: nat)
    requires Ordered(m) && |b| == m.c && n <= ContiguousReadable(m)
    ensures var m' := Refreshed(m.(r := m.r + n));
      Ordered(m') && Queue(b, m') == Queue(b, m)[n..]
    ensures Queue(b, m)[..n] == b[m.r..m.r + n]
  {
    if m.w >= m.r {
      assert b[m.r..m.w][n..] == b[m.r + n..m.w];
    } else {
      assert (b[m.r..m.t] + b[..m.w])[n..] == b[m.r + n..m.t] + b[..m.w];
    }
  }

  // ------------------------------------------------------------------------- calls and runs of calls

  datatype Buffer = Buffer(b: seq<Byte>, m: Marks)

  /** The calls that change the buffer; `Fill` and `Consume` are the pairs of `_fc` and `_move` calls. */
  datatype Op = Write(src: seq<Byte>) | Read(n: nat) | Fill(src: seq<Byte>) | Consume(n: nat)

  predicate Sound(s: Buffer) { Ordered(s.m) && |s.b| == s.m.c }

  function Ahead(s: Buffer, src: seq<Byte>): Buffer
    requires Sound(s) && |src| <= ContiguousWritable(s.m)
  {
    Buffer(Overlay(s.b, s.m.w, src), Advanced(s.m, |src|))
  }

  function Jump(s: Buffer, src: seq<Byte>): Buffer
    requires Sound(s) && |src| <= JumpWritable(s.m)
  {
    Buffer(Overlay(s.b, 0, src), Jumped(s.m, |src|))
  }

  function Split(s: Buffer, src: seq<Byte>): Buffer
    requires Sound(s) && ContiguousWritable(s.m) < |src| <= Writable(s.m) && JumpWritable(s.m) < |src|
  {
    var k := ContiguousWritable(s.m);
    Buffer(Overlay(Overlay(s.b, s.m.w, src[..k]), 0, src[k..]), s.m.(t := s.m.c, w := |src| - k))
  }

  function After(s: Buffer, op: Op): Buffer
    requires Sound(s)
  {
    match op
    case Write(src) =>
      if |src| <= ContiguousWritable(s.m) then Ahead(s, src)
      else if Writable(s.m) < |src| then s
      else if |src| <= JumpWritable(s.m) then Jump(s, src)
      else Split(s, src)
    case Read(n) => s.(m := ReadMarks(s.m, n))
    case Fill(src) =>
      if |src| <= ContiguousWritable(s.m) then Ahead(s, src)
      else if |src| <= JumpWritable(s.m) then Jump(s, src)
      else s
    case Consume(n) =>
      if n <= ContiguousReadable(s.m) then s.(m := Refreshed(s.m.(r := s.m.r + n))) else s
  }

  /** The bytes a call accepts. */
  function In(s: Buffer, op: Op): seq<Byte> {
    match op
    case Write(src) => if |src| <= Writable(s.m) then src else []
    case Fill(src) => if |src| <= ContiguousWritable(s.m) || |src| <= JumpWritable(s.m) then src else []
    case _ => []
  }

  /** The bytes a call returns. */
  function Out(s: Buffer, op: Op): seq<Byte>
    requires Sound(s)
  {
    match op
    case Read(n) =>
      if n <= ContiguousReadable(s.m) then s.b[s.m.r..s.m.r + n]
      else if n <= Readable(s.m) then
        s.b[s.m.r..s.m.r + ContiguousReadable(s.m)] + s.b[..n - ContiguousReadable(s.m)]
      else []
    case Consume(n) => if n <= ContiguousReadable(s.m) then s.b[s.m.r..s.m.r + n] else []
    case _ => []
  }

  predicate Stale(s: Buffer, op: Op) { op.Read? && op.n <= Readable(s.m) && OnStaleMark(s.m, op.n) }

  /** What was waiting and what comes in is what goes out and what is waiting then, in this order. */
  predicate Conserved(s: Buffer, op: Op)
    requires Sound(s)
  {
    Sound(After(s, op)) && Queue(s.b, s.m) + In(s, op) == Out(s, op) + Queue(After(s, op).b, After(s, op).m)
  }

  lemma WriteConserved(s: Buffer, op: Op)
    requires Sound(s) && (op.Write? || op.Fill?)
    ensures Conserved(s, op) && After(s, op).m.c == s.m.c
  {
    hide Queue, Overlay;
    Room(s.b, s.m);
    var src := op.src;
    if |src| <= ContiguousWritable(s.m) {
      WriteAhead(s.b, s.m, src);
    } else if |src| <= JumpWritable(s.m) {
      WriteJump(s.b, s.m, src);
    } else if op.Write? && |src| <= Writable(s.m) {
      WriteSplit(s.b, s.m, src);
    }
  }

  lemma ReadOut(s: Buffer, n: nat)
    requires Sound(s)
    ensures |Queue(s.b, s.m)| == Readable(s.m)
    ensures Out(s, Read(n)) == if n <= Readable(s.m) then Queue(s.b, s.m)[..n] else []
  {
    Room(s.b, s.m);
    if n <= Readable(s.m) {
      FrontIs(s.b, s.m, n);
    }
  }

  lemma CancelFront(q: seq<Byte>, n: nat, x: seq<Byte>)
    requires n <= |q|
    ensures q + [] == q[..n] + x <==> x == q[n..]
  {
    assert q == q[..n] + q[n..];
    if q + [] == q[..n] + x {
      assert x == (q[..n] + x)[n..] == q[n..];
    }
  }

  lemma ReadConserved(s: Buffer, n: nat)
    requires Sound(s)
    ensures Conserved(s, Read(n)) <==> !Stale(s, Read(n))
    ensures After(s, Read(n)).m.c == s.m.c
  {
    hide Queue, OnStaleMark, ReadMarks, Out, Readable;
    ReadMarksKeep(s.m, n);
    ReadOut(s, n);
    if n <= Readable(s.m) {
      ReadTakes(s.b, s.m, n);
      var m' := ReadMarks(s.m, n);
      if Ordered(m') {
        CancelFront(Queue(s.b, s.m), n, Queue(s.b, m'));
      }
    }
  }

  /** A call conserves the byte stream if and only if it is not a read that ends on a stale mark. */
  lemma ConservedExactly(s: Buffer, op: Op)
    requires Sound(s)
    ensures Conserved(s, op) <==> !Stale(s, op)
    ensures After(s, op).m.c == s.m.c
  {
    hide Queue, Conserved;
    match op
    case Write(_) => WriteConserved(s, op);
    case Fill(_) => WriteConserved(s, op);
    case Read(n) => ReadConserved(s, n);
    case Consume(n) => ConsumeConserved(s, n);
  }

  lemma ConsumeConserved(s: Buffer, n: nat)
    requires Sound(s)
    ensures Conserved(s, Consume(n)) && After(s, Consume(n)).m.c == s.m.c
  {
    hide Queue;
    if n <= ContiguousReadable(s.m) {
      ReaderMoveTakes(s.b, s.m, n);
      Room(s.b, s.m);
      var q := Queue(s.b, s.m);
      assert q + [] == q[..n] + q[n..];
    }
  }

  /** A run without such a read. */
  predicate Legal(s: Buffer, ops: seq<Op>)
    requires Sound(s)
    decreases |ops|
  {
    ops == [] || (!Stale(s, ops[0]) && Sound(After(s, ops[0])) && Legal(After(s, ops[0]), ops[1..]))
  }

  function Exec(s: Buffer, ops: seq<Op>): (s': Buffer)
    requires Sound(s) && Legal(s, ops)
    ensures Sound(s')
    decreases |ops|
  {
    if ops == [] then s else Exec(After(s, ops[0]), ops[1..])
  }

  function Ins(s: Buffer, ops: seq<Op>): seq<Byte>
    requires Sound(s) && Legal(s, ops)
    decreases |ops|
  {
    if ops == [] then [] else In(s, ops[0]) + Ins(After(s, ops[0]), ops[1..])
  }

  function Outs(s: Buffer, ops: seq<Op>): seq<Byte>
    requires Sound(s) && Legal(s, ops)
    decreases |ops|
  {
    if ops == [] then [] else Out(s, ops[0]) + Outs(After(s, ops[0]), ops[1..])
  }

  lemma {:induction false} StreamConserved(s: Buffer, ops: seq<Op>)
    requires Sound(s) && Legal(s, ops)
    ensures var s' := Exec(s, ops);
      s'.m.c == s.m.c && Queue(s.b, s.m) + Ins(s, ops) == Outs(s, ops) + Queue(s'.b, s'.m)
    decreases |ops|
  {
    hide Ordered, Queue, After, In, Out, Stale;
    if ops != [] {
      var op := ops[0];
      var s1 := After(s, op);
      ConservedExactly(s, op);
      StreamConserved(s1, ops[1..]);
      var s' := Exec(s, ops);
      Regroup(Queue(s.b, s.m), In(s, op), Out(s, op), Queue(s1.b, s1.m), Ins(s1, ops[1..]), Outs(s1, ops[1..]),
              Queue(s'.b, s'.m));
    }
  }

  lemma Regroup(q: seq<Byte>, i: seq<Byte>, o: seq<Byte>, q1: seq<Byte>, ins: seq<Byte>, outs: seq<Byte>, q': seq<Byte>)
    requires q + i == o + q1 && q1 + ins == outs + q'
    ensures q + (i + ins) == (o + outs) + q'
  {
    assert q + (i + ins) == (q + i) + ins == (o + q1) + ins == o + (q1 + ins) == o + (outs + q') == (o + outs) + q';
  }

  /** In every run from a new buffer, what came out and then what waits is what went in; at most c - 1 bytes wait. */
  lemma FirstInFirstOut(b: seq<Byte>, ops: seq<Op>)
    requires |b| > 0 && Legal(Buffer(b, Marks(|b|, 0, 0, |b|)), ops)
    ensures var s := Buffer(b, Marks(|b|, 0, 0, |b|));
      var s' := Exec(s, ops);
      Ins(s, ops) == Outs(s, ops) + Queue(s'.b, s'.m) && |Queue(s'.b, s'.m)| <= |b| - 1
  {
    hide Legal, Exec, Ins, Outs;
    var s := Buffer(b, Marks(|b|, 0, 0, |b|));
    StreamConserved(s, ops);
    assert Queue(s.b, s.m) == [];
    var s' := Exec(s, ops);
    hide Queue;
    Room(s'.b, s'.m);
    assert [] + Ins(s, ops) == Ins(s, ops);
  }

  class BytesBuffer {
    var m: Marks
    const buffer: array<Byte>

    ghost predicate Valid()
      reads this
    {
      buffer.Length == m.c && Ordered(m)
    }

    ghost function Waiting(): seq<Byte>
      requires Valid()
      reads this, buffer
    {
      Queue(buffer[..], m)
    }

    /** `muggle_bytes_buffer_init`. */
    constructor (capacity: nat)
      ensures m == Marks(capacity, 0, 0, capacity) && buffer.Length == capacity
      ensures capacity > 0 ==> Valid() && Waiting() == []
    {
      m := Marks(capacity, 0, 0, capacity);
      buffer := new Byte[capacity](_ => 0);
    }

    /** `memcpy` into the buffer. */
    method CopyIn(at: nat, src: seq<Byte>)
      requires at + |src| <= buffer.Length
      modifies buffer
      ensures buffer[..] == Overlay(old(buffer[..]), at, src)
    {
      for i := 0 to |src|
        invariant forall k :: 0 <= k < buffer.Length ==>
          buffer[k] == if at <= k < at + i then src[k - at] else old(buffer[k])
      {
        buffer[at + i] := src[i];
      }
    }

    /** `muggle_bytes_buffer_write`. */
    method Write(src: seq<Byte>) returns (ok: bool)
      requires Valid()
      modifies this`m, buffer
      ensures Valid() && m.c == old(m).c
      ensures ok <==> |src| <= Writable(old(m))
      ensures Waiting() == old(Waiting()) + (if ok then src else [])
      ensures Buffer(buffer[..], m) == After(old(Buffer(buffer[..], m)), Op.Write(src))
    {
      hide Queue;
      Room(buffer[..], m);
      var cw := ContiguousWritable(m);
      if cw >= |src| {
        WriteAhead(buffer[..], m, src);
        CopyIn(m.w, src);
        m := Advanced(m, |src|);
        return true;
      }
      var jw := JumpWritable(m);
      if cw + jw < |src| {
        assert Waiting() + [] == Waiting();
        return false;
      }
      if jw >= |src| {
        WriteJump(buffer[..], m, src);
        CopyIn(0, src);
        m := Jumped(m, |src|);
      } else {
        WriteSplit(buffer[..], m, src);
        CopyIn(m.w, src[..cw]);
        CopyIn(0, src[cw..]);
        m := m.(t := m.c, w := |src| - cw);
      }
      return true;
    }

    /** `muggle_bytes_buffer_fetch`. */
    method Fetch(n: nat) returns (ok: bool, dst: seq<Byte>)
      requires Valid()
      ensures ok <==> n <= |Waiting()|
      ensures dst == if ok then Waiting()[..n] else []
    {
      hide Queue;
      Room(buffer[..], m);
      if n <= Readable(m) {
        FrontIs(buffer[..], m, n);
      }
      var cr := ContiguousReadable(m);
      if cr >= n {
        return true, buffer[m.r..m.r + n];
      }
      var jr := JumpReadable(m);
      if cr + jr < n {
        return false, [];
      }
      return true, buffer[m.r..m.r + cr] + buffer[..n - cr];
    }

    method TakeAhead(n: nat) returns (dst: seq<Byte>)
      requires Valid() && n <= ContiguousReadable(m)
      modifies this`m
      ensures m == ReadMarks(old(m), n) && dst == buffer[old(m).r..old(m).r + n]
    {
      dst := buffer[m.r..m.r + n];
      m := m.(r := m.r + n);
      if m.r == m.t {
        m := m.(r := 0);
      }
      m := Refreshed(m);
    }

    method TakeAround(n: nat, cr: nat) returns (dst: seq<Byte>)
      requires Valid() && cr == ContiguousReadable(m) < n <= Readable(m)
      modifies this`m
      ensures m == ReadMarks(old(m), n) && dst == buffer[old(m).r..old(m).r + cr] + buffer[..n - cr]
    {
      dst := buffer[m.r..m.r + cr] + buffer[..n - cr];
      m := Refreshed(m.(r := n - cr));
    }

    /** `muggle_bytes_buffer_read`. */
    method Read(n: nat) returns (ok: bool, dst: seq<Byte>)
      requires Valid()
      modifies this`m
      ensures ok <==> n <= |old(Waiting())|
      ensures dst == if ok then old(Waiting())[..n] else []
      ensures Buffer(buffer[..], m) == After(old(Buffer(buffer[..], m)), Op.Read(n))
      ensures ok && !OnStaleMark(old(m), n) ==> Valid() && Waiting() == old(Waiting())[n..]
      ensures ok && OnStaleMark(old(m), n) ==> m.r == 0 && m.w == old(m).t > 0 && old(Waiting())[n..] == []
    {
      hide Queue, OnStaleMark, ReadMarks, Refreshed;
      ReadMarksKeep(m, n);
      Room(buffer[..], m);
      var cr := ContiguousReadable(m);
      if n <= Readable(m) {
        ReadTakes(buffer[..], m, n);
        FrontIs(buffer[..], m, n);
        if OnStaleMark(m, n) {
          StaleMarkResurrects(buffer[..], m, n);
        }
      }
      if cr >= n {
        dst := TakeAhead(n);
        return true, dst;
      }
      var jr := JumpReadable(m);
      if cr + jr < n {
        return false, [];
      }
      dst := TakeAround(n, cr);
      return true, dst;
    }

    /** `muggle_bytes_buffer_writer_fc`, the caller filling the memory it returns, and `muggle_bytes_buffer_writer_move`. */
    method WriteInPlace(src: seq<Byte>) returns (ok: bool)
      requires Valid()
      modifies this`m, buffer
      ensures Valid() && m.c == old(m).c
      ensures ok <==> |src| <= ContiguousWritable(old(m)) || |src| <= JumpWritable(old(m))
      ensures Waiting() == old(Waiting()) + (if ok then src else [])
      ensures Buffer(buffer[..], m) == After(old(Buffer(buffer[..], m)), Fill(src))
    {
      hide Queue;
      Room(buffer[..], m);
      if ContiguousWritable(m) >= |src| {
        WriteAhead(buffer[..], m, src);
        CopyIn(m.w, src);
        m := Advanced(m, |src|);
        return true;
      } else if JumpWritable(m) >= |src| {
        WriteJump(buffer[..], m, src);
        CopyIn(0, src);
        m := Jumped(m, |src|);
        return true;
      }
      assert Waiting() + [] == Waiting();
      return false;
    }

    /** `muggle_bytes_buffer_reader_fc` and `muggle_bytes_buffer_reader_move`. */
    method ReadInPlace(n: nat) returns (ok: bool, seen: seq<Byte>)
      requires Valid()
      modifies this`m
      ensures Valid() && m.c == old(m).c
      ensures ok <==> n <= ContiguousReadable(old(m))
      ensures seen == if ok then old(Waiting())[..n] else []
      ensures Waiting() == old(Waiting())[|seen|..]
      ensures Buffer(buffer[..], m) == After(old(Buffer(buffer[..], m)), Consume(n))
    {
      hide Queue;
      Room(buffer[..], m);
      if ContiguousReadable(m) >= n {
        ReaderMoveTakes(buffer[..], m, n);
        seen := buffer[m.r..m.r + n];
        m := Refreshed(m.(r := m.r + n));
        return true, seen;
      }
      return false, [];
    }
  }

  /** Such a read is reached: of 8 bytes write 6, read 5, write 3 by a jump, read 1 up to the mark, write 3 more onto it. */
  lemma StaleMarkReached(b: seq<Byte>, x: seq<Byte>, y: seq<Byte>, z: seq<Byte>)
    requires |b| == 8 && |x| == 6 && |y| == |z| == 3
    ensures var s := Buffer(b, Marks(8, 0, 0, 8));
      var ops := [Op.Write(x), Op.Read(5), Op.Write(y), Op.Read(1), Op.Write(z)];
      Legal(s, ops) && Stale(Exec(s, ops), Op.Read(6))
  {
    var s := Buffer(b, Marks(8, 0, 0, 8));
    var ops := [Op.Write(x), Op.Read(5), Op.Write(y), Op.Read(1), Op.Write(z)];
    hide After, In, Out;
    var s1 := After(s, ops[0]);
    Positions(s, ops[0]);
    assert s1.m == Marks(8, 6, 0, 8);
    var s2 := After(s1, ops[1]);
    Positions(s1, ops[1]);
    assert s2.m == Marks(8, 6, 5, 8);
    var s3 := After(s2, ops[2]);
    Positions(s2, ops[2]);
    assert s3.m == Marks(8, 3, 5, 6);
    var s4 := After(s3, ops[3]);
    Positions(s3, ops[3]);
    assert s4.m == Marks(8, 3, 0, 6);
    var s5 := After(s4, ops[4]);
    Positions(s4, ops[4]);
    assert s5.m == Marks(8, 6, 0, 6);
    hide ReadMarks, Advanced, Jumped;
    LegalStep(s4, ops[4], []);
    LegalStep(s3, ops[3], [ops[4]]);
    LegalStep(s2, ops[2], [ops[3], ops[4]]);
    LegalStep(s1, ops[1], [ops[2], ops[3], ops[4]]);
    LegalStep(s, ops[0], [ops[1], ops[2], ops[3], ops[4]]);
    assert ops == [ops[0]] + [ops[1], ops[2], ops[3], ops[4]];
  }

  lemma Positions(s: Buffer, op: Op)
    requires Sound(s)
    ensures |After(s, op).b| == |s.b|
    ensures op.Read? ==> After(s, op).m == ReadMarks(s.m, op.n)
    ensures op.Write? && |op.src| <= ContiguousWritable(s.m) ==> After(s, op).m == Advanced(s.m, |op.src|)
    ensures op.Write? && ContiguousWritable(s.m) < |op.src| <= JumpWritable(s.m) ==>
      After(s, op).m == Jumped(s.m, |op.src|)
  {
    hide Overlay;
    Room(s.b, s.m);
  }

  lemma LegalStep(s: Buffer, op: Op, rest: seq<Op>)
    requires Sound(s) && !Stale(s, op) && Sound(After(s, op)) && Legal(After(s, op), rest)
    ensures Legal(s, [op] + rest) && Exec(s, [op] + rest) == Exec(After(s, op), rest)
  {
    hide Sound, Stale, After;
    assert ([op] + rest)[1..] == rest;
  }
}
