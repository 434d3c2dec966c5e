/** `muggle/c/memory/memory_pool.c`: a growing pool whose free blocks wait in a ring of pointers. */
module MemoryPool {
  import opened Ring
  import opened Accounts

  const WORD: nat := 0x1_0000_0000

  /** The fields of `muggle_memory_pool_t`; `buf` is `memory_pool_ptr_buf`. */
  datatype Pool = Pool(buf: seq<Block>, allocIndex: nat, freeIndex: nat, used: nat, constantSize: bool)

  /** The waiting blocks, next to be handed out first. */
  function Available(p: Pool): seq<Block>
    requires Sound(p)
  {
    Window(p.buf, p.allocIndex, p.allocIndex + |p.buf| - p.used)
  }

  predicate Sound(p: Pool) {
    && 0 < |p.buf| < WORD && p.allocIndex < |p.buf| && p.freeIndex < |p.buf| && p.used <= |p.buf|
    && forall i :: 0 <= i < |p.buf| ==> p.buf[i] < |p.buf|
  }

  /** The index written by the next free is where the waiting blocks end, and every block is in one place. */
  ghost predicate Valid(p: Pool, out: multiset<Block>) {
    && Sound(p) && p.freeIndex == Slot(p.allocIndex + |p.buf| - p.used, |p.buf|)
    && |out| == p.used && Partition(Available(p), out, |p.buf|)
  }

  /** The sections of the old ring: slots whose blocks are out, and slots whose blocks wait. */
  function Vacated(p: Pool): seq<Block>
    requires Sound(p)
  {
    if p.used == |p.buf| then p.buf[p.freeIndex..] + p.buf[..p.freeIndex]
    else if p.allocIndex > p.freeIndex then p.buf[p.freeIndex..p.allocIndex]
    else p.buf[p.freeIndex..] + p.buf[..p.allocIndex]
  }

  function Waiting(p: Pool): seq<Block>
    requires Sound(p)
  {
    if p.used == |p.buf| then []
    else if p.allocIndex > p.freeIndex then p.buf[p.allocIndex..] + p.buf[..p.freeIndex]
    else p.buf[p.allocIndex..p.freeIndex]
  }

  /** `muggle_memory_pool_ensure_space` when it has to grow. */
  function Grown(p: Pool, capacity: nat): Pool
    requires Sound(p) && |p.buf| < capacity
  {
    Pool(Vacated(p) + Waiting(p) + Blocks(capacity)[|p.buf|..], |Vacated(p)|, 0, p.used, p.constantSize)
  }

  /** A window of at most one turn that starts inside the ring, written as slices. */
  lemma WindowSlices(buf: seq<Block>, lo: nat, hi: nat)
    requires |buf| > 0 && lo < |buf| && lo <= hi <= lo + |buf|
    ensures Window(buf, lo, hi) == if hi <= |buf| then buf[lo..hi] else buf[lo..] + buf[..hi - |buf|]
  {
    hide Slot;
    forall j | lo <= j < hi ensures Slot(j, |buf|) == if j < |buf| then j else j - |buf| {
      WrapSplit(j, |buf|);
    }
  }

  lemma SectionBounds(p: Pool)
    requires Sound(p)
    ensures forall i :: 0 <= i < |Vacated(p)| ==> Vacated(p)[i] < |p.buf|
    ensures forall i :: 0 <= i < |Waiting(p)| ==> Waiting(p)[i] < |p.buf|
  {
    forall i | 0 <= i < |Vacated(p)| ensures Vacated(p)[i] < |p.buf| {
      var k := |p.buf| - p.freeIndex;
      assert Vacated(p)[i] == p.buf[if i < k then p.freeIndex + i else i - k];
    }
    forall i | 0 <= i < |Waiting(p)| ensures Waiting(p)[i] < |p.buf| {
      var k := |p.buf| - p.allocIndex;
      assert Waiting(p)[i] == p.buf[if i < k then p.allocIndex + i else i - k];
    }
  }

  lemma SectionLengths(p: Pool)
    requires Sound(p)
    ensures |Vacated(p)| + |Waiting(p)| == |p.buf|
  {
  }

  /** The sections are what their names say, except that an unused pool counts all its slots as vacated. */
  lemma Sections(p: Pool, out: multiset<Block>)
    requires Valid(p, out)
    ensures |Vacated(p)| + |Waiting(p)| == |p.buf|
    ensures p.used > 0 ==> Waiting(p) == Available(p) && |Vacated(p)| == p.used
    ensures p.used == 0 ==> |Vacated(p)| == |p.buf|
  {
    hide Slot, Partition, Window;
    var hi := p.allocIndex + |p.buf| - p.used;
    WindowSlices(p.buf, p.allocIndex, hi);
    WrapSplit(hi, |p.buf|);
    assert p.buf[p.allocIndex..|p.buf|] == p.buf[p.allocIndex..] && p.buf[..0] == [];
  }

  /** The effect of handing out the next block, and of taking one back. */
  function Taken(p: Pool): Pool { p.(used := p.used + 1, allocIndex := Bump(p.allocIndex, |p.buf|)) }

  function Given(p: Pool, b: Block): Pool
    requires p.freeIndex < |p.buf| && p.used > 0
  {
    p.(buf := p.buf[p.freeIndex := b], freeIndex := Bump(p.freeIndex, |p.buf|), used := p.used - 1)
  }

  /** Growth leaves the free index at the end of the waiting blocks, as the pool needs it, if and only if a block is out. */
  lemma GrowthKeeps(p: Pool, out: multiset<Block>, capacity: nat)
    requires Valid(p, out) && |p.buf| < capacity < WORD
    ensures Valid(Grown(p, capacity), out) <==> p.used > 0
    ensures p.used > 0 ==> Available(Grown(p, capacity)) == Available(p) + Blocks(capacity)[|p.buf|..]
  {
    hide Slot, Partition, Window, Vacated, Waiting;
    Sections(p, out);
    SectionBounds(p);
    var g := Grown(p, capacity);
    assert |g.buf| == capacity;
    if p.used > 0 {
      PartitionGrow(Available(p), out, |p.buf|, capacity);
      WrapSplit(capacity, capacity);
      WindowSlices(g.buf, p.used, capacity);
      assert g.buf[p.used..capacity] == Available(p) + Blocks(capacity)[|p.buf|..];
    } else {
      WrapSplit(|p.buf| + capacity, capacity);
    }
  }

  /** A block waits, or the doubled capacity fits in 32 bits. */
  predicate Doubles(p: Pool) { p.used < |p.buf| || 2 * |p.buf| < WORD }

  /** The blocks that doubling a pool adds. */
  function New(p: Pool): seq<Block> { Blocks(2 * |p.buf|)[|p.buf|..] }

  /** The pool from which `muggle_memory_pool_alloc` takes: a full one doubles first, unless the doubled number wraps. */
  function Roomy(p: Pool): Pool
    requires Sound(p)
  {
    if p.used == |p.buf| && |p.buf| < |p.buf| * 2 % WORD then Grown(p, |p.buf| * 2 % WORD) else p
  }

  lemma DoubleWraps(n: nat)
    requires n < WORD
    ensures n * 2 % WORD == if 2 * n < WORD then 2 * n else 2 * n - WORD
  {
  }

  lemma FullGrowth(p: Pool, out: multiset<Block>)
    requires Valid(p, out) && p.used == |p.buf| && 2 * |p.buf| < WORD
    ensures var g := Grown(p, 2 * |p.buf|);
      Valid(g, out) && Available(g) == New(p) && g.used < |g.buf|
  {
    hide Slot, Window, Partition;
    GrowthKeeps(p, out, 2 * |p.buf|);
    Sections(p, out);
    assert [] + New(p) == New(p);
  }

  lemma AllOut(p: Pool, out: multiset<Block>)
    requires Valid(p, out) && p.used == |p.buf|
    ensures p.buf[p.allocIndex] in out
  {
    hide Slot, Partition;
    PartitionMeans(Available(p), out, |p.buf|);
    assert Available(p) == [];
  }

  lemma TakeFirst(p: Pool, out: multiset<Block>)
    requires Valid(p, out) && p.used < |p.buf|
    ensures var b, q := p.buf[p.allocIndex], Taken(p);
      Valid(q, out + multiset{b}) && b !in out && Available(p) == [b] + Available(q)
  {
    hide Slot, Window, Partition;
    var cap := |p.buf|;
    var b, hi := p.buf[p.allocIndex], p.allocIndex + cap - p.used;
    var q := Taken(p);
    SlotBelow(p.allocIndex, cap);
    WindowPop(p.buf, p.allocIndex, hi);
    PartitionMeans(Available(p), out, cap);
    if p.allocIndex + 1 == cap {
      WindowTurn(p.buf, 0, cap - q.used);
      SlotTurn(cap - q.used, cap);
    }
    assert Available(p) == [b] + Available(q);
    assert multiset(Available(p))[b] >= 1;
    PartitionTake(b, Available(q), out, cap);
  }

  lemma GiveBack(p: Pool, out: multiset<Block>, b: Block)
    requires Valid(p, out) && b in out
    ensures 0 < p.used
    ensures var q := Given(p, b);
      Valid(q, out - multiset{b}) && Available(q) == Available(p) + [b]
  {
    hide Slot, Window, Partition;
    var cap, hi := |p.buf|, p.allocIndex + |p.buf| - p.used;
    PartitionMeans(Available(p), out, cap);
    WindowPush(p.buf, p.allocIndex, hi, b);
    BumpSlot(hi, cap);
    PartitionGive(b, Available(p), out, cap);
  }

  /** Growing an unused pool keeps every block waiting once, but leaves the free index behind: the first block taken and
      given back then waits twice, and the block whose slot it was given back to waits no more. */
  lemma EmptyGrowthRepeats(p: Pool, capacity: nat)
    requires Valid(p, multiset{}) && |p.buf| < capacity < WORD
    ensures var g := Grown(p, capacity);
      && Sound(g) && Partition(Available(g), multiset{}, capacity)
      && var b, lost, q := g.buf[g.allocIndex], g.buf[0], Given(Taken(g), g.buf[g.allocIndex]);
        && Sound(q) && |Available(q)| == capacity && multiset(Available(q))[b] == 2 && multiset(Available(q))[lost] == 0
  {
    hide Slot, Partition, Window, Vacated, Waiting;
    var n, g := |p.buf|, Grown(p, capacity);
    Sections(p, multiset{});
    SectionBounds(p);
    UnusedGrowth(p, capacity);
    var b, q := g.buf[n], Given(Taken(g), g.buf[n]);
    assert b == n;
    PartitionMeans(g.buf, multiset{}, capacity);
    Replaced(g.buf, b);
    Rotation(g);
    Rotation(q);
    AllWaiting(g);
  }

  /** The blocks of an unused pool wait in all its slots, from the allocation index round to it. */
  lemma Rotation(p: Pool)
    requires Sound(p) && p.used == 0
    ensures |Available(p)| == |p.buf| && multiset(Available(p)) == multiset(p.buf)
  {
    hide Slot, Window;
    var a, b := p.buf[..p.allocIndex], p.buf[p.allocIndex..];
    WindowSlices(p.buf, p.allocIndex, p.allocIndex + |p.buf|);
    assert p.buf == a + b;
    assert p.allocIndex == 0 ==> b + a == b[0..];
    assert Available(p) == b + a;
  }

  lemma AllWaiting(p: Pool)
    requires Sound(p) && p.used == 0 && Partition(p.buf, multiset{}, |p.buf|)
    ensures Partition(Available(p), multiset{}, |p.buf|)
  {
    hide Available;
    Rotation(p);
  }

  lemma UnusedSections(p: Pool)
    requires Valid(p, multiset{})
    ensures Vacated(p) == Available(p) && Waiting(p) == []
  {
    hide Window, Partition, Slot;
    WindowSlices(p.buf, p.allocIndex, p.allocIndex + |p.buf|);
    WrapSplit(p.allocIndex + |p.buf|, |p.buf|);
    assert p.buf[..0] == [] && p.buf[0..] == p.buf[0..|p.buf|];
  }

  lemma UnusedGrowth(p: Pool, capacity: nat)
    requires Valid(p, multiset{}) && |p.buf| < capacity < WORD
    ensures var g := Grown(p, capacity);
      |g.buf| == capacity && g.allocIndex == |p.buf| && g.buf[|p.buf|] == |p.buf| && Partition(g.buf, multiset{}, capacity)
  {
    hide Window, Partition, Slot, Vacated, Waiting;
    UnusedSections(p);
    PartitionGrow(Available(p), multiset{}, |p.buf|, capacity);
    assert Grown(p, capacity).buf == Available(p) + Blocks(capacity)[|p.buf|..];
  }

  lemma Replaced(buf: seq<Block>, b: Block)
    requires |buf| > 0 && multiset(buf)[b] == 1 && multiset(buf)[buf[0]] == 1 && b != buf[0]
    ensures multiset(buf[0 := b])[b] == 2 && multiset(buf[0 := b])[buf[0]] == 0
  {
    assert multiset(buf[0 := b]) == multiset(buf) - multiset{buf[0]} + multiset{b};
  }

  /** After growing, taking a block and giving it back, every block is in one place if and only if a block was out before. */
  lemma GrowthExactly(p: Pool, out: multiset<Block>, capacity: nat)
    requires Valid(p, out) && |p.buf| < capacity < WORD
    ensures var g := Grown(p, capacity);
      && g.allocIndex < |g.buf|
      && var q := Given(Taken(g), g.buf[g.allocIndex]);
        Sound(q) && (Partition(Available(q), out, capacity) <==> p.used > 0)
  {
    hide Slot, Partition, Window, Vacated, Waiting;
    var g := Grown(p, capacity);
    Sections(p, out);
    if p.used > 0 {
      GrowthKeeps(p, out, capacity);
      TakeFirst(g, out);
      var b := g.buf[g.allocIndex];
      GiveBack(Taken(g), out + multiset{b}, b);
      assert out + multiset{b} - multiset{b} == out;
    } else {
      assert out == multiset{};
      EmptyGrowthRepeats(p, capacity);
      var q := Given(Taken(g), g.buf[g.allocIndex]);
      if Partition(Available(q), out, capacity) {
        PartitionMeans(Available(q), out, capacity);
        assert false;
      }
    }
  }

  // ------------------------------------------------------------------------- the pool in memory

  /** `memcpy` of `n` pointers. */
  method Copy(src: array<Block>, from: nat, dst: array<Block>, at: nat, n: nat)
    requires src != dst && from + n <= src.Length && at + n <= dst.Length
    modifies dst
    ensures dst[..at + n] == old(dst[..at]) + src[from..from + n]
  {
    for i := 0 to n
      invariant dst[..at + i] == old(dst[..at]) + src[from..from + i]
    {
      dst[at + i] := src[from + i];
    }
  }

  /** A section of the ring: `n1` slots from `from` on and `n2` from the start. */
  ghost function Parts(buf: seq<Block>, from: nat, n1: nat, n2: nat): (s: seq<Block>)
    requires from + n1 <= |buf| && n2 <= |buf|
    ensures |s| == n1 + n2
  {
    buf[from..from + n1] + buf[..n2]
  }

  lemma PartsForms(buf: seq<Block>, from: nat, n1: nat, n2: nat)
    requires from + n1 <= |buf| && n2 <= |buf|
    ensures n2 == 0 ==> Parts(buf, from, n1, n2) == buf[from..from + n1]
    ensures from + n1 == |buf| ==> Parts(buf, from, n1, n2) == buf[from..] + buf[..n2]
    ensures n1 == n2 == 0 ==> Parts(buf, from, n1, n2) == []
  {
  }

  /** How many slots each section has: the blocks that are out from the free index on and from the start, the waiting
      blocks from the allocation index on and from the start. */
  method Measure(n: nat, allocIndex: nat, freeIndex: nat, used: nat, ghost p: Pool)
    returns (free1: nat, free2: nat, alloc1: nat, alloc2: nat)
    requires Sound(p) && n == |p.buf| && p.allocIndex == allocIndex && p.freeIndex == freeIndex && p.used == used
    ensures 0 < free1 <= n - freeIndex && free2 <= n && alloc1 <= n - allocIndex && alloc2 <= n
    ensures Vacated(p) == Parts(p.buf, freeIndex, free1, free2)
    ensures Waiting(p) == Parts(p.buf, allocIndex, alloc1, alloc2)
  {
    hide Parts;
    free1, free2, alloc1, alloc2 := 0, 0, 0, 0;
    if used == n {
      free1, free2 := n - freeIndex, freeIndex;
    } else if allocIndex > freeIndex {
      free1, alloc1, alloc2 := allocIndex - freeIndex, n - allocIndex, freeIndex;
    } else {
      free1, free2, alloc1 := n - freeIndex, allocIndex, freeIndex - allocIndex;
    }
    PartsForms(p.buf, freeIndex, free1, free2);
    PartsForms(p.buf, allocIndex, alloc1, alloc2);
  }

  /** The new blocks, numbered from `first`, fill the rest of the buffer. */
  method Number(dst: array<Block>, at: nat, first: nat)
    requires at <= dst.Length
    modifies dst
    ensures dst[..at] == old(dst[..at])
    ensures dst[at..] == Blocks(first + dst.Length - at)[first..]
  {
    for i := at to dst.Length
      invariant dst[..at] == old(dst[..at])
      invariant dst[at..i] == Blocks(first + i - at)[first..]
    {
      dst[i] := first + i - at;
    }
  }

  /** A section in its two parts, appended to the first `at` pointers. */
  method CopyParts(src: array<Block>, from: nat, n1: nat, n2: nat, dst: array<Block>, at: nat) returns (offset: nat)
    requires src != dst && from + n1 <= src.Length && n2 <= src.Length && at + n1 + n2 <= dst.Length
    modifies dst
    ensures offset == at + n1 + n2
    ensures dst[..offset] == old(dst[..at]) + Parts(src[..], from, n1, n2)
  {
    Copy(src, from, dst, at, n1);
    offset := at + n1;
    if n2 > 0 {
      Copy(src, 0, dst, offset, n2);
      offset := offset + n2;
    }
    assert src[0..n2] == src[..][..n2] && src[from..from + n1] == src[..][from..from + n1];
  }

  /** The slots of blocks that are out, then the waiting blocks. */
  method CopySections(buf: array<Block>, allocIndex: nat, freeIndex: nat, used: nat, next: array<Block>, ghost p: Pool)
    returns (at: nat)
    requires buf != next && buf.Length <= next.Length && Sound(p) && |Vacated(p)| + |Waiting(p)| == buf.Length
    requires p.buf == buf[..] && p.allocIndex == allocIndex && p.freeIndex == freeIndex && p.used == used
    modifies next
    ensures at == |Vacated(p)| && next[..buf.Length] == Vacated(p) + Waiting(p)
  {
    hide Vacated, Waiting, Parts, Sound;
    var free1, free2, alloc1, alloc2 := Measure(buf.Length, allocIndex, freeIndex, used, p);
    at := CopyParts(buf, freeIndex, free1, free2, next, 0);
    assert next[..at] == Vacated(p);
    if free1 > 0 {
      var offset := CopyParts(buf, allocIndex, alloc1, alloc2, next, at);
    }
  }

  /** A new pointer buffer with the sections in order and the new blocks at the end. */
  method Regroup(buf: array<Block>, allocIndex: nat, freeIndex: nat, used: nat, capacity: nat, ghost p: Pool)
    returns (next: array<Block>, at: nat)
    requires p.buf == buf[..] && p.allocIndex == allocIndex && p.freeIndex == freeIndex && p.used == used
    requires Sound(p) && buf.Length < capacity && |Vacated(p)| + |Waiting(p)| == buf.Length
    ensures fresh(next) && next.Length == capacity && at == |Vacated(p)|
    ensures next[..] == Vacated(p) + Waiting(p) + Blocks(capacity)[buf.Length..]
  {
    hide Vacated, Waiting, Blocks, Sound;
    next := new Block[capacity];
    at := CopySections(buf, allocIndex, freeIndex, used, next, p);
    Number(next, buf.Length, buf.Length);
    assert next[..] == next[..buf.Length] + next[buf.Length..];
  }

  class MemoryPool {
    var buf: array<Block>
    var allocIndex: nat
    var freeIndex: nat
    var used: nat
    var constantSize: bool
    ghost var out: multiset<Block>

    ghost function Value(): Pool
      reads this, buf
    {
      Pool(buf[..], allocIndex, freeIndex, used, constantSize)
    }

    ghost predicate Ok()
      reads this, buf
    {
      Valid(Value(), out)
    }

    /** `muggle_memory_pool_init`; a requested capacity of zero becomes eight. */
    constructor (initCapacity: nat)
      requires initCapacity < WORD
      ensures Ok() && fresh(buf) && out == multiset{} && buf.Length == (if initCapacity == 0 then 8 else initCapacity)
      ensures Available(Value()) == Blocks(buf.Length)
    {
      var n := if initCapacity == 0 then 8 else initCapacity;
      allocIndex, freeIndex, used, constantSize := 0, 0, 0, false;
      buf := new Block[n](i => i);
      out := multiset{};
      new;
      WrapSplit(n, n);
      WindowSlices(Blocks(n), 0, n);
      assert buf[..] == Blocks(n) && Blocks(n)[0..n] == Blocks(n) && multiset(Blocks(n)) + multiset{} == multiset(Blocks(n));
    }

    /** `muggle_memory_pool_ensure_space`; `memory` says whether the allocations it makes succeed. */
    method EnsureSpace(capacity: nat, memory: bool) returns (ok: bool)
      requires Sound(Value()) && capacity < WORD
      modifies this`buf, this`allocIndex, this`freeIndex
      ensures ok <==> capacity <= old(buf.Length) || (!constantSize && memory)
      ensures ok && capacity > old(buf.Length) ==> fresh(buf) && Value() == Grown(old(Value()), capacity)
      ensures !(ok && capacity > old(buf.Length)) ==> buf == old(buf) && Value() == old(Value())
    {
      hide Slot, Partition, Window, Vacated, Waiting;
      if capacity <= buf.Length {
        return true;
      }
      if constantSize || !memory {
        return false;
      }
      SectionLengths(Value());
      var next, at := Regroup(buf, allocIndex, freeIndex, used, capacity, Value());
      freeIndex := 0;
      allocIndex := at;
      buf := next;
      return true;
    }

    method TakeNext() returns (block: Block)
      requires Sound(Value())
      modifies this`used, this`allocIndex
      ensures block == buf[old(allocIndex)] && Value() == Taken(old(Value()))
    {
      used := used + 1;
      block := buf[allocIndex];
      allocIndex := allocIndex + 1;
      if allocIndex == buf.Length {
        allocIndex := 0;
      }
    }

    /** `muggle_memory_pool_alloc`; -1 is NULL. Handing out only blocks that wait fails exactly when a full pool
        of 2^31 or more blocks doubles its capacity, because the doubled number wraps. */
    method Alloc(memory: bool) returns (block: int)
      requires Ok()
      modifies this
      ensures buf == old(buf) || fresh(buf)
      ensures block == -1 ==> Value() == old(Value()) && out == old(out)
      ensures block != -1 ==> Value() == Taken(Roomy(old(Value())))
      ensures Doubles(old(Value())) ==>
        && Ok()
        && (block == -1 <==> old(used) == |old(Value()).buf| && (constantSize || !memory))
        && (block != -1 ==> block !in old(out) && out == old(out) + multiset{block})
        && (block != -1 ==>
            [block] + Available(Value()) ==
            if old(used) < |old(Value()).buf| then Available(old(Value())) else New(old(Value())))
      ensures !Doubles(old(Value())) ==> block in old(out)
    {
      hide Slot, Window, Partition, Grown;
      ghost var p := Value();
      DoubleWraps(buf.Length);
      if used == buf.Length {
        if 2 * buf.Length < WORD {
          FullGrowth(p, out);
        } else {
          AllOut(p, out);
        }
        var ok := EnsureSpace(buf.Length * 2 % WORD, memory);
        if !ok {
          return -1;
        }
      }
      assert Value() == Roomy(p);
      if used < buf.Length {
        TakeFirst(Value(), out);
      }
      block := TakeNext();
      out := out + multiset{block};
    }

    /** `muggle_memory_pool_free`, called with a block that is out. */
    method Free(block: Block)
      requires Ok() && block in out
      modifies this, buf
      ensures buf == old(buf) && old(used) > 0 && Value() == Given(old(Value()), block)
      ensures Ok() && out == old(out) - multiset{block} && Available(Value()) == Available(old(Value())) + [block]
    {
      hide Slot, Window, Partition;
      ghost var p := Value();
      GiveBack(p, out, block);
      buf[freeIndex] := block;
      freeIndex := freeIndex + 1;
      if freeIndex == buf.Length {
        freeIndex := 0;
      }
      used := used - 1;
      assert Value() == Given(p, block);
      out := out - multiset{block};
    }
  }
}
