/** `muggle/c/memory/sowr_memory_pool.c`: one thread allocates, one thread frees in allocation order, skips allowed.
    `Alloc` reads the shared `free_idx` at most once and `Free` writes it once, so calls of the two threads
    may be taken to happen one after the other in the order of these accesses. */
module SowrPool {
  import opened Ring

  /** Blocks handed out as numbers `lo` up to `hi`, oldest first. */
  function Handed(lo: nat, hi: nat, capacity: nat): seq<int>
    requires lo <= hi && capacity > 0
  {
    seq(hi - lo, i requires 0 <= i < hi - lo => Slot(lo + i, capacity))
  }

  lemma HandedGrows(lo: nat, hi: nat, capacity: nat)
    requires lo <= hi && capacity > 0
    ensures Handed(lo, hi + 1, capacity) == Handed(lo, hi, capacity) + [Slot(hi, capacity)]
  {
    hide Slot;
  }

  lemma HandedDrops(lo: nat, k: nat, hi: nat, capacity: nat)
    requires lo + k <= hi && capacity > 0
    ensures Handed(lo + k, hi, capacity) == Handed(lo, hi, capacity)[k..]
  {
    hide Slot;
  }

  lemma HandedFresh(lo: nat, hi: nat, capacity: nat)
    requires capacity > 0 && lo <= hi < lo + capacity
    ensures Slot(hi, capacity) !in Handed(lo, hi, capacity)
    ensures forall i, j :: 0 <= i < j < hi - lo ==> Handed(lo, hi, capacity)[i] != Handed(lo, hi, capacity)[j]
  {
    hide Slot;
    forall j | lo <= j < hi ensures Slot(j, capacity) != Slot(hi, capacity) {
      SlotApart(j, hi, capacity);
    }
    forall i, j | 0 <= i < j < hi - lo ensures Handed(lo, hi, capacity)[i] != Handed(lo, hi, capacity)[j] {
      SlotApart(lo + i, lo + j, capacity);
    }
  }

  /** Cursors at most a turn minus one apart agree in their slots exactly when they agree. */
  lemma SameSlot(a: nat, b: nat, capacity: nat)
    requires capacity > 0 && a <= b < a + capacity
    ensures Slot(a, capacity) == Slot(b, capacity) <==> a == b
  {
    hide Slot;
    if a < b {
      SlotApart(a, b, capacity);
    }
  }

  lemma SlotNext(i: nat, capacity: nat)
    requires capacity > 0
    ensures Slot(Slot(i, capacity) + 1, capacity) == Slot(i + 1, capacity)
    ensures Slot(Slot(i, capacity) + 1 - 1, capacity) == Slot(i, capacity)
    ensures Slot(i - 1, capacity) == Slot(i + capacity - 1, capacity)
    ensures Slot(Slot(i, capacity) - 1, capacity) == Slot(i - 1, capacity)
  {
    var n := capacity;
    assert i == n * (i / n) + i % n;
    var a := i % n + 1;
    assert a == n * (a / n) + a % n;
    ModUnique(i + 1, n, i / n + a / n, a % n) by { assert (i / n + a / n) * n == n * (i / n) + n * (a / n); }
    ModUnique(i % n, n, 0, i % n);
    SlotTurn(i - 1, n);
    var b := i % n - 1;
    assert b == n * (b / n) + b % n;
    ModUnique(i - 1, n, i / n + b / n, b % n) by { assert (i / n + b / n) * n == n * (i / n) + n * (b / n); }
  }

  class SowrPool {
    const capacity: nat
    var allocIdx: nat
    var freeIdx: nat
    var cachedFreePos: nat

    /** How many blocks were ever handed and freed, and the freed count when `cachedFreePos` was last read. */
    ghost var handed: nat
    ghost var freed: nat
    ghost var seen: nat

    const WORD: nat := 0x1_0000_0000

    /** The blocks still out, in allocation order. */
    ghost function Outstanding(): seq<int>
      requires Valid()
      reads this
    {
      Handed(freed, handed, capacity)
    }

    ghost predicate Valid()
      reads this
    {
      && 0 < capacity <= WORD && WORD % capacity == 0
      && seen <= freed <= handed < seen + capacity
      && allocIdx == handed % WORD
      && Slot(freeIdx, capacity) == Slot(freed, capacity)
      && cachedFreePos == Slot(seen + capacity - 1, capacity)
    }

    /** `muggle_sowr_memory_pool_init`, `capacity` already rounded up to a power of two. */
    constructor (capacity: nat)
      requires 0 < capacity <= 0x1_0000_0000 && 0x1_0000_0000 % capacity == 0
      ensures Valid() && Outstanding() == [] && this.capacity == capacity
    {
      hide Slot;
      SlotBelow(capacity - 1, capacity);
      this.capacity := capacity;
      allocIdx, freeIdx, cachedFreePos := 0, 0, capacity - 1;
      handed, freed, seen := 0, 0, 0;
    }

    lemma AllocSlot()
      requires Valid()
      ensures Slot(allocIdx, capacity) == Slot(handed, capacity)
      ensures Slot(handed, capacity) == cachedFreePos <==> handed == seen + capacity - 1
    {
      hide Slot;
      assert WORD == capacity * (WORD / capacity);
      SlotWrap(handed, capacity, WORD / capacity);
      SameSlot(handed, seen + capacity - 1, capacity);
    }

    /** Returns a block, or -1 for NULL exactly when `capacity - 1` blocks are out; a block that is out is never returned. */
    method Alloc() returns (block: int)
      requires Valid()
      modifies this
      ensures Valid() && freed == old(freed)
      ensures block == -1 <==> |old(Outstanding())| == capacity - 1
      ensures block != -1 ==> 0 <= block < capacity && block !in old(Outstanding()) && Outstanding() == old(Outstanding()) + [block]
      ensures block == -1 ==> Outstanding() == old(Outstanding())
    {
      hide Slot, Handed;
      AllocSlot();
      HandedGrows(freed, handed, capacity);
      var allocPos := Slot(allocIdx, capacity);
      if allocPos != cachedFreePos {
        HandedFresh(freed, handed, capacity);
        Count();
        block := allocPos;
        Bump();
        return;
      }
      SlotNext(freed, capacity);
      SlotNext(freeIdx, capacity);
      seen := freed;
      cachedFreePos := Slot(freeIdx - 1, capacity);
      AllocSlot();
      Count();
      if allocPos != cachedFreePos {
        HandedFresh(freed, handed, capacity);
        block := allocPos;
        Bump();
        return;
      }
      block := -1;
    }

    lemma Count()
      requires Valid()
      ensures |Outstanding()| == handed - freed
    {
    }

    method Bump()
      requires Valid() && handed + 1 < seen + capacity
      modifies this`allocIdx, this`handed
      ensures Valid() && handed == old(handed) + 1
    {
      hide Slot;
      allocIdx := (allocIdx + 1) % WORD;
      handed := handed + 1;
    }

    /** Frees block number `k` of those out and with it all older ones. */
    method Free(block: nat, ghost k: nat)
      requires Valid() && k < |Outstanding()| && Outstanding()[k] == block
      modifies this`freeIdx, this`freed
      ensures Valid() && Outstanding() == old(Outstanding())[k + 1..]
    {
      hide Slot;
      SlotNext(freed + k, capacity);
      HandedDrops(freed, k + 1, handed, capacity);
      freeIdx := block + 1;
      freed := freed + k + 1;
    }

    /** Called on the allocating side. */
    method IsAllFree() returns (yes: bool)
      requires Valid()
      ensures yes <==> Outstanding() == []
    {
      hide Slot;
      AllocSlot();
      SameSlot(freed, handed, capacity);
      yes := Slot(freeIdx, capacity) == Slot(allocIdx, capacity);
    }
  }
}
