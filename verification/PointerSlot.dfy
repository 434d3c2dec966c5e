/** `muggle/c/memory/pointer_slot.c`: slots handed out from a ring and chained in insertion order. */
module PointerSlot {
  import opened Ring
  import opened Accounts
  import opened Collections
  import NextPow

  type Data = int

  const WORD: nat := 0x1_0000_0000
  const NULL := -1

  datatype Status = Ok | MemAlloc | BeyondRange | DuplicateFree

  /** The chain with its two sentinels, which follow the slots in the numbering of list items. */
  function Chain(live: seq<nat>, capacity: nat): seq<nat> { [capacity] + live + [capacity + 1] }

  /** `next` and `prev` link the chain. */
  predicate Linked(prev: seq<int>, next: seq<int>, live: seq<nat>, capacity: nat) {
    && |prev| == |next| == capacity + 2
    && (forall i :: 0 <= i < |live| ==> live[i] < capacity)
    && var c := Chain(live, capacity);
       forall i :: 0 <= i <= |live| ==> next[c[i]] == c[i + 1] && prev[c[i + 1]] == c[i]
  }

  predicate Distinct(live: seq<nat>) { forall i, j :: 0 <= i < j < |live| ==> live[i] != live[j] }

  lemma ChainLast(prev: seq<int>, next: seq<int>, live: seq<nat>, capacity: nat)
    requires Linked(prev, next, live, capacity)
    ensures prev[capacity + 1] == if live == [] then capacity else live[|live| - 1]
    ensures next[capacity] == if live == [] then capacity + 1 else live[0]
  {
    var c := Chain(live, capacity);
    assert c[|live| + 1] == capacity + 1 && c[0] == capacity;
    assert next[c[0]] == c[1] && prev[c[|live| + 1]] == c[|live|];
  }

  /** Linking a new item before the tail. */
  lemma LinkLast(prev: seq<int>, next: seq<int>, live: seq<nat>, capacity: nat, x: nat)
    requires Linked(prev, next, live, capacity) && Distinct(live) && x < capacity && x !in live
    ensures var last, tail := prev[capacity + 1], capacity + 1;
      && 0 <= last < capacity + 1 && last != x
      && Linked(prev[x := last][tail := x], next[x := tail][last := x], live + [x], capacity)
  {
    ChainLast(prev, next, live, capacity);
    var last, tail := prev[capacity + 1], capacity + 1;
    var c, c' := Chain(live, capacity), Chain(live + [x], capacity);
    var p, n := prev[x := last][tail := x], next[x := tail][last := x];
    forall i | 0 <= i <= |live| + 1 ensures n[c'[i]] == c'[i + 1] && p[c'[i + 1]] == c'[i] {
      if i < |live| {
        assert c'[i] == c[i] && c'[i + 1] == c[i + 1];
        assert next[c[i]] == c[i + 1] && prev[c[i + 1]] == c[i];
        assert c[i] != last by {
          assert c[|live|] == last;
          if i > 0 { assert live[i - 1] != live[|live| - 1]; }
        }
        assert c[i] != x && c[i + 1] != x && c[i + 1] != tail;
      }
    }
  }

  /** Unlinking the item at place `k`. */
  lemma LinkOut(prev: seq<int>, next: seq<int>, live: seq<nat>, capacity: nat, k: nat)
    requires Linked(prev, next, live, capacity) && Distinct(live) && k < |live|
    ensures var x := live[k];
      && 0 <= prev[x] <= capacity && 0 <= next[x] <= capacity + 1 && prev[x] != x && next[x] != x
      && Linked(prev[next[x] := prev[x]][x := NULL], next[prev[x] := next[x]][x := NULL], Without(live, k), capacity)
  {
    var c, c' := Chain(live, capacity), Chain(Without(live, k), capacity);
    var x := live[k];
    assert c[k + 1] == x;
    assert next[c[k]] == c[k + 1] && prev[c[k + 1]] == c[k];
    assert next[c[k + 1]] == c[k + 2] && prev[c[k + 2]] == c[k + 1];
    assert forall i :: 0 <= i < |c| && i != k + 1 ==> c[i] != x by {
      forall i | 0 <= i < |c| && i != k + 1 ensures c[i] != x {
        if 1 <= i <= |live| { assert c[i] == live[i - 1]; }
      }
    }
    var p, n := prev[next[x] := prev[x]][x := NULL], next[prev[x] := next[x]][x := NULL];
    forall i | 0 <= i <= |live| - 1 ensures n[c'[i]] == c'[i + 1] && p[c'[i + 1]] == c'[i] {
      var a, b := if i <= k then i else i + 1, if i + 1 <= k then i + 1 else i + 2;
      assert c'[i] == c[a] && c'[i + 1] == c[b];
      if i != k {
        assert b == a + 1;
        assert next[c[a]] == c[a + 1] && prev[c[a + 1]] == c[a];
        ChainDistinct(live, capacity, a, k);
        ChainDistinct(live, capacity, b, k + 2);
      }
    }
  }

  lemma ChainDistinct(live: seq<nat>, capacity: nat, i: nat, j: nat)
    requires Distinct(live) && (forall i :: 0 <= i < |live| ==> live[i] < capacity) && i < |live| + 2 && j < |live| + 2
    ensures Chain(live, capacity)[i] == Chain(live, capacity)[j] <==> i == j
  {
  }

  /** The ring `pp` with its unwrapped indices: the slots between them wait, the others are in use. */
  ghost predicate RingOk(pp: seq<nat>, live: seq<nat>, taken: nat, given: nat) {
    && |pp| > 0 && given <= taken <= given + |pp| && taken - given == |live|
    && (forall i :: 0 <= i < |pp| ==> pp[i] < |pp|)
    && Partition(Window(pp, taken, given + |pp|), multiset(live), |pp|)
  }

  predicate Marked(inUsed: seq<bool>, live: seq<nat>) { forall i :: 0 <= i < |inUsed| ==> (inUsed[i] <==> i in live) }

  /** The ring entry at the allocation index is in use exactly when no slot waits. */
  lemma NextWaiting(pp: seq<nat>, live: seq<nat>, taken: nat, given: nat)
    requires RingOk(pp, live, taken, given)
    ensures var x := pp[Slot(taken, |pp|)];
      x < |pp| && (x in live <==> |live| == |pp|) && (|live| < |pp| ==> RingOk(pp, live + [x], taken + 1, given))
    ensures |live| <= |pp|
  {
    hide Slot, Window, Partition;
    var x := pp[Slot(taken, |pp|)];
    PartitionMeans(Window(pp, taken, given + |pp|), multiset(live), |pp|);
    if |live| < |pp| {
      WindowPop(pp, taken, given + |pp|);
      assert multiset(Window(pp, taken, given + |pp|))[x] >= 1;
      assert x !in multiset(live);
      PartitionTake(x, Window(pp, taken + 1, given + |pp|), multiset(live), |pp|);
      assert multiset(live + [x]) == multiset(live) + multiset{x};
    } else {
      assert Window(pp, taken, given + |pp|) == [];
      assert multiset(live)[x] == 1;
    }
  }

  lemma GiveBack(pp: seq<nat>, live: seq<nat>, taken: nat, given: nat, k: nat)
    requires RingOk(pp, live, taken, given) && k < |live| && live[k] < |pp|
    ensures RingOk(pp[Slot(given, |pp|) := live[k]], Without(live, k), taken, given + 1)
  {
    hide Slot, Window, Partition;
    SlotTurn(given, |pp|);
    BagWithout(live, k);
    WindowPush(pp, taken, given + |pp|, live[k]);
    PartitionGive(live[k], Window(pp, taken, given + |pp|), multiset(live), |pp|);
    assert multiset(live) - multiset{live[k]} == multiset(Without(live, k));
  }

  lemma WithoutKeeps(live: seq<nat>, k: nat)
    requires k < |live| && Distinct(live)
    ensures Distinct(Without(live, k)) && forall x :: x in Without(live, k) <==> x in live && x != live[k]
  {
    assert forall i :: 0 <= i < |live| - 1 ==> Without(live, k)[i] == live[if i < k then i else i + 1];
    forall x | x in live && x != live[k] ensures x in Without(live, k) {
      var i :| 0 <= i < |live| && live[i] == x;
      assert Without(live, k)[if i < k then i else i - 1] == x;
    }
  }

  lemma Wraps(x: nat)
    ensures (x % WORD + 1) % WORD == (x + 1) % WORD
  {
  }

  // ------------------------------------------------------------------------- the table as a value

  /** The fields of `muggle_pointer_slot_t`. The slots are numbered from 0, the head and the tail come after them. */
  datatype Table = Table(
    capacity: nat, prev: seq<int>, next: seq<int>, inUsed: seq<bool>, data: seq<Data>, ppSlots: seq<nat>,
    allocIndex: nat, freeIndex: nat)

  /** What a read of a slot gives; `OutOfBounds` is a read past the end of an array. */
  datatype Reading = OutOfBounds | Nothing | Found(data: Data)

  /** `IDX_IN_POW_OF_2_RING` on 32-bit words: a capacity of zero masks nothing away. */
  function Index(i: nat, capacity: nat): nat { if capacity == 0 then i else Slot(i, capacity) }

  function Asked(requested: nat): (n: nat)
    ensures n > 0
  {
    if requested > 0 then requested else 1
  }

  /** The rounded capacity, cut to 32 bits. */
  function CapacityOf(n: nat): nat { NextPow.NextPow2(n) % WORD }

  /** `muggle_pointer_slot_init`: the capacity is rounded up, the arrays get the number asked for. */
  function Start(requested: nat): Table {
    var n := Asked(requested);
    Table(CapacityOf(n), seq(n + 1, _ => NULL) + [n], seq(n, _ => NULL) + [n + 1, NULL],
          seq(n, _ => false), seq(n, _ => 0), Blocks(n), 0, 0)
  }

  /** Every access of `muggle_pointer_slot_insert` is inside its array. */
  predicate InBounds(t: Table) {
    var n, i := |t.inUsed|, Index(t.allocIndex, t.capacity);
    && |t.prev| == |t.next| == n + 2 && |t.data| == n && 0 <= t.prev[n + 1] < n + 2
    && i < |t.ppSlots| && t.ppSlots[i] < n
  }

  function Inserted(t: Table, d: Data): Table
    requires InBounds(t)
  {
    var n, x := |t.inUsed|, t.ppSlots[Index(t.allocIndex, t.capacity)];
    if t.inUsed[x] then t
    else
      var last := t.prev[n + 1];
      t.(prev := t.prev[x := last][n + 1 := x], next := t.next[x := n + 1][last := x], data := t.data[x := d],
         inUsed := t.inUsed[x := true], allocIndex := (t.allocIndex + 1) % WORD)
  }

  /** `muggle_pointer_slot_get`. */
  function Got(t: Table, idx: nat): Reading
    requires |t.data| == |t.inUsed|
  {
    if idx >= t.capacity then Nothing
    else if idx >= |t.inUsed| then OutOfBounds
    else if !t.inUsed[idx] then Nothing
    else Found(t.data[idx])
  }

  class PointerSlot {
    const capacity: nat
    var prev: seq<int>
    var next: seq<int>
    var inUsed: seq<bool>
    var data: seq<Data>
    var ppSlots: seq<nat>
    var allocIndex: nat
    var freeIndex: nat

    /** The slots in use, oldest first, and the two indices before they wrap. */
    ghost var live: seq<nat>
    ghost var taken: nat
    ghost var given: nat

    ghost function Value(): Table
      reads this
    {
      Table(capacity, prev, next, inUsed, data, ppSlots, allocIndex, freeIndex)
    }

    ghost predicate Valid()
      reads this
    {
      && 0 < capacity <= WORD && WORD % capacity == 0 && |ppSlots| == |inUsed| == |data| == capacity
      && |prev| == |next| == capacity + 2
      && allocIndex == taken % WORD && freeIndex == given % WORD
      && Linked(prev, next, live, capacity) && Distinct(live) && Marked(inUsed, live) && RingOk(ppSlots, live, taken, given)
    }

    /** `muggle_pointer_slot_init`. The arrays get as many entries as asked for, the capacity is rounded up, so the table
        is in order if and only if a power of two was asked for. */
    constructor (requested: nat)
      requires requested < WORD
      ensures Value() == Start(requested) && live == []
      ensures Valid() <==> NextPow.IsPow(Asked(requested))
    {
      hide Slot, Window, Partition, NextPow.NextPow2, NextPow.IsPow;
      var n := Asked(requested);
      capacity := CapacityOf(n);
      prev := seq(n + 1, _ => NULL) + [n];
      next := seq(n, _ => NULL) + [n + 1, NULL];
      inUsed, data := seq(n, _ => false), seq(n, _ => 0);
      ppSlots := Blocks(n);
      allocIndex, freeIndex := 0, 0;
      live, taken, given := [], 0, 0;
      new;
      FirstRing(n);
      Rounded(n);
      assert Linked(prev, next, live, n);
    }

    lemma RingSlots()
      requires Valid()
      ensures Slot(allocIndex, capacity) == Slot(taken, capacity) && Slot(freeIndex, capacity) == Slot(given, capacity)
    {
      hide Slot;
      assert WORD == capacity * (WORD / capacity);
      SlotWrap(taken, capacity, WORD / capacity);
      SlotWrap(given, capacity, WORD / capacity);
    }

    /** `muggle_pointer_slot_insert`; it refuses exactly when every slot is in use. */
    method Insert(d: Data) returns (status: Status, slotIdx: nat)
      requires Valid()
      modifies this
      ensures Valid() && InBounds(old(Value())) && Value() == Inserted(old(Value()), d)
      ensures status == if |old(live)| == capacity then MemAlloc else Ok
      ensures status == Ok ==> slotIdx < capacity && slotIdx !in old(live) && live == old(live) + [slotIdx]
      ensures status == Ok ==> data == old(data)[slotIdx := d]
      ensures status != Ok ==> live == old(live) && data == old(data)
    {
      hide Slot, Linked, RingOk;
      RingSlots();
      LastInRange(prev, next, live, capacity);
      NextWaiting(ppSlots, live, taken, given);
      slotIdx := ppSlots[Slot(allocIndex, capacity)];
      if inUsed[slotIdx] {
        return MemAlloc, slotIdx;
      }
      LinkLast(prev, next, live, capacity, slotIdx);
      Wraps(taken);
      var tail := capacity + 1;
      var last := prev[tail];
      prev := prev[slotIdx := last];
      next := next[slotIdx := tail];
      next := next[last := slotIdx];
      prev := prev[tail := slotIdx];
      data := data[slotIdx := d];
      inUsed := inUsed[slotIdx := true];
      allocIndex := (allocIndex + 1) % WORD;
      live, taken := live + [slotIdx], taken + 1;
      status := Ok;
    }

    /** `muggle_pointer_slot_remove`. */
    method Remove(slotIdx: nat) returns (status: Status, ghost k: nat)
      requires Valid()
      modifies this
      ensures Valid()
      ensures status == if slotIdx >= capacity then BeyondRange else if slotIdx !in old(live) then DuplicateFree else Ok
      ensures status == Ok ==> k < |old(live)| && old(live)[k] == slotIdx && live == Without(old(live), k)
      ensures status == Ok ==> data == old(data)[slotIdx := 0]
      ensures status != Ok ==> live == old(live) && data == old(data)
    {
      hide Slot, Linked, RingOk, Without;
      k := 0;
      if slotIdx >= capacity {
        LiveBelow(prev, next, live, capacity);
        return BeyondRange, 0;
      }
      if !inUsed[slotIdx] {
        return DuplicateFree, 0;
      }
      k :| k < |live| && live[k] == slotIdx;
      RingSlots();
      LinkOut(prev, next, live, capacity, k);
      GiveBack(ppSlots, live, taken, given, k);
      WithoutKeeps(live, k);
      Wraps(given);
      ppSlots := ppSlots[Slot(freeIndex, capacity) := slotIdx];
      next := next[prev[slotIdx] := next[slotIdx]];
      prev := prev[next[slotIdx] := prev[slotIdx]];
      prev, next := prev[slotIdx := NULL], next[slotIdx := NULL];
      inUsed := inUsed[slotIdx := false];
      data := data[slotIdx := 0];
      freeIndex := (freeIndex + 1) % WORD;
      live, given := Without(live, k), given + 1;
      status := Ok;
    }

    /** `muggle_pointer_slot_get`. */
    method Get(idx: nat) returns (d: Reading)
      requires Valid()
      ensures d == Got(Value(), idx)
      ensures d == if idx in live then Found(if idx < |data| then data[idx] else 0) else Nothing
    {
      LiveBelow(prev, next, live, capacity);
      if idx >= capacity {
        return Nothing;
      }
      d := if !inUsed[idx] then Nothing else Found(data[idx]);
    }

    /** Iterating from `iter_begin` to `iter_end` gives the live data in insertion order. */
    method Iterate() returns (all: seq<Data>)
      requires Valid()
      ensures |all| == |live| && forall i :: 0 <= i < |live| ==> live[i] < |data| && all[i] == data[live[i]]
    {
      all := [];
      var item := next[capacity];
      ChainLast(prev, next, live, capacity);
      ghost var c := Chain(live, capacity);
      while item != capacity + 1
        invariant |all| <= |live| && item == c[|all| + 1]
        invariant forall i :: 0 <= i < |all| ==> all[i] == data[live[i]]
        decreases |live| - |all|
      {
        assert item == live[|all|];
        assert next[c[|all| + 1]] == c[|all| + 2];
        all := all + [data[item]];
        item := next[item];
      }
    }
  }

  lemma LiveBelow(prev: seq<int>, next: seq<int>, live: seq<nat>, capacity: nat)
    requires Linked(prev, next, live, capacity)
    ensures forall x :: x in live ==> x < capacity
  {
  }

  lemma FirstRing(n: nat)
    requires n > 0
    ensures Window(Blocks(n), 0, n) == Blocks(n) && Partition(Blocks(n), multiset{}, n)
    ensures |Blocks(n)| == n && forall i :: 0 <= i < n ==> Blocks(n)[i] < n
  {
    hide Slot;
    forall j | 0 <= j < n ensures Slot(j, n) == j {
      SlotBelow(j, n);
    }
    assert multiset(Blocks(n)) + multiset{} == multiset(Blocks(n));
  }

  lemma LastInRange(prev: seq<int>, next: seq<int>, live: seq<nat>, capacity: nat)
    requires Linked(prev, next, live, capacity)
    ensures |prev| == capacity + 2 && 0 <= prev[capacity + 1] <= capacity
  {
    ChainLast(prev, next, live, capacity);
  }

  // ------------------------------------------------------------------------- requests that are not powers of two

  /** The capacity is the number asked for exactly for powers of two; else it is larger, or zero above 2^31. */
  lemma Rounded(n: nat)
    requires 0 < n < WORD
    ensures CapacityOf(n) == n <==> NextPow.IsPow(n)
    ensures CapacityOf(n) == 0 || n <= CapacityOf(n) < WORD
    ensures CapacityOf(n) > 0 ==> WORD % CapacityOf(n) == 0
  {
    hide NextPow.NextPow2, NextPow.IsPow, Pow2;
    NextPow.SmallIsRight(n);
    PowWords();
    var r := NextPow.NextPow2(n);
    assert n <= Pow2(32) ==> r <= Pow2(32);
    if NextPow.IsPow(n) {
      PowIsOwn(n, r);
    }
    PowerDivides(r);
  }

  lemma PowIsOwn(n: nat, r: nat)
    requires NextPow.IsPow(n) && NextPow.RoundsUp(n, r)
    ensures r == n
  {
    var k: nat :| n == Pow2(k);
    assert n <= Pow2(k);
  }

  lemma PowerDivides(r: nat)
    requires NextPow.IsPow(r) && r <= WORD
    ensures r > 0 && WORD % r == 0
  {
    hide Pow2;
    PowWords();
    var k: nat :| r == Pow2(k);
    if k > 32 {
      NextPow.PowGrows(32, k);
    }
    PowDividesWord(k);
  }

  /** After `k` insertions into a table of `n` slots. */
  predicate Filled(t: Table, n: nat, k: nat) {
    && k <= n && t.capacity == CapacityOf(n) && t.ppSlots == Blocks(n) && t.allocIndex == k
    && |t.inUsed| == |t.data| == n && |t.prev| == |t.next| == n + 2 && 0 <= t.prev[n + 1] < n + 2
    && forall i :: 0 <= i < n ==> (t.inUsed[i] <==> i < k)
  }

  lemma OneMore(t: Table, n: nat, k: nat, d: Data)
    requires 0 < n < WORD && Filled(t, n, k) && k < n
    ensures InBounds(t) && Filled(Inserted(t, d), n, k + 1)
  {
    hide CapacityOf, Slot;
    Rounded(n);
    if t.capacity > 0 {
      SlotBelow(k, t.capacity);
    }
  }

  /** A full table of a power of two refuses; any other one reads `pp_slots` one past its end. */
  lemma AtTheEnd(t: Table, n: nat, d: Data)
    requires 0 < n < WORD && Filled(t, n, n)
    ensures NextPow.IsPow(n) ==> InBounds(t) && Inserted(t, d) == t
    ensures !NextPow.IsPow(n) ==> Index(t.allocIndex, t.capacity) == n == |t.ppSlots| && !InBounds(t)
  {
    hide CapacityOf, Slot, NextPow.IsPow;
    Rounded(n);
    if NextPow.IsPow(n) {
      SlotTurn(0, n);
      SlotBelow(0, n);
    } else if t.capacity > 0 {
      SlotBelow(n, t.capacity);
    }
  }

  /** Insertions one after the other; none when one of them leaves an array. */
  function InsertAll(t: Table, ds: seq<Data>): Option<Table>
    decreases |ds|
  {
    if ds == [] then Some(t) else if !InBounds(t) then None else InsertAll(Inserted(t, ds[0]), ds[1..])
  }

  lemma {:induction false} FillsUp(t: Table, n: nat, k: nat, ds: seq<Data>)
    requires 0 < n < WORD && Filled(t, n, k) && k + |ds| <= n
    ensures InsertAll(t, ds).Some? && Filled(InsertAll(t, ds).value, n, k + |ds|)
    decreases |ds|
  {
    hide Inserted, Filled, InBounds;
    if ds != [] {
      OneMore(t, n, k, ds[0]);
      FillsUp(Inserted(t, ds[0]), n, k + 1, ds[1..]);
    }
  }

  lemma {:induction false} PowerInBounds(t: Table, n: nat, k: nat, ds: seq<Data>)
    requires 0 < n < WORD && Filled(t, n, k) && NextPow.IsPow(n)
    ensures InsertAll(t, ds).Some?
    decreases |ds|
  {
    hide Inserted, InBounds, CapacityOf;
    if ds != [] {
      if k < n {
        OneMore(t, n, k, ds[0]);
        PowerInBounds(Inserted(t, ds[0]), n, k + 1, ds[1..]);
      } else {
        AtTheEnd(t, n, ds[0]);
        PowerInBounds(t, n, k, ds[1..]);
      }
    }
  }

  /** For every request that is not a power of two: as many insertions as asked for succeed, the next one reads `pp_slots`
      past its end, and a get of the index after the last slot passes the range test and reads past `slots`, unless the
      capacity was cut to zero and no get finds anything. */
  lemma PastTheEnd(requested: nat, ds: seq<Data>)
    requires requested < WORD && !NextPow.IsPow(Asked(requested)) && |ds| == Asked(requested)
    ensures InsertAll(Start(requested), ds).Some?
    ensures var n, t := Asked(requested), InsertAll(Start(requested), ds).value;
      && |t.inUsed| == |t.data| == n && (forall i :: 0 <= i < n ==> t.inUsed[i])
      && |t.ppSlots| == n == Index(t.allocIndex, t.capacity) && !InBounds(t)
      && Got(t, n) == (if t.capacity == 0 then Nothing else OutOfBounds)
      && (t.capacity == 0 ==> forall i :: Got(t, i) == Nothing)
  {
    hide InsertAll, CapacityOf, NextPow.IsPow;
    var n := Asked(requested);
    FillsUp(Start(requested), n, 0, ds);
    AtTheEnd(InsertAll(Start(requested), ds).value, n, 0);
    Rounded(n);
  }

  /** Every sequence of insertions stays inside the arrays if and only if a power of two was asked for. */
  lemma RequestExactly(requested: nat)
    requires requested < WORD
    ensures NextPow.IsPow(Asked(requested)) <==> forall ds :: InsertAll(Start(requested), ds).Some?
  {
    hide InsertAll, CapacityOf, NextPow.IsPow, InBounds;
    var n, t := Asked(requested), Start(requested);
    if NextPow.IsPow(n) {
      forall ds ensures InsertAll(t, ds).Some? {
        PowerInBounds(t, n, 0, ds);
      }
    } else {
      var ds := seq(n, _ => 0);
      PastTheEnd(requested, ds);
      InsertMore(t, ds, 0);
      assert !InsertAll(t, ds + [0]).Some?;
    }
  }

  lemma {:induction false} InsertMore(t: Table, ds: seq<Data>, d: Data)
    requires InsertAll(t, ds).Some? && !InBounds(InsertAll(t, ds).value)
    ensures InsertAll(t, ds + [d]).None?
    decreases |ds|
  {
    hide InBounds, Inserted;
    if ds == [] {
      assert ([] + [d])[0] == d;
    } else {
      InsertMore(Inserted(t, ds[0]), ds[1..], d);
      assert (ds + [d])[1..] == ds[1..] + [d];
    }
  }
}
