/** `muggle/c/memory/threadsafe_memory_pool.c` as steps of any number of threads.
    Memory is sequentially consistent and cursors do not wrap. A compare-exchange may fail
    spuriously, as the weak form the code uses may; the act says whether it did. The failure is harmful while
    `alloc_cursor` has not reached the capacity: the loop compares against the masked position. */
module TsPool {
  import opened Ring
  import opened Threads
  import opened Accounts

  /** Where a thread stands inside `alloc` or `free`; `cur` is its local `alloc_cursor`. */
  datatype Pc =
    | Idle
    | Loaded(cur: nat)
    | Checked(cur: nat)
    | Fetched(cur: nat, data: Block)
    | Freeing(block: Block)
    | Locked(block: Block)
    | Written(block: Block)
    | Stored

  /** `out` holds the blocks given to callers; `holder` is the thread that owns `free_mutex`. */
  datatype State = State(ptrs: seq<Block>, alloc: nat, freed: nat, holder: int, pcs: seq<Pc>, out: multiset<Block>)

  const NOBODY := -1

  datatype Act =
    | LoadAlloc(t: nat)
    | CheckFree(t: nat)
    | Fetch(t: nat)
    | CompareExchange(t: nat, spurious: bool)
    | BeginFree(t: nat, b: Block)
    | Lock(t: nat)
    | WriteSlot(t: nat)
    | StoreCursor(t: nat)
    | Unlock(t: nat)

  function Init(capacity: nat, threads: nat): State {
    State(seq(capacity, i => i), 0, capacity, NOBODY, seq(threads, _ => Idle), multiset{})
  }

  predicate Enabled(s: State, a: Act) {
    && |s.ptrs| > 0 && a.t < |s.pcs|
    && var pc := s.pcs[a.t];
      match a
      case LoadAlloc(_) => pc.Idle?
      case CheckFree(_) => pc.Loaded?
      case Fetch(_) => pc.Checked?
      case CompareExchange(_, _) => pc.Fetched?
      case BeginFree(_, b) => pc.Idle? && b in s.out
      case Lock(_) => pc.Freeing? && s.holder == NOBODY
      case WriteSlot(_) => pc.Locked?
      case StoreCursor(_) => pc.Written?
      case Unlock(_) => pc.Stored?
  }

  function Goto(s: State, t: nat, pc: Pc): State
    requires t < |s.pcs|
  {
    s.(pcs := s.pcs[t := pc])
  }

  /** The compare-exchange fails and leaves `seen` in `expected`: the loop ends only if that equals the masked position. */
  function CasFailed(s: State, t: nat, seen: nat): State
    requires |s.ptrs| > 0 && t < |s.pcs| && s.pcs[t].Fetched?
  {
    if seen != Slot(s.pcs[t].cur, |s.ptrs|) then Goto(s, t, Loaded(seen))
    else Goto(s, t, Idle).(out := s.out + multiset{s.pcs[t].data})
  }

  function After(s: State, a: Act): State
    requires Enabled(s, a)
  {
    var t, pc, cap := a.t, s.pcs[a.t], |s.ptrs|;
    match a
    case LoadAlloc(_) => Goto(s, t, Loaded(s.alloc))
    case CheckFree(_) => Goto(s, t, if pc.cur == s.freed then Idle else Checked(pc.cur))
    case Fetch(_) => Goto(s, t, Fetched(pc.cur, s.ptrs[Slot(pc.cur, cap)]))
    case CompareExchange(_, spurious) =>
      if s.alloc != pc.cur then CasFailed(s, t, s.alloc)
      else if spurious then CasFailed(s, t, pc.cur)
      else Goto(s, t, Idle).(alloc := s.alloc + 1, out := s.out + multiset{pc.data})
    case BeginFree(_, b) => Goto(s, t, Freeing(b)).(out := s.out - multiset{b})
    case Lock(_) => Goto(s, t, Locked(pc.block)).(holder := t)
    case WriteSlot(_) => Goto(s, t, Written(pc.block)).(ptrs := s.ptrs[Slot(s.freed, cap) := pc.block])
    case StoreCursor(_) => Goto(s, t, Stored).(freed := s.freed + 1)
    case Unlock(_) => Goto(s, t, Idle).(holder := NOBODY)
  }

  function Carried(pc: Pc): multiset<Block> {
    if pc.Freeing? || pc.Locked? || pc.Written? then multiset{pc.block} else multiset{}
  }

  function MidFree(s: State): multiset<Block> { Gather(s.pcs, Carried) }

  /** Free ring slots, blocks with callers and blocks on their way back are all blocks, each exactly once. */
  predicate Partitioned(s: State) {
    |s.ptrs| > 0 && s.alloc <= s.freed
    && multiset(Window(s.ptrs, s.alloc, s.freed)) + s.out + MidFree(s) == multiset(Blocks(|s.ptrs|))
  }

  predicate InCritical(pc: Pc) { pc.Locked? || pc.Written? || pc.Stored? }

  predicate PcOk(s: State, t: nat)
    requires |s.ptrs| > 0 && t < |s.pcs|
  {
    && (InCritical(s.pcs[t]) <==> s.holder == t)
    && match s.pcs[t]
       case Loaded(cur) => cur <= s.alloc
       case Checked(cur) => cur <= s.alloc && cur < s.freed
       case Fetched(cur, data) => cur <= s.alloc && cur < s.freed && (cur == s.alloc ==> data == s.ptrs[Slot(cur, |s.ptrs|)])
       case Written(b) => s.ptrs[Slot(s.freed, |s.ptrs|)] == b
       case _ => true
  }

  predicate Inv(s: State) {
    Partitioned(s) && forall t :: 0 <= t < |s.pcs| ==> PcOk(s, t)
  }

  /** The one failure the code does not survive: a spurious one while the cursor is still below the capacity. */
  predicate Harmless(s: State, a: Act)
    requires Enabled(s, a)
  {
    a.CompareExchange? && a.spurious && s.alloc == s.pcs[a.t].cur ==> s.alloc >= |s.ptrs|
  }

  /** A pool with blocks outside the ring has room in the ring. */
  lemma Room(s: State)
    requires Partitioned(s)
    ensures s.freed - s.alloc + |s.out| + |MidFree(s)| == |s.ptrs|
  {
    BlocksOnce(|s.ptrs|);
  }

  lemma MidRoom(s: State, t: nat)
    requires Partitioned(s) && t < |s.pcs| && Carried(s.pcs[t]) != multiset{}
    ensures s.alloc <= s.freed < s.alloc + |s.ptrs|
  {
    Room(s);
    GatherHas(s.pcs, t, Carried);
  }

  /** Steps that change neither ring, callers' blocks nor blocks on their way back. */
  lemma QuietStep(s: State, s': State, t: nat)
    requires Partitioned(s) && t < |s.pcs| && |s'.ptrs| == |s.ptrs| && s'.alloc == s.alloc && s'.freed == s.freed
    requires Window(s'.ptrs, s.alloc, s.freed) == Window(s.ptrs, s.alloc, s.freed) && s'.out == s.out
    requires |s'.pcs| == |s.pcs| && s'.pcs == s.pcs[t := s'.pcs[t]] && Carried(s'.pcs[t]) == Carried(s.pcs[t])
    ensures Partitioned(s')
  {
    hide Blocks, Gather, Window;
    SameMid(s.pcs, t, s'.pcs[t]);
  }

  lemma RingToCaller(slots: seq<Block>, lo: nat, hi: nat, out: multiset<Block>, mid: multiset<Block>, b: Block)
    requires |slots| > 0 && lo < hi && b == slots[Slot(lo, |slots|)]
    ensures multiset(Window(slots, lo + 1, hi)) + (out + multiset{b}) + mid == multiset(Window(slots, lo, hi)) + out + mid
  {
    hide Slot, Window;
    WindowPop(slots, lo, hi);
  }

  lemma CallerToMid(r: multiset<Block>, out: multiset<Block>, mid: multiset<Block>, b: Block)
    requires b in out
    ensures r + (out - multiset{b}) + (mid - multiset{} + multiset{b}) == r + out + mid
  {
  }

  lemma MidToRing(r: seq<Block>, out: multiset<Block>, mid: multiset<Block>, b: Block)
    requires multiset{b} <= mid
    ensures multiset(r + [b]) + out + (mid - multiset{b} + multiset{}) == multiset(r) + out + mid
  {
  }

  /** A thread that carries the same before and after changes nothing in the total. */
  lemma SameMid(pcs: seq<Pc>, t: nat, pc: Pc)
    requires t < |pcs| && Carried(pc) == Carried(pcs[t])
    ensures Gather(pcs[t := pc], Carried) == Gather(pcs, Carried)
  {
    GatherUpdate(pcs, t, pc, Carried);
    var m := Gather(pcs, Carried);
    assert m - Carried(pc) + Carried(pc) == m;
  }

  lemma CasKeeps(s: State, t: nat)
    requires Partitioned(s) && t < |s.pcs| && PcOk(s, t) && s.pcs[t].Fetched? && s.pcs[t].cur == s.alloc
    ensures Partitioned(After(s, CompareExchange(t, false)))
  {
    hide Slot, Blocks, Gather, Window;
    SameMid(s.pcs, t, Idle);
    RingToCaller(s.ptrs, s.alloc, s.freed, s.out, MidFree(s), s.pcs[t].data);
  }

  lemma BeginFreeKeeps(s: State, t: nat, b: Block)
    requires Partitioned(s) && Enabled(s, BeginFree(t, b))
    ensures Partitioned(After(s, BeginFree(t, b)))
  {
    hide Slot, Blocks, Gather, Window;
    GatherUpdate(s.pcs, t, Freeing(b), Carried);
    CallerToMid(multiset(Window(s.ptrs, s.alloc, s.freed)), s.out, MidFree(s), b);
  }

  lemma StoreKeeps(s: State, t: nat)
    requires Partitioned(s) && t < |s.pcs| && PcOk(s, t) && s.pcs[t].Written?
    ensures Partitioned(After(s, StoreCursor(t)))
  {
    hide Slot, Blocks, Gather, Window;
    var b := s.pcs[t].block;
    GatherUpdate(s.pcs, t, Stored, Carried);
    WindowGrow(s.ptrs, s.alloc, s.freed);
    MidToRing(Window(s.ptrs, s.alloc, s.freed), s.out, MidFree(s), b);
  }

  lemma WriteKeeps(s: State, t: nat)
    requires Partitioned(s) && Enabled(s, WriteSlot(t))
    ensures Partitioned(After(s, WriteSlot(t)))
  {
    hide Slot, Partitioned, MidFree;
    MidRoom(s, t);
    WindowPush(s.ptrs, s.alloc, s.freed, s.pcs[t].block);
    QuietStep(s, After(s, WriteSlot(t)), t);
  }

  lemma CasFailureKeeps(s: State, a: Act)
    requires Partitioned(s) && Enabled(s, a) && Harmless(s, a) && a.CompareExchange? && PcOk(s, a.t)
    requires s.pcs[a.t].cur != s.alloc || a.spurious
    ensures Partitioned(After(s, a))
  {
    hide Slot, Partitioned, MidFree, Window;
    SlotBelow(s.pcs[a.t].cur, |s.ptrs|);
    QuietStep(s, After(s, a), a.t);
  }

  lemma QuietKeeps(s: State, a: Act)
    requires Partitioned(s) && Enabled(s, a) && (a.LoadAlloc? || a.CheckFree? || a.Fetch?)
    ensures Partitioned(After(s, a))
  {
    hide Slot, Partitioned, MidFree, Window;
    QuietStep(s, After(s, a), a.t);
  }

  lemma LockKeeps(s: State, a: Act)
    requires Partitioned(s) && Enabled(s, a) && (a.Lock? || a.Unlock?)
    ensures Partitioned(After(s, a))
  {
    hide Slot, Partitioned, MidFree, Window;
    QuietStep(s, After(s, a), a.t);
  }

  lemma PartitionKept(s: State, a: Act)
    requires Inv(s) && Enabled(s, a) && Harmless(s, a)
    ensures Partitioned(After(s, a))
  {
    hide Slot, Partitioned, MidFree, Window, After;
    assert PcOk(s, a.t);
    match a
    case CompareExchange(t, spurious) =>
      if s.pcs[t].cur != s.alloc || spurious {
        CasFailureKeeps(s, a);
      } else {
        CasKeeps(s, t);
      }
    case BeginFree(t, b) => BeginFreeKeeps(s, t, b);
    case StoreCursor(t) => StoreKeeps(s, t);
    case WriteSlot(t) => WriteKeeps(s, t);
    case Lock(_) => LockKeeps(s, a);
    case Unlock(_) => LockKeeps(s, a);
    case _ => QuietKeeps(s, a);
  }

  predicate Allocating(a: Act) { a.LoadAlloc? || a.CheckFree? || a.Fetch? || a.CompareExchange? }

  lemma AllocPcKept(s: State, a: Act, u: nat)
    requires Inv(s) && Enabled(s, a) && Harmless(s, a) && u < |s.pcs| && Allocating(a)
    ensures PcOk(After(s, a), u)
  {
    hide Slot, MidFree, Window, Blocks;
    assert PcOk(s, u) && PcOk(s, a.t);
    if a.CompareExchange? {
      SlotBelow(s.pcs[a.t].cur, |s.ptrs|);
    }
  }

  lemma FreePcKept(s: State, a: Act, u: nat)
    requires Inv(s) && Enabled(s, a) && u < |s.pcs| && !Allocating(a) && !a.WriteSlot?
    ensures PcOk(After(s, a), u)
  {
    hide Slot, Partitioned;
    assert PcOk(s, u) && PcOk(s, a.t);
  }

  lemma PcKept(s: State, a: Act, u: nat)
    requires Inv(s) && Enabled(s, a) && Harmless(s, a) && u < |s.pcs|
    ensures PcOk(After(s, a), u)
  {
    hide PcOk, After, Partitioned;
    if Allocating(a) {
      AllocPcKept(s, a, u);
    } else if a.WriteSlot? {
      WritePcKept(s, a.t, u);
    } else {
      FreePcKept(s, a, u);
    }
  }

  /** The slot being written is not one an allocation may be about to claim. */
  lemma WritePcKept(s: State, t: nat, u: nat)
    requires Partitioned(s) && Enabled(s, WriteSlot(t)) && u < |s.pcs| && PcOk(s, u) && PcOk(s, t)
    ensures PcOk(After(s, WriteSlot(t)), u)
  {
    hide Slot, MidFree, Partitioned, Window;
    MidRoom(s, t);
    if s.alloc < s.freed {
      SlotApart(s.alloc, s.freed, |s.ptrs|);
    }
  }

  /** Every step of every thread keeps the invariant. */
  lemma StepSafe(s: State, a: Act)
    requires Inv(s) && Enabled(s, a) && Harmless(s, a)
    ensures Inv(After(s, a))
  {
    hide PcOk, Partitioned, After;
    PartitionKept(s, a);
    AfterSize(s, a);
    forall u | 0 <= u < |After(s, a).pcs| ensures PcOk(After(s, a), u) {
      PcKept(s, a, u);
    }
  }

  lemma AfterSize(s: State, a: Act)
    requires Enabled(s, a)
    ensures |After(s, a).pcs| == |s.pcs| && |After(s, a).ptrs| == |s.ptrs|
  {
    hide Slot;
    match a
    case LoadAlloc(_) =>
    case CheckFree(_) =>
    case Fetch(_) =>
    case CompareExchange(_, _) =>
    case BeginFree(_, _) =>
    case _ =>
  }

  /** `acts` is a run from `s`; only under `weak` does the harmful failure occur in it. */
  predicate Legal(s: State, weak: bool, acts: seq<Act>)
    decreases |acts|
  {
    acts == [] || (Enabled(s, acts[0]) && (weak || Harmless(s, acts[0])) && Legal(After(s, acts[0]), weak, acts[1..]))
  }

  function Exec(s: State, weak: bool, acts: seq<Act>): State
    requires Legal(s, weak, acts)
    decreases |acts|
  {
    if acts == [] then s else Exec(After(s, acts[0]), weak, acts[1..])
  }

  lemma {:induction false} ExecSafe(s: State, acts: seq<Act>)
    requires Inv(s) && Legal(s, false, acts)
    ensures Inv(Exec(s, false, acts))
    decreases |acts|
  {
    hide Inv, After, Enabled, Harmless;
    if acts != [] {
      StepSafe(s, acts[0]);
      ExecSafe(After(s, acts[0]), acts[1..]);
    }
  }

  lemma InitSafe(capacity: nat, threads: nat)
    requires capacity > 0
    ensures Inv(Init(capacity, threads))
  {
    var s := Init(capacity, threads);
    GatherNone(s.pcs, Carried);
    forall i | 0 <= i < capacity ensures Slot(i, capacity) == i {
      SlotBelow(i, capacity);
    }
    assert Window(s.ptrs, 0, capacity) == s.ptrs;
  }

  /** In how many places a block is: the ring, callers, threads that are giving it back. */
  function Places(s: State, b: Block): nat
    requires |s.ptrs| > 0 && s.alloc <= s.freed
  {
    multiset(Window<Block>(s.ptrs, s.alloc, s.freed))[b] + s.out[b] + MidFree(s)[b]
  }

  /** Without the harmful failure, at every moment of every run of any number of threads each block is in exactly one place. */
  lemma RunPartitions(capacity: nat, threads: nat, acts: seq<Act>)
    requires capacity > 0 && Legal(Init(capacity, threads), false, acts)
    ensures var s := Exec(Init(capacity, threads), false, acts);
      Inv(s) && |s.ptrs| == capacity && forall b: Block :: Places(s, b) == if b < capacity then 1 else 0
  {
    hide Inv, Exec, Legal;
    InitSafe(capacity, threads);
    ExecSafe(Init(capacity, threads), acts);
    ExecSize(Init(capacity, threads), acts);
    EachOnce(Exec(Init(capacity, threads), false, acts));
  }

  lemma {:induction false} ExecSize(s: State, acts: seq<Act>)
    requires Legal(s, false, acts)
    ensures |Exec(s, false, acts).ptrs| == |s.ptrs|
    decreases |acts|
  {
    hide Enabled, After, Harmless;
    if acts != [] {
      AfterSize(s, acts[0]);
      ExecSize(After(s, acts[0]), acts[1..]);
    }
  }

  lemma EachOnce(s: State)
    requires Inv(s)
    ensures |s.ptrs| > 0 && forall b: Block :: Places(s, b) == if b < |s.ptrs| then 1 else 0
  {
    hide Blocks, Window, Gather, PcOk;
    BlocksOnce(|s.ptrs|);
    forall b: Block ensures Places(s, b) == if b < |s.ptrs| then 1 else 0 {
      var ring, mid, all := multiset(Window<Block>(s.ptrs, s.alloc, s.freed)), MidFree(s), multiset(Blocks(|s.ptrs|));
      assert (ring + s.out + mid)[b] == all[b];
    }
  }

  /** An allocation that succeeds hands out a block that was in the ring and with nobody else. */
  lemma HandsOutFreeBlock(s: State, t: nat)
    requires Inv(s) && Enabled(s, CompareExchange(t, false)) && s.pcs[t].cur == s.alloc
    ensures var b, s' := s.pcs[t].data, After(s, CompareExchange(t, false));
      && s.alloc < s.freed && b == Window(s.ptrs, s.alloc, s.freed)[0] && b < |s.ptrs|
      && b !in s.out && b !in MidFree(s) && s'.out[b] == 1 && b !in Window(s'.ptrs, s'.alloc, s'.freed)
  {
    hide Slot, Blocks, Gather, Window;
    assert PcOk(s, t);
    WindowPop(s.ptrs, s.alloc, s.freed);
    BlocksOnce(|s.ptrs|);
    var b := s.pcs[t].data;
    assert multiset(Window(s.ptrs, s.alloc, s.freed))[b] + s.out[b] + MidFree(s)[b] == multiset(Blocks(|s.ptrs|))[b];
    assert multiset(Window(s.ptrs, s.alloc, s.freed))[b] == 1 + multiset(Window(s.ptrs, s.alloc + 1, s.freed))[b];
  }

  /** NULL is returned only if, at the moment of the check, no block at all is in the ring. */
  lemma NullMeansEmpty(s: State, t: nat)
    requires Inv(s) && Enabled(s, CheckFree(t))
    ensures After(s, CheckFree(t)).pcs[t].Idle? ==> s.alloc == s.freed && s.out + MidFree(s) == multiset(Blocks(|s.ptrs|))
    ensures After(s, CheckFree(t)).pcs[t].Idle? <==> s.pcs[t].cur == s.freed
  {
    assert PcOk(s, t);
  }

  /** A spurious failure keeps every block in one place if and only if the cursor has reached the capacity. */
  lemma SpuriousFailure(s: State, t: nat)
    requires Inv(s) && Enabled(s, CompareExchange(t, true)) && s.pcs[t].cur == s.alloc
    ensures Partitioned(After(s, CompareExchange(t, true))) <==> s.alloc >= |s.ptrs|
  {
    hide Slot, Blocks, Gather, Window;
    var a := CompareExchange(t, true);
    var s' := After(s, a);
    SlotBelow(s.alloc, |s.ptrs|);
    if s.alloc >= |s.ptrs| {
      PartitionKept(s, a);
    } else {
      GatherUpdate(s.pcs, t, Idle, Carried);
      Room(s);
      BlocksOnce(|s.ptrs|);
      assert |s'.out| == |s.out| + 1 && |MidFree(s')| == |MidFree(s)|;
    }
  }

  /** One allocation, undisturbed up to its compare-exchange. */
  lemma ReachExchange(s: State) returns (acts: seq<Act>, s': State)
    requires 0 < |s.ptrs| && s.alloc < s.freed && |s.pcs| > 0 && s.pcs[0] == Idle
    ensures acts == [LoadAlloc(0), CheckFree(0), Fetch(0)] && Legal(s, false, acts) && s' == Exec(s, false, acts)
    ensures s'.ptrs == s.ptrs && s'.alloc == s.alloc && Enabled(s', CompareExchange(0, true)) && s'.pcs[0].cur == s.alloc
  {
    hide Slot;
    acts := [LoadAlloc(0), CheckFree(0), Fetch(0)];
    var s1 := After(s, LoadAlloc(0));
    var s2 := After(s1, CheckFree(0));
    s' := After(s2, Fetch(0));
    assert acts[1..][1..][1..] == [] && acts[1..][1..][0] == Fetch(0) && acts[1..][0] == CheckFree(0);
    assert Legal(s', false, acts[1..][1..][1..]) && Legal(s2, false, acts[1..][1..]) && Legal(s1, false, acts[1..]);
  }

  lemma {:induction false} Append(s: State, weak: bool, acts: seq<Act>, a: Act)
    requires Legal(s, weak, acts) && Enabled(Exec(s, weak, acts), a) && (weak || Harmless(Exec(s, weak, acts), a))
    ensures Legal(s, weak, acts + [a]) && Exec(s, weak, acts + [a]) == After(Exec(s, weak, acts), a)
    decreases |acts|
  {
    hide After, Enabled, Harmless;
    if acts == [] {
      assert ([] + [a])[1..] == [];
    } else {
      Append(After(s, acts[0]), weak, acts[1..], a);
      assert (acts + [a])[1..] == acts[1..] + [a];
    }
  }

  /** Every run keeps each block in one place if and only if the harmful failure does not occur, or nobody allocates. */
  lemma PartitionedExactly(capacity: nat, threads: nat, weak: bool)
    requires capacity > 0
    ensures !weak || threads == 0 <==>
      forall acts :: Legal(Init(capacity, threads), weak, acts) ==> Partitioned(Exec(Init(capacity, threads), weak, acts))
  {
    hide Exec, Legal, Partitioned, After;
    var s0 := Init(capacity, threads);
    InitSafe(capacity, threads);
    if threads == 0 {
      forall acts | Legal(s0, weak, acts) ensures Partitioned(Exec(s0, weak, acts)) {
        NobodyActs(s0, weak, acts);
      }
    } else if !weak {
      forall acts | Legal(s0, weak, acts) ensures Partitioned(Exec(s0, weak, acts)) {
        ExecSafe(s0, acts);
      }
    } else {
      var acts, s := ReachExchange(s0);
      ExecSafe(s0, acts);
      SpuriousFailure(s, 0);
      SameRun(s0, acts);
      Append(s0, true, acts, CompareExchange(0, true));
      assert !Partitioned(Exec(s0, true, acts + [CompareExchange(0, true)]));
    }
  }

  lemma NobodyActs(s: State, weak: bool, acts: seq<Act>)
    requires |s.pcs| == 0 && Legal(s, weak, acts)
    ensures Exec(s, weak, acts) == s
  {
  }

  lemma {:induction false} SameRun(s: State, acts: seq<Act>)
    requires Legal(s, false, acts)
    ensures Legal(s, true, acts) && Exec(s, true, acts) == Exec(s, false, acts)
    decreases |acts|
  {
    hide After, Enabled, Harmless;
    if acts != [] {
      SameRun(After(s, acts[0]), acts[1..]);
    }
  }
}
