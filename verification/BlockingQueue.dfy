/** `muggle/c/sync/array_blocking_queue.c`: any number of producers and consumers around one mutex and two
    condition variables. `notify_one` wakes some sleeper if there is one; waits may also end spuriously. */
module BlockingQueue {
  import opened Ring
  import opened Threads

  type Data = int

  datatype Pc =
    | Idle
    | WantPut(data: Data) | InPut(data: Data) | SleepPut(data: Data) | WokenPut(data: Data)
    | WantTake | InTake | SleepTake | WokenTake
    | Done

  /** `puts` and `takes` are the values put and taken so far. */
  datatype State = State(
    datas: seq<Data>, putIdx: nat, takeIdx: nat, cnt: nat, holder: int, pcs: seq<Pc>,
    puts: seq<Data>, takes: seq<Data>)

  const NOBODY := -1

  datatype Act =
    | CallPut(t: nat, data: Data)
    | CallTake(t: nat)
    | Lock(t: nat)
    | Wait(t: nat)
    | Enqueue(t: nat, woken: int)
    | Dequeue(t: nat, woken: int)
    | Unlock(t: nat)
    | SpuriousWake(t: nat)

  function Init(capacity: nat, threads: nat): State
    requires capacity > 0
  {
    State(seq(capacity, _ => 0), 0, 0, 0, NOBODY, seq(threads, _ => Idle), [], [])
  }

  predicate SleepsPut(pc: Pc) { pc.SleepPut? }
  predicate SleepsTake(pc: Pc) { pc.SleepTake? }

  /** Woken or already inside: will look at the queue before sleeping again. */
  predicate RunsPut(pc: Pc) { pc.WokenPut? || pc.InPut? }
  predicate RunsTake(pc: Pc) { pc.WokenTake? || pc.InTake? }

  predicate Inside(pc: Pc) { pc.InPut? || pc.InTake? || pc.Done? }

  /** `notify_one`: `woken` is a sleeper of the kind, or nobody when there is none. */
  predicate Notifies(s: State, woken: int, sleeps: Pc -> bool) {
    if woken == NOBODY then forall u :: 0 <= u < |s.pcs| ==> !sleeps(s.pcs[u])
    else 0 <= woken < |s.pcs| && sleeps(s.pcs[woken])
  }

  predicate Enabled(s: State, a: Act) {
    && a.t < |s.pcs| && |s.datas| > 0
    && var pc := s.pcs[a.t];
      match a
      case CallPut(_, _) => pc.Idle?
      case CallTake(_) => pc.Idle?
      case Lock(_) => (pc.WantPut? || pc.WokenPut? || pc.WantTake? || pc.WokenTake?) && s.holder == NOBODY
      case Wait(_) => (pc.InPut? && s.cnt == |s.datas|) || (pc.InTake? && s.cnt == 0)
      case Enqueue(_, woken) => pc.InPut? && s.cnt != |s.datas| && s.putIdx < |s.datas| && Notifies(s, woken, SleepsTake)
      case Dequeue(_, woken) => pc.InTake? && s.cnt != 0 && s.takeIdx < |s.datas| && Notifies(s, woken, SleepsPut)
      case Unlock(_) => pc.Done?
      case SpuriousWake(_) => pc.SleepPut? || pc.SleepTake?
  }

  function Awake(pc: Pc): Pc {
    match pc
    case SleepPut(d) => WokenPut(d)
    case SleepTake => WokenTake
    case _ => pc
  }

  function WakeUp(pcs: seq<Pc>, woken: int): seq<Pc> {
    if 0 <= woken < |pcs| then pcs[woken := Awake(pcs[woken])] else pcs
  }

  function After(s: State, a: Act): State
    requires Enabled(s, a)
  {
    var t, pc, cap := a.t, s.pcs[a.t], |s.datas|;
    match a
    case CallPut(_, d) => s.(pcs := s.pcs[t := WantPut(d)])
    case CallTake(_) => s.(pcs := s.pcs[t := WantTake])
    case Lock(_) => s.(holder := t, pcs := s.pcs[t := if pc.WantPut? || pc.WokenPut? then InPut(pc.data) else InTake])
    case Wait(_) => s.(holder := NOBODY, pcs := s.pcs[t := if pc.InPut? then SleepPut(pc.data) else SleepTake])
    case Enqueue(_, woken) =>
      s.(datas := s.datas[s.putIdx := pc.data], putIdx := Bump(s.putIdx, cap), cnt := s.cnt + 1,
         puts := s.puts + [pc.data], pcs := WakeUp(s.pcs[t := Done], woken))
    case Dequeue(_, woken) =>
      s.(takeIdx := Bump(s.takeIdx, cap), cnt := s.cnt - 1,
         takes := s.takes + [s.datas[s.takeIdx]], pcs := WakeUp(s.pcs[t := Done], woken))
    case Unlock(_) => s.(holder := NOBODY, pcs := s.pcs[t := Idle])
    case SpuriousWake(_) => s.(pcs := s.pcs[t := Awake(pc)])
  }

  predicate Ledger(s: State) {
    && 0 < |s.datas| && |s.takes| <= |s.puts| <= |s.takes| + |s.datas|
    && s.cnt == |s.puts| - |s.takes|
    && s.putIdx == Slot(|s.puts|, |s.datas|) && s.takeIdx == Slot(|s.takes|, |s.datas|)
    && s.takes == s.puts[..|s.takes|] && Window(s.datas, |s.takes|, |s.puts|) == s.puts[|s.takes|..]
  }

  /** While consumers sleep, each value in the queue has a consumer that will look; likewise for producers and room. */
  predicate NoneMissed(s: State) {
    && (Count(s.pcs, SleepsTake) > 0 ==> s.cnt <= Count(s.pcs, RunsTake))
    && (Count(s.pcs, SleepsPut) > 0 ==> |s.datas| - s.cnt <= Count(s.pcs, RunsPut))
  }

  predicate Mutex(s: State, t: nat)
    requires t < |s.pcs|
  {
    Inside(s.pcs[t]) <==> s.holder == t
  }

  predicate Inv(s: State) {
    && Ledger(s) && NoneMissed(s) && (s.holder == NOBODY || 0 <= s.holder < |s.pcs|)
    && forall t :: 0 <= t < |s.pcs| ==> Mutex(s, t)
  }

  lemma LedgerKept(s: State, a: Act)
    requires Ledger(s) && Enabled(s, a)
    ensures Ledger(After(s, a))
  {
    hide Slot, Window, Bump;
    if a.Enqueue? {
      BumpSlot(|s.puts|, |s.datas|);
      WindowPush(s.datas, |s.takes|, |s.puts|, s.pcs[a.t].data);
    } else if a.Dequeue? {
      BumpSlot(|s.takes|, |s.datas|);
      WindowPop(s.datas, |s.takes|, |s.puts|);
    }
  }

  lemma MutexKept(s: State, a: Act, u: nat)
    requires Inv(s) && Enabled(s, a) && u < |s.pcs|
    ensures |After(s, a).pcs| == |s.pcs| && Mutex(After(s, a), u)
    ensures After(s, a).holder == NOBODY || 0 <= After(s, a).holder < |s.pcs|
  {
    hide Slot, Window, Bump, Ledger, NoneMissed, Notifies;
    assert Mutex(s, u) && Mutex(s, a.t);
  }

  function One(b: bool): nat { if b then 1 else 0 }

  /** How one thread's move changes the four counts. */
  lemma Tally(pcs: seq<Pc>, t: nat, pc: Pc)
    requires t < |pcs|
    ensures Count(pcs[t := pc], SleepsPut) == Count(pcs, SleepsPut) - One(SleepsPut(pcs[t])) + One(SleepsPut(pc))
    ensures Count(pcs[t := pc], SleepsTake) == Count(pcs, SleepsTake) - One(SleepsTake(pcs[t])) + One(SleepsTake(pc))
    ensures Count(pcs[t := pc], RunsPut) == Count(pcs, RunsPut) - One(RunsPut(pcs[t])) + One(RunsPut(pc))
    ensures Count(pcs[t := pc], RunsTake) == Count(pcs, RunsTake) - One(RunsTake(pcs[t])) + One(RunsTake(pc))
  {
    CountUpdate(pcs, t, pc, SleepsPut);
    CountUpdate(pcs, t, pc, SleepsTake);
    CountUpdate(pcs, t, pc, RunsPut);
    CountUpdate(pcs, t, pc, RunsTake);
  }

  lemma MoveKeeps(s: State, a: Act)
    requires Inv(s) && Enabled(s, a) && !a.Enqueue? && !a.Dequeue?
    ensures NoneMissed(After(s, a))
  {
    hide Slot, Window, Count;
    var pc := After(s, a).pcs[a.t];
    Tally(s.pcs, a.t, pc);
  }

  lemma EnqueueKeeps(s: State, t: nat, woken: int)
    requires Inv(s) && Enabled(s, Enqueue(t, woken))
    ensures NoneMissed(After(s, Enqueue(t, woken)))
  {
    hide Slot, Window, Count, Bump;
    var p := s.pcs[t := Done];
    Tally(s.pcs, t, Done);
    if woken == NOBODY {
      CountSome(s.pcs, SleepsTake);
    } else {
      Tally(p, woken, WokenTake);
    }
  }

  lemma DequeueKeeps(s: State, t: nat, woken: int)
    requires Inv(s) && Enabled(s, Dequeue(t, woken))
    ensures NoneMissed(After(s, Dequeue(t, woken)))
  {
    hide Slot, Window, Count, Bump;
    var p := s.pcs[t := Done];
    Tally(s.pcs, t, Done);
    if woken == NOBODY {
      CountSome(s.pcs, SleepsPut);
    } else {
      Tally(p, woken, Awake(p[woken]));
    }
  }

  /** Every step keeps the invariant. */
  lemma StepSafe(s: State, a: Act)
    requires Inv(s) && Enabled(s, a)
    ensures Inv(After(s, a))
  {
    hide Ledger, NoneMissed, Mutex, After;
    LedgerKept(s, a);
    match a {
      case Enqueue(t, woken) => EnqueueKeeps(s, t, woken);
      case Dequeue(t, woken) => DequeueKeeps(s, t, woken);
      case _ => MoveKeeps(s, a);
    }
    MutexKept(s, a, a.t);
    forall u | 0 <= u < |After(s, a).pcs| ensures Mutex(After(s, a), u) { MutexKept(s, a, u); }
  }

  predicate Legal(s: State, acts: seq<Act>)
    decreases |acts|
  {
    acts == [] || (Enabled(s, acts[0]) && Legal(After(s, acts[0]), acts[1..]))
  }

  function Exec(s: State, acts: seq<Act>): State
    requires Legal(s, acts)
    decreases |acts|
  {
    if acts == [] then s else Exec(After(s, acts[0]), acts[1..])
  }

  lemma {:induction false} ExecSafe(s: State, acts: seq<Act>)
    requires Inv(s) && Legal(s, acts)
    ensures Inv(Exec(s, acts))
    decreases |acts|
  {
    hide Inv, After, Enabled;
    if acts != [] {
      StepSafe(s, acts[0]);
      ExecSafe(After(s, acts[0]), acts[1..]);
    }
  }

  lemma AfterSize(s: State, a: Act)
    requires Enabled(s, a)
    ensures |After(s, a).datas| == |s.datas|
  {
  }

  lemma {:induction false} ExecSize(s: State, acts: seq<Act>)
    requires Legal(s, acts)
    ensures |Exec(s, acts).datas| == |s.datas|
    decreases |acts|
  {
    hide After, Enabled;
    if acts != [] {
      AfterSize(s, acts[0]);
      ExecSize(After(s, acts[0]), acts[1..]);
    }
  }

  lemma InitSafe(capacity: nat, threads: nat)
    requires capacity > 0
    ensures Inv(Init(capacity, threads))
  {
    CountSome(Init(capacity, threads).pcs, SleepsPut);
    CountSome(Init(capacity, threads).pcs, SleepsTake);
  }

  /** In every run values come out in the order they went in, and no wake-up is missed: a sleeping consumer implies
      that every value in the queue has a consumer about to look, a sleeping producer the same for room, and
      producers and consumers never sleep at once with nobody about to look. */
  lemma FifoAndLive(capacity: nat, threads: nat, acts: seq<Act>)
    requires capacity > 0 && Legal(Init(capacity, threads), acts)
    ensures var s := Exec(Init(capacity, threads), acts);
      && |s.datas| == capacity && s.takes <= s.puts && s.cnt == |s.puts| - |s.takes| <= capacity
      && ((exists t :: 0 <= t < |s.pcs| && s.pcs[t].SleepTake?) ==> s.cnt <= Count(s.pcs, RunsTake))
      && ((exists t :: 0 <= t < |s.pcs| && s.pcs[t].SleepPut?) ==> capacity - s.cnt <= Count(s.pcs, RunsPut))
      && ((exists t :: 0 <= t < |s.pcs| && s.pcs[t].SleepTake?) && (exists t :: 0 <= t < |s.pcs| && s.pcs[t].SleepPut?)
          ==> exists t :: 0 <= t < |s.pcs| && (RunsPut(s.pcs[t]) || RunsTake(s.pcs[t])))
  {
    hide Exec, Legal, Slot, Window, Count;
    InitSafe(capacity, threads);
    ExecSafe(Init(capacity, threads), acts);
    ExecSize(Init(capacity, threads), acts);
    var s := Exec(Init(capacity, threads), acts);
    CountSome(s.pcs, SleepsTake);
    CountSome(s.pcs, SleepsPut);
    CountSome(s.pcs, RunsTake);
    CountSome(s.pcs, RunsPut);
  }

  // ------------------------------------------------------------------------- when everybody is stuck

  /** A step of a call under way; it is not a new call and not a wait that ends by itself. */
  predicate Ordinary(a: Act) { a.Lock? || a.Wait? || a.Enqueue? || a.Dequeue? || a.Unlock? }

  ghost predicate SomeoneMoves(s: State) { exists a :: Ordinary(a) && Enabled(s, a) }

  /** `notify_one` always has somebody to wake, or nobody. */
  lemma Notified(s: State, sleeps: Pc -> bool) returns (woken: int)
    ensures Notifies(s, woken, sleeps)
  {
    if u :| 0 <= u < |s.pcs| && sleeps(s.pcs[u]) {
      woken := u;
    } else {
      woken := NOBODY;
    }
  }

  lemma HolderMoves(s: State)
    requires Inv(s) && s.holder != NOBODY
    ensures SomeoneMoves(s)
  {
    hide Slot, Window, NoneMissed, Notifies;
    var t := s.holder;
    assert Mutex(s, t);
    if s.pcs[t].Done? {
      assert Enabled(s, Unlock(t));
    } else if (s.pcs[t].InPut? && s.cnt == |s.datas|) || (s.pcs[t].InTake? && s.cnt == 0) {
      assert Enabled(s, Wait(t));
    } else if s.pcs[t].InPut? {
      var woken := Notified(s, SleepsTake);
      assert Enabled(s, Enqueue(t, woken));
    } else {
      var woken := Notified(s, SleepsPut);
      assert Enabled(s, Dequeue(t, woken));
    }
  }

  /** No call of the thread is under way, or it is a take that sleeps on an empty queue or a put that sleeps on a full one. */
  predicate AtRest(s: State, t: nat)
    requires t < |s.pcs|
  {
    var pc := s.pcs[t];
    pc.Idle? || (pc.SleepTake? && s.cnt == 0) || (pc.SleepPut? && s.cnt == |s.datas|)
  }

  /** In every run, no call under way can take a step if and only if every thread is at rest. */
  lemma StuckExactly(capacity: nat, threads: nat, acts: seq<Act>)
    requires capacity > 0 && Legal(Init(capacity, threads), acts)
    ensures var s := Exec(Init(capacity, threads), acts);
      !SomeoneMoves(s) <==> forall t :: 0 <= t < |s.pcs| ==> AtRest(s, t)
  {
    hide Exec, Legal, Slot, Window, Count;
    InitSafe(capacity, threads);
    ExecSafe(Init(capacity, threads), acts);
    var s := Exec(Init(capacity, threads), acts);
    if !SomeoneMoves(s) {
      StuckRests(s);
    } else {
      var a :| Ordinary(a) && Enabled(s, a);
      assert !AtRest(s, a.t);
    }
  }

  lemma StuckRests(s: State)
    requires Inv(s) && !SomeoneMoves(s)
    ensures forall t :: 0 <= t < |s.pcs| ==> AtRest(s, t)
  {
    hide Slot, Window, Count;
    if s.holder != NOBODY {
      HolderMoves(s);
    }
    forall u | 0 <= u < |s.pcs| ensures s.pcs[u].Idle? || s.pcs[u].SleepTake? || s.pcs[u].SleepPut? {
      assert Mutex(s, u) && !Enabled(s, Lock(u));
    }
    CountSome(s.pcs, SleepsTake);
    CountSome(s.pcs, SleepsPut);
    CountSome(s.pcs, RunsTake);
    CountSome(s.pcs, RunsPut);
  }
}
