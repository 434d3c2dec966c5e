/** `muggle/c/sync/channel.c`: any number of writers and one reader, as steps under sequential consistency.
    The cursors are 32-bit words that wrap. The three write functions share their body; the write lock is
    modelled as the word `write_futex`, taken by a compare-exchange. The source uses the weak exchange and leaves its
    loop on any failure that still shows the lock free, so under `weak` a writer may enter without having locked. */
module Channel {
  import opened Ring

  type Data = int

  const WORD: nat := 0x1_0000_0000

  /** `Storing` wrote its block, `Stored` moved the cursor, `Waking` released the lock and is about to wake the reader. */
  datatype Writer =
    | Resting
    | Wanting(data: Data)
    | Inside(data: Data)
    | Refused
    | Admitted(data: Data)
    | Storing(data: Data)
    | Stored
    | Waking

  /** `Waiting` has seen cursor `seen` and is about to wait; `Asleep` sleeps in the kernel. */
  datatype Reader = Away | Looking | Ready | Holding(data: Data) | Waiting(seen: nat) | Asleep

  /** `w`, `r` and `locked` are the fields of the channel; `accepted` and `taken` are the values written and read so far. */
  datatype State = State(
    blocks: seq<Data>, w: nat, r: nat, locked: bool, writers: seq<Writer>, reader: Reader,
    accepted: seq<Data>, taken: seq<Data>)

  datatype Act =
    | Begin(t: nat, data: Data)
    | Acquire(t: nat, spurious: bool)
    | CheckFull(t: nat)
    | Fill(t: nat)
    | Store(t: nat)
    | Release(t: nat)
    | Wake(t: nat)
    | Call
    | Look
    | LoadBlock
    | Advance
    | FutexWait
    | SpuriousWake

  function Init(capacity: nat, writers: nat): State
    requires capacity > 0
  {
    State(seq(capacity, _ => 0), 0, capacity - 1, false, seq(writers, _ => Resting), Away, [], [])
  }

  predicate Enabled(s: State, a: Act) {
    && |s.blocks| > 0
    && match a
       case Begin(t, _) => t < |s.writers| && s.writers[t].Resting?
       case Acquire(t, _) => t < |s.writers| && s.writers[t].Wanting? && !s.locked
       case CheckFull(t) => t < |s.writers| && s.writers[t].Inside?
       case Fill(t) => t < |s.writers| && s.writers[t].Admitted?
       case Store(t) => t < |s.writers| && s.writers[t].Storing?
       case Release(t) => t < |s.writers| && (s.writers[t].Stored? || s.writers[t].Refused?)
       case Wake(t) => t < |s.writers| && s.writers[t].Waking?
       case Call => s.reader.Away?
       case Look => s.reader.Looking?
       case LoadBlock => s.reader.Ready?
       case Advance => s.reader.Holding?
       case FutexWait => s.reader.Waiting?
       case SpuriousWake => s.reader.Asleep?
  }

  function Inc(x: nat): nat { (x + 1) % WORD }

  function Goto(s: State, t: nat, w: Writer): State
    requires t < |s.writers|
  {
    s.(writers := s.writers[t := w])
  }

  function After(s: State, a: Act): State
    requires Enabled(s, a)
  {
    var cap := |s.blocks|;
    match a
    case Begin(t, data) => Goto(s, t, Wanting(data))
    case Acquire(t, spurious) => Goto(s, t, Inside(s.writers[t].data)).(locked := !spurious)
    case CheckFull(t) => Goto(s, t, if Inc(s.w) == s.r then Refused else Admitted(s.writers[t].data))
    case Fill(t) =>
      Goto(s, t, Storing(s.writers[t].data)).(blocks := s.blocks[Slot(s.w, cap) := s.writers[t].data])
    case Store(t) => Goto(s, t, Stored).(w := Inc(s.w), accepted := s.accepted + [s.writers[t].data])
    case Release(t) => Goto(s, t, if s.writers[t].Stored? then Waking else Resting).(locked := false)
    case Wake(t) => Goto(s, t, Resting).(reader := if s.reader.Asleep? then Looking else s.reader)
    case Call => s.(reader := Looking)
    case Look => s.(reader := if Slot(s.w, cap) != Slot(Inc(s.r), cap) then Ready else Waiting(s.w))
    case LoadBlock => s.(reader := Holding(s.blocks[Slot(Inc(s.r), cap)]))
    case Advance => s.(r := Inc(s.r), reader := Away, taken := s.taken + [s.reader.data])
    case FutexWait => s.(reader := if s.w == s.reader.seen then Asleep else Looking)
    case SpuriousWake => s.(reader := Looking)
  }

  predicate Critical(w: Writer) { w.Inside? || w.Refused? || w.Admitted? || w.Storing? || w.Stored? }

  /** The cursors are the two counts, wrapped; what is written and not yet read is in its slots. */
  predicate Ledger(s: State) {
    && 2 <= |s.blocks| <= WORD && WORD % |s.blocks| == 0
    && |s.taken| <= |s.accepted| <= |s.taken| + |s.blocks| - 2
    && s.w == |s.accepted| % WORD && s.r == (|s.taken| + |s.blocks| - 1) % WORD
    && s.taken == s.accepted[..|s.taken|]
    && Window(s.blocks, |s.taken|, |s.accepted|) == s.accepted[|s.taken|..]
  }

  predicate Filling(w: Writer) { w.Admitted? || w.Storing? }

  predicate WriterOk(s: State, t: nat)
    requires t < |s.writers| && |s.blocks| > 0
  {
    && (Filling(s.writers[t]) ==> |s.accepted| + 2 < |s.taken| + |s.blocks|)
    && (s.writers[t].Storing? ==> s.blocks[Slot(|s.accepted|, |s.blocks|)] == s.writers[t].data)
  }

  /** A writer inside holds the lock, and is the only one inside. */
  predicate Alone(s: State, t: nat, u: nat)
    requires t < |s.writers| && u < |s.writers|
  {
    Critical(s.writers[t]) ==> s.locked && (t != u ==> !Critical(s.writers[u]))
  }

  /** What keeps two writers apart: the lock, or that there is no second writer, or that there is nothing to fill. */
  ghost predicate Guarded(s: State, weak: bool) {
    if weak then |s.writers| <= 1 || |s.blocks| == 2
    else forall t, u :: 0 <= t < |s.writers| && 0 <= u < |s.writers| ==> Alone(s, t, u)
  }

  /** Some writer has moved the cursor and not yet woken the reader. */
  ghost predicate WakePending(s: State) {
    exists t :: 0 <= t < |s.writers| && (s.writers[t].Stored? || s.writers[t].Waking?)
  }

  ghost predicate ReaderOk(s: State) {
    match s.reader
    case Ready => |s.taken| < |s.accepted|
    case Holding(data) => |s.taken| < |s.accepted| && data == s.accepted[|s.taken|]
    case Waiting(seen) => seen == |s.taken| % WORD
    case Asleep => |s.taken| < |s.accepted| ==> WakePending(s)
    case _ => true
  }

  ghost predicate Inv(s: State, weak: bool) {
    && Ledger(s) && ReaderOk(s) && Guarded(s, weak)
    && (forall t :: 0 <= t < |s.writers| ==> WriterOk(s, t))
  }

  /** Only the weak exchange fails while the lock is free. */
  predicate Allowed(a: Act, weak: bool) { a.Acquire? && a.spurious ==> weak }

  lemma OneFilling(s: State, weak: bool, t: nat, u: nat)
    requires Inv(s, weak) && t < |s.writers| && u < |s.writers| && Filling(s.writers[t]) && Filling(s.writers[u])
    ensures t == u
  {
    hide Slot, Window;
    assert WriterOk(s, t);
    if !weak {
      assert Alone(s, t, u);
    }
  }

  lemma WrapInc(x: nat)
    ensures Inc(x % WORD) == (x + 1) % WORD
  {
  }

  /** Counts less than a word apart wrap to different words. */
  lemma WrapApart(a: nat, b: nat)
    requires a <= b < a + WORD
    ensures a % WORD == b % WORD <==> a == b
  {
  }

  lemma SlotOfWord(a: nat, cap: nat)
    requires 0 < cap && WORD % cap == 0
    ensures Slot(a % WORD, cap) == Slot(a, cap)
  {
    var m := WORD / cap;
    assert WORD == cap * m;
    SlotWrap(a, cap, m);
  }

  /** The reader's position `read_cursor + 1` is the slot of the next value to read. */
  lemma ReadSlot(s: State)
    requires Ledger(s)
    ensures Slot(Inc(s.r), |s.blocks|) == Slot(|s.taken|, |s.blocks|)
    ensures Slot(s.w, |s.blocks|) == Slot(|s.accepted|, |s.blocks|)
  {
    hide Slot, Window;
    WrapInc(|s.taken| + |s.blocks| - 1);
    SlotOfWord(|s.taken| + |s.blocks|, |s.blocks|);
    SlotTurn(|s.taken|, |s.blocks|);
    SlotOfWord(|s.accepted|, |s.blocks|);
  }

  /** The emptiness test of the reader is exact. */
  lemma EmptyTest(s: State)
    requires Ledger(s)
    ensures Slot(s.w, |s.blocks|) == Slot(Inc(s.r), |s.blocks|) <==> |s.accepted| == |s.taken|
  {
    hide Slot, Window;
    ReadSlot(s);
    if |s.taken| < |s.accepted| {
      SlotApart(|s.taken|, |s.accepted|, |s.blocks|);
    }
  }

  /** The fullness test of the writers is exact: `capacity - 2` values are in the channel. */
  lemma FullTest(s: State)
    requires Ledger(s)
    ensures Inc(s.w) == s.r <==> |s.accepted| + 2 == |s.taken| + |s.blocks|
  {
    hide Slot, Window;
    WrapInc(|s.accepted|);
    WrapApart(|s.accepted| + 1, |s.taken| + |s.blocks| - 1);
  }

  /** A write is refused exactly if `capacity - 2` values are in the channel, and is admitted with its own value otherwise. */
  lemma RefusedExactly(s: State, t: nat)
    requires Ledger(s) && Enabled(s, CheckFull(t))
    ensures var w := After(s, CheckFull(t)).writers[t];
      if |s.accepted| + 2 == |s.taken| + |s.blocks| then w.Refused? else w == Admitted(s.writers[t].data)
  {
    hide Slot, Window;
    FullTest(s);
  }

  /** The reader goes on to load exactly if a value is waiting. */
  lemma ReadyExactly(s: State)
    requires Ledger(s) && Enabled(s, Look)
    ensures var r := After(s, Look).reader;
      if |s.taken| < |s.accepted| then r.Ready? else r == Waiting(s.w)
  {
    hide Slot, Window;
    EmptyTest(s);
  }

  /** The reader sleeps exactly if still nothing has come. */
  lemma AsleepExactly(s: State)
    requires Ledger(s) && ReaderOk(s) && Enabled(s, FutexWait)
    ensures var r := After(s, FutexWait).reader;
      if |s.taken| == |s.accepted| then r.Asleep? else r.Looking?
  {
    hide Slot, Window;
    WrapApart(|s.taken|, |s.accepted|);
  }

  lemma LedgerKept(s: State, weak: bool, a: Act)
    requires Inv(s, weak) && Enabled(s, a) && Allowed(a, weak)
    ensures Ledger(After(s, a))
  {
    hide Slot, Window, Alone;
    match a
    case Fill(t) =>
      assert WriterOk(s, t);
      ReadSlot(s);
      WindowPush(s.blocks, |s.taken|, |s.accepted|, s.writers[t].data);
    case Store(t) =>
      assert WriterOk(s, t);
      StoreGrows(s, t);
      WrapInc(|s.accepted|);
    case Advance =>
      WindowPop(s.blocks, |s.taken|, |s.accepted|);
      WrapInc(|s.taken| + |s.blocks| - 1);
    case _ =>
  }

  lemma StoreGrows(s: State, t: nat)
    requires Ledger(s) && t < |s.writers| && WriterOk(s, t) && s.writers[t].Storing?
    ensures var all := s.accepted + [s.writers[t].data];
      Window(s.blocks, |s.taken|, |s.accepted| + 1) == all[|s.taken|..] && s.taken == all[..|s.taken|]
  {
    hide Slot;
  }

  lemma WriterKept(s: State, weak: bool, a: Act, u: nat)
    requires Inv(s, weak) && Enabled(s, a) && Allowed(a, weak) && u < |s.writers|
    ensures WriterOk(After(s, a), u)
  {
    hide Slot, Window;
    assert WriterOk(s, u);
    match a
    case CheckFull(t) =>
      FullTest(s);
    case Fill(t) =>
      if Filling(s.writers[u]) {
        OneFilling(s, weak, t, u);
      }
      ReadSlot(s);
    case Store(t) =>
      if Filling(s.writers[u]) {
        OneFilling(s, weak, t, u);
      }
    case _ =>
  }

  lemma AloneKept(s: State, a: Act, t: nat, u: nat)
    requires Inv(s, false) && Enabled(s, a) && Allowed(a, false) && t < |s.writers| && u < |s.writers|
    ensures Alone(After(s, a), t, u)
  {
    hide Slot, Window, Ledger;
    assert Alone(s, t, u) && Alone(s, u, t);
    if a.Release? {
      assert Alone(s, a.t, t);
    }
  }

  lemma GuardedKept(s: State, weak: bool, a: Act)
    requires Inv(s, weak) && Enabled(s, a) && Allowed(a, weak)
    ensures Guarded(After(s, a), weak)
  {
    hide Ledger, ReaderOk, WriterOk, Alone, After;
    SameWriters(s, a);
    if !weak {
      forall t, u | 0 <= t < |s.writers| && 0 <= u < |s.writers| ensures Alone(After(s, a), t, u) {
        AloneKept(s, a, t, u);
      }
    }
  }

  lemma ReaderKept(s: State, weak: bool, a: Act)
    requires Inv(s, weak) && Enabled(s, a) && Allowed(a, weak)
    ensures ReaderOk(After(s, a))
  {
    hide Slot, Window, Alone;
    var s' := After(s, a);
    EmptyTest(s);
    match a
    case Store(t) =>
      assert s'.writers[t].Stored?;
    case Release(t) =>
      if s.reader.Asleep? {
        PendingKept(s, a);
      }
    case LoadBlock =>
      LoadsNext(s);
    case FutexWait =>
      WrapApart(|s.taken|, |s.accepted|);
    case _ =>
      if s.reader.Asleep? && s'.reader.Asleep? {
        PendingKept(s, a);
      }
  }

  /** Between the check and the load the block still holds the next value. */
  lemma LoadsNext(s: State)
    requires Ledger(s) && |s.taken| < |s.accepted|
    ensures s.blocks[Slot(Inc(s.r), |s.blocks|)] == s.accepted[|s.taken|]
  {
    hide Slot;
    ReadSlot(s);
    assert Window(s.blocks, |s.taken|, |s.accepted|)[0] == s.accepted[|s.taken|..][0];
  }

  /** A pending wake-up stays pending until it is delivered. */
  lemma PendingKept(s: State, a: Act)
    requires Enabled(s, a) && !a.Wake?
    ensures WakePending(s) ==> WakePending(After(s, a))
  {
    hide Slot;
    if t :| 0 <= t < |s.writers| && (s.writers[t].Stored? || s.writers[t].Waking?) {
      assert After(s, a).writers[t].Stored? || After(s, a).writers[t].Waking?;
    }
  }

  lemma SameWriters(s: State, a: Act)
    requires Enabled(s, a)
    ensures |After(s, a).writers| == |s.writers| && |After(s, a).blocks| == |s.blocks|
  {
  }

  /** Every step of every thread keeps the invariant. */
  lemma StepSafe(s: State, weak: bool, a: Act)
    requires Inv(s, weak) && Enabled(s, a) && Allowed(a, weak)
    ensures Inv(After(s, a), weak)
  {
    hide Ledger, ReaderOk, WriterOk, Guarded, After;
    SameWriters(s, a);
    LedgerKept(s, weak, a);
    ReaderKept(s, weak, a);
    GuardedKept(s, weak, a);
    forall t | 0 <= t < |s.writers| ensures WriterOk(After(s, a), t) { WriterKept(s, weak, a, t); }
  }

  /** A run of steps from `s`, with the weak exchange or with a strong one. */
  predicate Legal(s: State, weak: bool, acts: seq<Act>)
    decreases |acts|
  {
    acts == [] || (Enabled(s, acts[0]) && Allowed(acts[0], weak) && Legal(After(s, acts[0]), weak, acts[1..]))
  }

  function Exec(s: State, weak: bool, acts: seq<Act>): State
    requires Legal(s, weak, acts)
    decreases |acts|
  {
    if acts == [] then s else Exec(After(s, acts[0]), weak, acts[1..])
  }

  lemma {:induction false} ExecSafe(s: State, weak: bool, acts: seq<Act>)
    requires Inv(s, weak) && Legal(s, weak, acts)
    ensures Inv(Exec(s, weak, acts), weak)
    decreases |acts|
  {
    hide Inv, After, Enabled;
    if acts != [] {
      StepSafe(s, weak, acts[0]);
      ExecSafe(After(s, acts[0]), weak, acts[1..]);
    }
  }

  /** When nothing can come between two writers. */
  predicate Safe(k: nat, writers: nat, weak: bool) { weak ==> k == 1 || writers <= 1 }

  lemma InitSafe(k: nat, writers: nat, weak: bool)
    requires 1 <= k <= 31 && Safe(k, writers, weak)
    ensures 2 <= Pow2(k) && Inv(Init(Pow2(k), writers), weak)
  {
    PowDividesWord(k);
    assert Pow2(k) == 2 * Pow2(k - 1);
  }

  /** In every run, for every capacity of at least two, while the writers are kept apart: the values read are the first
      values accepted, at most `capacity - 2` are in between, and a sleeping reader with a value to read has a wake-up on
      its way. */
  lemma ReaderGetsPrefix(k: nat, writers: nat, weak: bool, acts: seq<Act>)
    requires 1 <= k <= 31 && Safe(k, writers, weak) && Legal(Init(Pow2(k), writers), weak, acts)
    ensures var s := Exec(Init(Pow2(k), writers), weak, acts);
      && s.taken <= s.accepted && |s.accepted| - |s.taken| <= Pow2(k) - 2
      && (s.reader.Asleep? && |s.taken| < |s.accepted| ==> WakePending(s))
  {
    hide Exec, Legal, Pow2, Window;
    InitSafe(k, writers, weak);
    ExecSafe(Init(Pow2(k), writers), weak, acts);
    ExecSize(Init(Pow2(k), writers), weak, acts);
  }

  lemma {:induction false} ExecSize(s: State, weak: bool, acts: seq<Act>)
    requires Legal(s, weak, acts)
    ensures |Exec(s, weak, acts).blocks| == |s.blocks|
    decreases |acts|
  {
    hide After, Enabled;
    if acts != [] {
      SameWriters(s, acts[0]);
      ExecSize(After(s, acts[0]), weak, acts[1..]);
    }
  }

  /** In every run in which the writers are kept apart, a write is refused exactly if all but two blocks are unread. */
  lemma RunRefuses(k: nat, writers: nat, weak: bool, acts: seq<Act>, t: nat)
    requires 1 <= k <= 31 && Safe(k, writers, weak) && Legal(Init(Pow2(k), writers), weak, acts)
    requires Enabled(Exec(Init(Pow2(k), writers), weak, acts), CheckFull(t))
    ensures var s := Exec(Init(Pow2(k), writers), weak, acts);
      After(s, CheckFull(t)).writers[t].Refused? <==> |s.accepted| - |s.taken| == Pow2(k) - 2
  {
    hide Exec, Legal, Pow2, Ledger, ReaderOk, WriterOk, Guarded, After, Enabled;
    InitSafe(k, writers, weak);
    ExecSafe(Init(Pow2(k), writers), weak, acts);
    ExecSize(Init(Pow2(k), writers), weak, acts);
    RefusedExactly(Exec(Init(Pow2(k), writers), weak, acts), t);
  }

  // ------------------------------------------------------------------------- the lock is given back

  /** The lock is taken only while some writer is inside. */
  ghost predicate Held(s: State) {
    s.locked ==> exists t :: 0 <= t < |s.writers| && Critical(s.writers[t])
  }

  lemma HeldKept(s: State, a: Act)
    requires Held(s) && Enabled(s, a)
    ensures Held(After(s, a))
  {
    hide Slot;
    var s' := After(s, a);
    if s'.locked {
      if a.Acquire? {
        assert Critical(s'.writers[a.t]);
      } else {
        var t :| 0 <= t < |s.writers| && Critical(s.writers[t]);
        assert Critical(s'.writers[t]);
      }
    }
  }

  lemma {:induction false} ExecHeld(s: State, weak: bool, acts: seq<Act>)
    requires Held(s) && Legal(s, weak, acts)
    ensures Held(Exec(s, weak, acts))
    decreases |acts|
  {
    hide Held, After, Enabled;
    if acts != [] {
      HeldKept(s, acts[0]);
      ExecHeld(After(s, acts[0]), weak, acts[1..]);
    }
  }

  /** The next step of a call of `muggle_channel_write`. */
  function NextStep(t: nat, w: Writer): Act
    requires !w.Resting?
  {
    match w
    case Wanting(_) => Acquire(t, false)
    case Inside(_) => CheckFull(t)
    case Admitted(_) => Fill(t)
    case Storing(_) => Store(t)
    case Stored => Release(t)
    case Refused => Release(t)
    case Waking => Wake(t)
  }

  ghost predicate SomeoneMoves(s: State) {
    exists t :: 0 <= t < |s.writers| && !s.writers[t].Resting? && Enabled(s, NextStep(t, s.writers[t]))
  }

  /** In every run, with either exchange, while some call to write is unfinished some such call can take its next step. */
  lemma WritersGoOn(k: nat, writers: nat, weak: bool, acts: seq<Act>, t: nat)
    requires k <= 31 && Legal(Init(Pow2(k), writers), weak, acts)
    requires var s := Exec(Init(Pow2(k), writers), weak, acts); t < |s.writers| && !s.writers[t].Resting?
    ensures SomeoneMoves(Exec(Init(Pow2(k), writers), weak, acts))
  {
    hide Exec, Legal, Pow2;
    var s := Exec(Init(Pow2(k), writers), weak, acts);
    ExecHeld(Init(Pow2(k), writers), weak, acts);
    ExecSize(Init(Pow2(k), writers), weak, acts);
    if s.writers[t].Wanting? && s.locked {
      var u :| 0 <= u < |s.writers| && Critical(s.writers[u]);
      assert Enabled(s, NextStep(u, s.writers[u]));
    } else {
      assert Enabled(s, NextStep(t, s.writers[t]));
    }
  }

  // ------------------------------------------------------------------------- runs that lose values

  lemma {:induction false} Append(s: State, weak: bool, a: seq<Act>, b: seq<Act>)
    requires Legal(s, weak, a) && Legal(Exec(s, weak, a), weak, b)
    ensures Legal(s, weak, a + b) && Exec(s, weak, a + b) == Exec(Exec(s, weak, a), weak, b)
    decreases |a|
  {
    hide After, Enabled;
    if a == [] {
      assert a + b == b;
    } else {
      Append(After(s, a[0]), weak, a[1..], b);
      assert (a + b)[1..] == a[1..] + b;
    }
  }

  /** One more step at the end of a run. */
  lemma Then(s: State, weak: bool, acts: seq<Act>, a: Act)
    requires Legal(s, weak, acts) && Enabled(Exec(s, weak, acts), a) && Allowed(a, weak)
    ensures Legal(s, weak, acts + [a]) && Exec(s, weak, acts + [a]) == After(Exec(s, weak, acts), a)
  {
    hide After, Enabled;
    assert [a][1..] == [];
    Append(s, weak, acts, [a]);
  }

  predicate Quiet(s: State) {
    |s.blocks| == 1 && |s.writers| > 0 && s.writers[0] == Resting && !s.locked && Inc(s.w) != s.r
  }

  /** The run `acts` from `s` is continued by an undisturbed call of `muggle_channel_write` that is not refused. */
  lemma WriteOnce(s: State, acts: seq<Act>, d: Data) returns (more: seq<Act>)
    requires Legal(s, false, acts) && Quiet(Exec(s, false, acts))
    ensures Legal(s, false, more)
    ensures var s1, s2 := Exec(s, false, acts), Exec(s, false, more);
      && s2.accepted == s1.accepted + [d] && s2.taken == s1.taken && s2.w == Inc(s1.w) && s2.r == s1.r
      && |s2.blocks| == 1 && |s2.writers| > 0 && s2.writers[0] == Resting && !s2.locked
  {
    hide Legal, Exec;
    Then(s, false, acts, Begin(0, d));
    more := acts + [Begin(0, d)];
    Then(s, false, more, Acquire(0, false));
    more := more + [Acquire(0, false)];
    Then(s, false, more, CheckFull(0));
    more := more + [CheckFull(0)];
    Then(s, false, more, Fill(0));
    more := more + [Fill(0)];
    Then(s, false, more, Store(0));
    more := more + [Store(0)];
    Then(s, false, more, Release(0));
    more := more + [Release(0)];
    Then(s, false, more, Wake(0));
    more := more + [Wake(0)];
  }

  predicate NoneLost(s: State) { |s.accepted| <= |s.taken| + |s.blocks| }

  /** With a strong exchange, no run ever has more unread values than blocks if and only if the capacity is at least two. */
  lemma CapacityAtLeastTwo(k: nat)
    requires k <= 31
    ensures k >= 1 <==>
      forall acts, writers: nat ::
        Legal(Init(Pow2(k), writers), false, acts) ==> NoneLost(Exec(Init(Pow2(k), writers), false, acts))
  {
    hide Legal, Exec, After, Enabled;
    if k >= 1 {
      forall acts, writers: nat | Legal(Init(Pow2(k), writers), false, acts)
        ensures NoneLost(Exec(Init(Pow2(k), writers), false, acts))
      {
        ReaderGetsPrefix(k, writers, false, acts);
        ExecSize(Init(Pow2(k), writers), false, acts);
      }
    } else {
      var n: nat :| n == 1;
      Overrun(n);
    }
  }

  lemma NoSteps(s: State, weak: bool)
    ensures Legal(s, weak, []) && Exec(s, weak, []) == s
  {
  }

  lemma Overrun(n: nat)
    requires n > 0
    ensures exists acts :: Legal(Init(Pow2(0), n), false, acts) && !NoneLost(Exec(Init(Pow2(0), n), false, acts))
  {
    hide Legal, Exec, After, Enabled;
    var s := Init(Pow2(0), n);
    NoSteps(s, false);
    var a := WriteOnce(s, [], 1);
    var b := WriteOnce(s, a, 2);
    assert !NoneLost(Exec(s, false, b));
  }

  predicate InOrder(s: State) { s.taken <= s.accepted }

  /** Both writers are inside, have seen room and are about to fill the first slot. */
  predicate BothInside(s: State, capacity: nat) {
    && |s.blocks| == capacity && s.w == 0 && s.r == capacity - 1 && s.accepted == [] && s.taken == []
    && |s.writers| >= 2 && s.writers[0] == Admitted(1) && s.writers[1] == Admitted(2) && s.reader == Away
  }

  lemma ReachBothInside(capacity: nat, n: nat) returns (acts: seq<Act>)
    requires 4 <= capacity && n >= 2
    ensures Legal(Init(capacity, n), true, acts) && BothInside(Exec(Init(capacity, n), true, acts), capacity)
  {
    hide Legal, Exec;
    var s := Init(capacity, n);
    NoSteps(s, true);
    Then(s, true, [], Begin(0, 1));
    acts := [] + [Begin(0, 1)];
    Then(s, true, acts, Begin(1, 2));
    acts := acts + [Begin(1, 2)];
    Then(s, true, acts, Acquire(0, true));
    acts := acts + [Acquire(0, true)];
    Then(s, true, acts, Acquire(1, false));
    acts := acts + [Acquire(1, false)];
    Then(s, true, acts, CheckFull(0));
    acts := acts + [CheckFull(0)];
    Then(s, true, acts, CheckFull(1));
    acts := acts + [CheckFull(1)];
  }

  predicate Overwritten(s: State, capacity: nat) {
    && |s.blocks| == capacity > 0 && s.blocks[0] == 2 && s.w == 2 && s.r == capacity - 1
    && s.accepted == [1, 2] && s.taken == [] && s.reader == Away
  }

  /** The second writer fills the slot of the first. */
  lemma ReachOverwritten(s: State, acts: seq<Act>, capacity: nat) returns (more: seq<Act>)
    requires 4 <= capacity && Legal(s, true, acts) && BothInside(Exec(s, true, acts), capacity)
    ensures Legal(s, true, more) && Overwritten(Exec(s, true, more), capacity)
  {
    hide Legal, Exec;
    SlotBelow(0, capacity);
    Then(s, true, acts, Fill(0));
    more := acts + [Fill(0)];
    Then(s, true, more, Fill(1));
    more := more + [Fill(1)];
    Then(s, true, more, Store(0));
    more := more + [Store(0)];
    Then(s, true, more, Store(1));
    more := more + [Store(1)];
  }

  /** The reader takes the second value for the first. */
  lemma ReachDisorder(s: State, acts: seq<Act>, capacity: nat) returns (more: seq<Act>)
    requires 4 <= capacity < WORD && Legal(s, true, acts) && Overwritten(Exec(s, true, acts), capacity)
    ensures Legal(s, true, more) && !InOrder(Exec(s, true, more))
  {
    hide Legal, Exec, Slot;
    SlotBelow(2, capacity);
    SlotBelow(0, capacity);
    SlotTurn(0, capacity);
    Then(s, true, acts, Call);
    more := acts + [Call];
    Then(s, true, more, Look);
    more := more + [Look];
    Then(s, true, more, LoadBlock);
    more := more + [LoadBlock];
    Then(s, true, more, Advance);
    more := more + [Advance];
    var s' := Exec(s, true, more);
    assert s'.taken[0] != s'.accepted[0];
  }

  /** Every run delivers the accepted values in order if and only if the exchange is strong, or there is only one writer,
      or the capacity of two leaves no room for any value. */
  lemma InOrderExactly(k: nat, writers: nat, weak: bool)
    requires 1 <= k <= 31
    ensures Safe(k, writers, weak) <==>
      forall acts :: Legal(Init(Pow2(k), writers), weak, acts) ==> InOrder(Exec(Init(Pow2(k), writers), weak, acts))
  {
    hide Legal, Exec, After, Enabled, Pow2, BothInside, Overwritten;
    if Safe(k, writers, weak) {
      forall acts | Legal(Init(Pow2(k), writers), weak, acts)
        ensures InOrder(Exec(Init(Pow2(k), writers), weak, acts))
      {
        ReaderGetsPrefix(k, writers, weak, acts);
      }
    } else {
      RoomForTwo(k);
      var a := ReachBothInside(Pow2(k), writers);
      var b := ReachOverwritten(Init(Pow2(k), writers), a, Pow2(k));
      var c := ReachDisorder(Init(Pow2(k), writers), b, Pow2(k));
    }
  }

  lemma RoomForTwo(k: nat)
    requires 2 <= k <= 31
    ensures 4 <= Pow2(k) < WORD
  {
    assert Pow2(k) == 2 * Pow2(k - 1) && Pow2(k - 1) == 2 * Pow2(k - 2) && Pow2(32 - k) == 2 * Pow2(31 - k);
    hide Pow2;
    PowSplit(k, 32 - k);
    PowWords();
    MulSign(Pow2(32 - k) - 1, Pow2(k));
  }
}
