/** `muggle/c/sync/ring_buffer.c`, busy-loop writers with readers that see every message and with
    readers that share them, as steps of any number of threads under sequential consistency. Readers that find
    nothing wait on the cursor and writers wake them. */
module RingBuffer {
  import opened Ring
  import opened Threads

  type Msg = int

  /** A writer between taking a ticket and publishing it; `Waking` is about to wake the readers. */
  datatype Writer = Resting | Ticketed(idx: nat, msg: Msg) | Filled(idx: nat, msg: Msg) | Waking

  /** Where the loop of a read stands: `Ready` saw a message, `Waiting` saw cursor `seen` and none, `Asleep` is in the kernel. */
  datatype Look = Looking | Ready | Waiting(seen: nat) | Asleep(seen: nat)

  /** A reader of `muggle_ring_buffer_read(r, idx)` called with idx 0, 1, 2, ...; `got` is what came back. */
  datatype Reader = Reader(idx: nat, look: Look, got: seq<Msg>)

  /** A reader in read-once mode, outside or inside the read lock. */
  datatype Sharer = Outside | Inside(look: Look)

  /** `tickets[i]` is the message whose writer drew ticket `i`; `served` is what read-once readers got, in order. */
  datatype State = State(
    datas: seq<Msg>, next: nat, cursor: nat, writers: seq<Writer>, tickets: seq<Msg>, readers: seq<Reader>,
    readCursor: nat, holder: int, sharers: seq<Sharer>, served: seq<Msg>)

  const NOBODY := -1

  datatype Act =
    | Draw(t: nat, msg: Msg)
    | Fill(t: nat)
    | Publish(t: nat)
    | GiveUp(t: nat)
    | Wake(t: nat)
    | Check(t: nat)
    | Load(t: nat)
    | Wait(t: nat)
    | Rouse(t: nat)
    | LockRead(t: nat)
    | CheckShared(t: nat)
    | LoadShared(t: nat)
    | WaitShared(t: nat)
    | RouseShared(t: nat)

  predicate Paused(l: Look) { l.Waiting? || l.Asleep? }

  predicate Enabled(s: State, a: Act) {
    && |s.datas| > 0
    && match a
       case Draw(t, _) => t < |s.writers| && s.writers[t].Resting?
       case Fill(t) => t < |s.writers| && s.writers[t].Ticketed?
       case Publish(t) => t < |s.writers| && s.writers[t].Filled?
       case GiveUp(t) => t < |s.writers| && s.writers[t].Filled? && s.cursor == s.writers[t].idx
       case Wake(t) => t < |s.writers| && s.writers[t].Waking?
       case Check(t) => t < |s.readers| && s.readers[t].look.Looking?
       case Load(t) => t < |s.readers| && s.readers[t].look.Ready?
       case Wait(t) => t < |s.readers| && s.readers[t].look.Waiting?
       case Rouse(t) => t < |s.readers| && Paused(s.readers[t].look)
       case LockRead(t) => t < |s.sharers| && s.sharers[t].Outside? && s.holder == NOBODY
       case CheckShared(t) => t < |s.sharers| && s.sharers[t] == Inside(Looking)
       case LoadShared(t) => t < |s.sharers| && s.sharers[t] == Inside(Ready)
       case WaitShared(t) => t < |s.sharers| && s.sharers[t].Inside? && s.sharers[t].look.Waiting?
       case RouseShared(t) => t < |s.sharers| && s.sharers[t].Inside? && Paused(s.sharers[t].look)
  }

  /** The test of the read loop at position `pos`. */
  function Looked(s: State, pos: nat): Look
    requires |s.datas| > 0
  {
    if Slot(s.cursor, |s.datas|) != Slot(pos, |s.datas|) then Ready else Waiting(s.cursor)
  }

  /** `muggle_futex_wait` sleeps only while the cursor is still the one seen. */
  function Waited(s: State, l: Look): Look
    requires l.Waiting?
  {
    if s.cursor == l.seen then Asleep(l.seen) else Looking
  }

  function Awake(l: Look): Look { if l.Asleep? then Looking else l }

  function WakeReaders(rs: seq<Reader>): seq<Reader> {
    seq(|rs|, i requires 0 <= i < |rs| => rs[i].(look := Awake(rs[i].look)))
  }

  function WakeSharers(rs: seq<Sharer>): seq<Sharer> {
    seq(|rs|, i requires 0 <= i < |rs| => if rs[i].Inside? then Inside(Awake(rs[i].look)) else Outside)
  }

  function GotoReader(s: State, t: nat, l: Look): State
    requires t < |s.readers|
  {
    s.(readers := s.readers[t := s.readers[t].(look := l)])
  }

  function GotoSharer(s: State, t: nat, l: Look): State
    requires t < |s.sharers|
  {
    s.(sharers := s.sharers[t := Inside(l)])
  }

  function After(s: State, a: Act): State
    requires Enabled(s, a)
  {
    var cap := |s.datas|;
    match a
    case Draw(t, msg) =>
      s.(next := s.next + 1, tickets := s.tickets + [msg], writers := s.writers[t := Ticketed(s.next, msg)])
    case Fill(t) =>
      var w := s.writers[t];
      s.(datas := s.datas[Slot(w.idx, cap) := w.msg], writers := s.writers[t := Filled(w.idx, w.msg)])
    case Publish(t) =>
      if s.cursor == s.writers[t].idx then s.(cursor := s.cursor + 1, writers := s.writers[t := Waking]) else s
    case GiveUp(t) => s.(writers := s.writers[t := Waking])
    case Wake(t) =>
      s.(writers := s.writers[t := Resting], readers := WakeReaders(s.readers), sharers := WakeSharers(s.sharers))
    case Check(t) => GotoReader(s, t, Looked(s, s.readers[t].idx))
    case Load(t) =>
      var r := s.readers[t];
      s.(readers := s.readers[t := Reader(r.idx + 1, Looking, r.got + [s.datas[Slot(r.idx, cap)]])])
    case Wait(t) => GotoReader(s, t, Waited(s, s.readers[t].look))
    case Rouse(t) => GotoReader(s, t, Looking)
    case LockRead(t) => GotoSharer(s, t, Looking).(holder := t)
    case CheckShared(t) => GotoSharer(s, t, Looked(s, s.readCursor))
    case LoadShared(t) =>
      s.(served := s.served + [s.datas[Slot(s.readCursor, cap)]], readCursor := s.readCursor + 1,
         holder := NOBODY, sharers := s.sharers[t := Outside])
    case WaitShared(t) => GotoSharer(s, t, Waited(s, s.sharers[t].look))
    case RouseShared(t) => GotoSharer(s, t, Looking)
  }

  predicate Holding(w: Writer) { w.Ticketed? || w.Filled? }

  predicate WriterOk(s: State, t: nat)
    requires t < |s.writers| && |s.datas| > 0 && |s.tickets| == s.next
  {
    var w := s.writers[t];
    Holding(w) ==> s.cursor <= w.idx < s.next && w.msg == s.tickets[w.idx]
                   && (w.Filled? ==> s.datas[Slot(w.idx, |s.datas|)] == w.msg)
  }

  /** Ticket `i` is published and has not been overtaken by a whole turn: its own message is in its slot. */
  predicate SlotOk(s: State, i: nat)
    requires |s.datas| > 0 && |s.tickets| == s.next
  {
    i < s.cursor <= s.next <= i + |s.datas| ==> s.datas[Slot(i, |s.datas|)] == s.tickets[i]
  }

  ghost predicate AllSlotsOk(s: State) {
    |s.datas| > 0 && |s.tickets| == s.next && forall i: nat :: SlotOk(s, i)
  }

  predicate ReaderOk(s: State, t: nat)
    requires t < |s.readers| && |s.tickets| == s.next && s.cursor <= s.next
  {
    var r := s.readers[t];
    r.idx <= s.cursor && (r.look.Ready? ==> r.idx < s.cursor) && r.got == s.tickets[..r.idx]
  }

  predicate WritersApart(s: State, t: nat, u: nat)
    requires t < |s.writers| && u < |s.writers|
  {
    t != u && Holding(s.writers[t]) && Holding(s.writers[u]) ==> s.writers[t].idx != s.writers[u].idx
  }

  predicate SharerOk(s: State, t: nat)
    requires t < |s.sharers|
  {
    (s.sharers[t].Inside? <==> s.holder == t) && (s.sharers[t] == Inside(Ready) ==> s.readCursor < s.cursor)
  }

  predicate Shape(s: State) {
    && 0 < |s.datas| && |s.tickets| == s.next && s.cursor <= s.next <= s.cursor + |s.datas|
    && Count(s.writers, Holding) == s.next - s.cursor && |s.writers| <= |s.datas|
    && s.readCursor <= s.cursor && s.served == s.tickets[..s.readCursor]
  }

  ghost predicate Inv(s: State) {
    && Shape(s)
    && (forall t :: 0 <= t < |s.writers| ==> WriterOk(s, t))
    && (forall t, u :: 0 <= t < |s.writers| && 0 <= u < |s.writers| ==> WritersApart(s, t, u))
    && (forall i: nat :: SlotOk(s, i))
    && (forall t :: 0 <= t < |s.readers| ==> ReaderOk(s, t))
    && (forall t :: 0 <= t < |s.sharers| ==> SharerOk(s, t))
  }

  /** Under `weak` the compare-exchange of a writer may fail though the cursor is its ticket. Under `late` a reader may
      act when writers are a whole turn ahead of it. */
  datatype Rules = Rules(weak: bool, late: bool)

  const ORDERLY := Rules(false, false)

  predicate Allowed(s: State, a: Act, rules: Rules)
    requires Enabled(s, a)
  {
    match a
    case GiveUp(_) => rules.weak
    case Check(t) => rules.late || s.next <= s.readers[t].idx + |s.datas|
    case Load(t) => rules.late || s.next <= s.readers[t].idx + |s.datas|
    case CheckShared(_) => rules.late || s.next <= s.readCursor + |s.datas|
    case LoadShared(_) => rules.late || s.next <= s.readCursor + |s.datas|
    case _ => true
  }

  function Init(capacity: nat, writers: nat, readers: nat, sharers: nat): State
    requires capacity > 0
  {
    State(seq(capacity, _ => 0), 0, 0, seq(writers, _ => Resting), [], seq(readers, _ => Reader(0, Looking, [])),
          0, NOBODY, seq(sharers, _ => Outside), [])
  }

  lemma {:induction false} CountNone(ws: seq<Writer>)
    requires forall i :: 0 <= i < |ws| ==> ws[i].Resting?
    ensures Count(ws, Holding) == 0
  {
    CountSome(ws, Holding);
  }

  lemma InitSafe(capacity: nat, writers: nat, readers: nat, sharers: nat)
    requires capacity > 0 && writers <= capacity
    ensures Inv(Init(capacity, writers, readers, sharers))
  {
    CountNone(Init(capacity, writers, readers, sharers).writers);
  }

  lemma ShapeKept(s: State, a: Act)
    requires Inv(s) && Enabled(s, a) && Allowed(s, a, ORDERLY)
    ensures Shape(After(s, a))
  {
    hide Slot, Count;
    var s' := After(s, a);
    match a
    case Draw(t, msg) =>
      CountUpdate(s.writers, t, s'.writers[t], Holding);
      CountSome(s'.writers, Holding);
    case Fill(t) =>
      CountUpdate(s.writers, t, s'.writers[t], Holding);
    case Publish(t) =>
      CountUpdate(s.writers, t, Waking, Holding);
      assert WriterOk(s, t);
    case Wake(t) =>
      CountUpdate(s.writers, t, Resting, Holding);
    case LoadShared(t) =>
      assert SharerOk(s, t) && SlotOk(s, s.readCursor);
    case _ =>
  }

  /** Slots of tickets in play do not collide: tickets from `next - capacity` on are less than a turn apart. */
  lemma InPlayApart(s: State, i: nat, j: nat)
    requires |s.datas| > 0 && i < s.next <= i + |s.datas| && j < s.next <= j + |s.datas| && i != j
    ensures Slot(i, |s.datas|) != Slot(j, |s.datas|)
  {
    if i < j {
      SlotApart(i, j, |s.datas|);
    } else {
      SlotApart(j, i, |s.datas|);
    }
  }

  lemma WriterKept(s: State, a: Act, u: nat)
    requires Inv(s) && Enabled(s, a) && Allowed(s, a, ORDERLY) && u < |s.writers| && Shape(After(s, a))
    ensures WriterOk(After(s, a), u)
  {
    hide Slot, Count;
    assert WriterOk(s, u);
    if a.Fill? {
      assert WriterOk(s, a.t) && WritersApart(s, a.t, u);
      if u != a.t && Holding(s.writers[u]) {
        InPlayApart(s, s.writers[a.t].idx, s.writers[u].idx);
      }
    } else if a.Publish? {
      assert WritersApart(s, a.t, u);
    }
  }

  lemma SlotKept(s: State, a: Act, i: nat)
    requires Inv(s) && Enabled(s, a) && Allowed(s, a, ORDERLY) && Shape(After(s, a))
    ensures SlotOk(After(s, a), i)
  {
    hide Slot, Count;
    assert SlotOk(s, i);
    if a.Fill? || a.Publish? {
      assert WriterOk(s, a.t);
    }
    if a.Fill? && i < s.cursor && s.next <= i + |s.datas| {
      InPlayApart(s, s.writers[a.t].idx, i);
    }
  }

  lemma ApartKept(s: State, a: Act, t: nat, u: nat)
    requires Inv(s) && Enabled(s, a) && Allowed(s, a, ORDERLY) && t < |s.writers| && u < |s.writers|
    ensures WritersApart(After(s, a), t, u)
  {
    hide Slot, Count;
    assert WritersApart(s, t, u) && WriterOk(s, t) && WriterOk(s, u);
  }

  lemma ReaderKept(s: State, a: Act, u: nat)
    requires Inv(s) && Enabled(s, a) && Allowed(s, a, ORDERLY) && u < |s.readers| && Shape(After(s, a))
    ensures ReaderOk(After(s, a), u)
  {
    hide Slot, Count;
    assert ReaderOk(s, u);
    if a.Load? && a.t == u {
      assert SlotOk(s, s.readers[u].idx);
    }
  }

  lemma SharerKept(s: State, a: Act, u: nat)
    requires Inv(s) && Enabled(s, a) && Allowed(s, a, ORDERLY) && u < |s.sharers|
    ensures SharerOk(After(s, a), u)
  {
    hide Slot, Count;
    assert SharerOk(s, u);
    if a.LoadShared? || a.CheckShared? {
      assert SharerOk(s, a.t);
    }
  }

  lemma AfterSizes(s: State, a: Act)
    requires Enabled(s, a)
    ensures var s' := After(s, a);
      |s'.writers| == |s.writers| && |s'.readers| == |s.readers| && |s'.sharers| == |s.sharers| && |s'.datas| == |s.datas|
  {
  }

  /** Every step keeps the invariant. */
  lemma StepSafe(s: State, a: Act)
    requires Inv(s) && Enabled(s, a) && Allowed(s, a, ORDERLY)
    ensures Inv(After(s, a))
  {
    hide WriterOk, WritersApart, SlotOk, ReaderOk, SharerOk, After, Shape;
    var s' := After(s, a);
    AfterSizes(s, a);
    ShapeKept(s, a);
    ShapeBasics(s');
    forall t | 0 <= t < |s'.writers| ensures WriterOk(s', t) { WriterKept(s, a, t); }
    forall t, u | 0 <= t < |s'.writers| && 0 <= u < |s'.writers| ensures WritersApart(s', t, u) { ApartKept(s, a, t, u); }
    forall i: nat ensures SlotOk(s', i) { SlotKept(s, a, i); }
    forall t | 0 <= t < |s'.readers| ensures ReaderOk(s', t) { ReaderKept(s, a, t); }
    forall t | 0 <= t < |s'.sharers| ensures SharerOk(s', t) { SharerKept(s, a, t); }
  }

  lemma ShapeBasics(s: State)
    requires Shape(s)
    ensures |s.datas| > 0 && |s.tickets| == s.next && s.cursor <= s.next
  {
  }

  /** `acts` is a run from `s` under the rules. */
  predicate Legal(s: State, rules: Rules, acts: seq<Act>)
    decreases |acts|
  {
    acts == [] || (Enabled(s, acts[0]) && Allowed(s, acts[0], rules) && Legal(After(s, acts[0]), rules, acts[1..]))
  }

  function Exec(s: State, rules: Rules, acts: seq<Act>): State
    requires Legal(s, rules, acts)
    decreases |acts|
  {
    if acts == [] then s else Exec(After(s, acts[0]), rules, acts[1..])
  }

  lemma {:induction false} ExecSafe(s: State, acts: seq<Act>)
    requires Inv(s) && Legal(s, ORDERLY, acts)
    ensures Inv(Exec(s, ORDERLY, acts))
    decreases |acts|
  {
    hide Inv, After, Enabled, Allowed;
    if acts != [] {
      StepSafe(s, acts[0]);
      ExecSafe(After(s, acts[0]), acts[1..]);
    }
  }

  /** In every run with at most `capacity` writers every private reader has received exactly the first messages in
      ticket order, and so have the sharing readers together, each message going to one of them. */
  lemma ReadersSeeTicketOrder(capacity: nat, writers: nat, readers: nat, sharers: nat, acts: seq<Act>)
    requires 0 < capacity && writers <= capacity && Legal(Init(capacity, writers, readers, sharers), ORDERLY, acts)
    ensures var s := Exec(Init(capacity, writers, readers, sharers), ORDERLY, acts);
      && s.cursor <= s.next && AllSlotsOk(s)
      && (forall t :: 0 <= t < |s.readers| ==> s.readers[t].idx <= s.cursor && s.readers[t].got == s.tickets[..s.readers[t].idx])
      && s.readCursor <= s.cursor && s.served == s.tickets[..s.readCursor]
  {
    hide Exec, Legal, Slot;
    InitSafe(capacity, writers, readers, sharers);
    var s := Exec(Init(capacity, writers, readers, sharers), ORDERLY, acts);
    ExecSafe(Init(capacity, writers, readers, sharers), acts);
    forall t | 0 <= t < |s.readers| ensures s.readers[t].idx <= s.cursor && s.readers[t].got == s.tickets[..s.readers[t].idx] {
      assert ReaderOk(s, t);
    }
  }

  // ------------------------------------------------------------------------- what the test of a read sees

  /** The test succeeds exactly if the cursor is not a whole number of turns ahead of the position. */
  lemma LookedExactly(s: State, pos: nat)
    requires |s.datas| > 0 && pos <= s.cursor
    ensures Looked(s, pos) == if (s.cursor - pos) % |s.datas| == 0 then Waiting(s.cursor) else Ready
  {
    hide Slot;
    SlotsMeet(pos, s.cursor, |s.datas|);
  }

  /** Less than a turn ahead, the test succeeds exactly if there is a message; a full turn ahead, it sees none. */
  lemma LookedWithinTurn(s: State, pos: nat)
    requires |s.datas| > 0 && pos <= s.cursor <= pos + |s.datas|
    ensures Looked(s, pos).Ready? <==> pos < s.cursor < pos + |s.datas|
  {
    hide Slot, Looked;
    LookedExactly(s, pos);
    SlotBelow(s.cursor - pos, |s.datas|);
  }

  /** In every run a private reader that may look finds a message exactly if one is published and the ring is not full. */
  lemma CheckExactly(capacity: nat, writers: nat, readers: nat, sharers: nat, acts: seq<Act>, t: nat)
    requires 0 < capacity && writers <= capacity && Legal(Init(capacity, writers, readers, sharers), ORDERLY, acts)
    requires var s := Exec(Init(capacity, writers, readers, sharers), ORDERLY, acts);
      Enabled(s, Check(t)) && Allowed(s, Check(t), ORDERLY)
    ensures var s := Exec(Init(capacity, writers, readers, sharers), ORDERLY, acts);
      After(s, Check(t)).readers[t].look.Ready? <==> s.readers[t].idx < s.cursor < s.readers[t].idx + |s.datas|
  {
    hide Exec, Legal, Slot, Looked;
    InitSafe(capacity, writers, readers, sharers);
    var s := Exec(Init(capacity, writers, readers, sharers), ORDERLY, acts);
    ExecSafe(Init(capacity, writers, readers, sharers), acts);
    assert ReaderOk(s, t);
    LookedWithinTurn(s, s.readers[t].idx);
  }

  /** The same for the reader that holds the read lock. */
  lemma CheckSharedExactly(capacity: nat, writers: nat, readers: nat, sharers: nat, acts: seq<Act>, t: nat)
    requires 0 < capacity && writers <= capacity && Legal(Init(capacity, writers, readers, sharers), ORDERLY, acts)
    requires var s := Exec(Init(capacity, writers, readers, sharers), ORDERLY, acts);
      Enabled(s, CheckShared(t)) && Allowed(s, CheckShared(t), ORDERLY)
    ensures var s := Exec(Init(capacity, writers, readers, sharers), ORDERLY, acts);
      After(s, CheckShared(t)).sharers[t] == Inside(Ready) <==> s.readCursor < s.cursor < s.readCursor + |s.datas|
  {
    hide Exec, Legal, Slot, Looked;
    InitSafe(capacity, writers, readers, sharers);
    var s := Exec(Init(capacity, writers, readers, sharers), ORDERLY, acts);
    ExecSafe(Init(capacity, writers, readers, sharers), acts);
    LookedWithinTurn(s, s.readCursor);
  }

  // ------------------------------------------------------------------------- no wake-up is missed

  /** Some writer has published and not yet woken the readers. */
  ghost predicate WakePending(s: State) {
    exists t :: 0 <= t < |s.writers| && s.writers[t].Waking?
  }

  /** A read that waits at position `pos` saw nothing there; if the cursor moved while it slept, a wake-up is on its way. */
  ghost predicate LookOk(s: State, l: Look, pos: nat)
    requires |s.datas| > 0
  {
    && (Paused(l) ==> Slot(l.seen, |s.datas|) == Slot(pos, |s.datas|))
    && (l.Asleep? ==> s.cursor == l.seen || WakePending(s))
  }

  ghost predicate Watchful(s: State) {
    && |s.datas| > 0
    && (forall t :: 0 <= t < |s.readers| ==> LookOk(s, s.readers[t].look, s.readers[t].idx))
    && (forall t :: 0 <= t < |s.sharers| ==> (s.sharers[t].Inside? <==> s.holder == t))
    && (forall t :: 0 <= t < |s.sharers| && s.sharers[t].Inside? ==> LookOk(s, s.sharers[t].look, s.readCursor))
  }

  lemma PendingKept(s: State, a: Act)
    requires Enabled(s, a)
    ensures WakePending(s) && !a.Wake? ==> WakePending(After(s, a))
    ensures After(s, a).cursor != s.cursor ==> WakePending(After(s, a))
  {
    hide Slot;
    var s' := After(s, a);
    if s'.cursor != s.cursor {
      assert s'.writers[a.t].Waking?;
    }
    if t :| 0 <= t < |s.writers| && s.writers[t].Waking? && !a.Wake? {
      assert s'.writers[t].Waking?;
    }
  }

  /** A read that does not move keeps its account. */
  lemma LookKept(s: State, a: Act, l: Look, pos: nat)
    requires Enabled(s, a) && LookOk(s, l, pos) && (a.Wake? ==> !l.Asleep?)
    ensures |After(s, a).datas| == |s.datas| && LookOk(After(s, a), l, pos)
  {
    hide WakePending, Slot;
    AfterSizes(s, a);
    PendingKept(s, a);
  }

  lemma ReaderWatches(s: State, a: Act, u: nat)
    requires Watchful(s) && Enabled(s, a) && u < |s.readers|
    ensures var s' := After(s, a);
      |s'.readers| == |s.readers| && |s'.datas| > 0 && LookOk(s', s'.readers[u].look, s'.readers[u].idx)
  {
    hide Slot;
    AfterSizes(s, a);
    var l, pos := s.readers[u].look, s.readers[u].idx;
    if a.Wake? {
      LookKept(s, a, Awake(l), pos);
    } else {
      LookKept(s, a, l, pos);
    }
  }

  lemma SharerWatches(s: State, a: Act, u: nat)
    requires Watchful(s) && Enabled(s, a) && u < |s.sharers|
    ensures var s' := After(s, a);
      && |s'.sharers| == |s.sharers| && |s'.datas| > 0 && (s'.sharers[u].Inside? <==> s'.holder == u)
      && (s'.sharers[u].Inside? ==> LookOk(s', s'.sharers[u].look, s'.readCursor))
  {
    hide Slot;
    AfterSizes(s, a);
    if s.sharers[u].Inside? {
      var l, pos := s.sharers[u].look, s.readCursor;
      if a.Wake? {
        LookKept(s, a, Awake(l), pos);
      } else {
        LookKept(s, a, l, pos);
      }
    }
  }

  lemma StepWatches(s: State, a: Act)
    requires Watchful(s) && Enabled(s, a)
    ensures Watchful(After(s, a))
  {
    hide After, LookOk, Enabled;
    var s' := After(s, a);
    AfterSizes(s, a);
    forall t | 0 <= t < |s'.readers| ensures LookOk(s', s'.readers[t].look, s'.readers[t].idx) { ReaderWatches(s, a, t); }
    forall t | 0 <= t < |s'.sharers| ensures s'.sharers[t].Inside? <==> s'.holder == t { SharerWatches(s, a, t); }
    forall t | 0 <= t < |s'.sharers| && s'.sharers[t].Inside? ensures LookOk(s', s'.sharers[t].look, s'.readCursor) {
      SharerWatches(s, a, t);
    }
  }

  lemma {:induction false} ExecWatches(s: State, rules: Rules, acts: seq<Act>)
    requires Watchful(s) && Legal(s, rules, acts)
    ensures Watchful(Exec(s, rules, acts))
    decreases |acts|
  {
    hide Watchful, After, Enabled, Allowed;
    if acts != [] {
      StepWatches(s, acts[0]);
      ExecWatches(After(s, acts[0]), rules, acts[1..]);
    }
  }

  /** If the read sleeps and its test would now succeed, a wake-up is on its way. */
  ghost predicate Answered(s: State, l: Look, pos: nat)
    requires |s.datas| > 0
  {
    l.Asleep? && Looked(s, pos).Ready? ==> WakePending(s)
  }

  /** In every run, of however many writers and with however late readers: a sleeping reader whose test would now succeed
      has a wake-up on its way, in every read mode. At most one of the sharing readers sleeps, so waking one wakes all. */
  lemma NoLostWake(capacity: nat, writers: nat, readers: nat, sharers: nat, rules: Rules, acts: seq<Act>)
    requires 0 < capacity && Legal(Init(capacity, writers, readers, sharers), rules, acts)
    ensures var s := Exec(Init(capacity, writers, readers, sharers), rules, acts);
      && |s.datas| > 0
      && (forall t :: 0 <= t < |s.readers| ==> Answered(s, s.readers[t].look, s.readers[t].idx))
      && (forall t :: 0 <= t < |s.sharers| && s.sharers[t].Inside? ==> Answered(s, s.sharers[t].look, s.readCursor))
      && (forall t, u :: 0 <= t < |s.sharers| && 0 <= u < |s.sharers| && s.sharers[t].Inside? && s.sharers[u].Inside? ==> t == u)
  {
    hide Exec, Legal, Slot, WakePending;
    var s0 := Init(capacity, writers, readers, sharers);
    assert Watchful(s0);
    ExecWatches(s0, rules, acts);
  }

  // ------------------------------------------------------------------------- lost tickets

  /** Ticket `k` is drawn, unpublished and no writer holds it. */
  predicate Lost(s: State, k: nat) {
    s.cursor <= k < s.next && forall t :: 0 <= t < |s.writers| && Holding(s.writers[t]) ==> s.writers[t].idx != k
  }

  /** A weak compare-exchange that fails spuriously makes the writer return without publishing: its ticket is lost. */
  lemma SpuriousLoses(s: State, t: nat)
    requires Inv(s) && Enabled(s, GiveUp(t))
    ensures Lost(After(s, GiveUp(t)), s.cursor)
  {
    hide Slot, Count;
    assert WriterOk(s, t);
    forall u | 0 <= u < |s.writers| && u != t && Holding(s.writers[u]) ensures s.writers[u].idx != s.cursor {
      assert WritersApart(s, t, u);
    }
  }

  lemma LostStays(s: State, a: Act, k: nat)
    requires Enabled(s, a) && Lost(s, k)
    ensures Lost(After(s, a), k)
  {
    hide Slot;
    var s' := After(s, a);
    forall t | 0 <= t < |s'.writers| && Holding(s'.writers[t]) ensures s'.writers[t].idx != k {
      assert Holding(s.writers[t]) ==> s.writers[t].idx != k;
    }
  }

  /** Once a ticket is lost the cursor never passes it in any run, whatever the threads do: no later message is ever published. */
  lemma {:induction false} LostForever(s: State, rules: Rules, acts: seq<Act>, k: nat)
    requires Legal(s, rules, acts) && Lost(s, k)
    ensures Lost(Exec(s, rules, acts), k) && Exec(s, rules, acts).cursor <= k
    decreases |acts|
  {
    hide After, Enabled, Allowed, Lost;
    if acts == [] {
      LostBound(s, k);
    } else {
      LostStays(s, acts[0], k);
      LostForever(After(s, acts[0]), rules, acts[1..], k);
    }
  }

  lemma LostBound(s: State, k: nat)
    requires Lost(s, k)
    ensures s.cursor <= k
  {
  }

  ghost predicate NoneLost(s: State) { forall k: nat :: !Lost(s, k) }

  lemma FoundStays(s: State, a: Act, k: nat)
    requires Enabled(s, a) && !a.GiveUp? && NoneLost(s)
    ensures !Lost(After(s, a), k)
  {
    hide Slot;
    var s' := After(s, a);
    if s.cursor <= k < s.next {
      assert !Lost(s, k);
      var t :| 0 <= t < |s.writers| && Holding(s.writers[t]) && s.writers[t].idx == k;
      if s'.cursor <= k {
        assert Holding(s'.writers[t]) && s'.writers[t].idx == k;
      }
    } else if s.next == k < s'.next {
      assert Holding(s'.writers[a.t]) && s'.writers[a.t].idx == k;
    }
  }

  lemma {:induction false} ExecFound(s: State, rules: Rules, acts: seq<Act>)
    requires Legal(s, rules, acts) && NoneLost(s) && !(rules.weak && |s.writers| > 0)
    ensures NoneLost(Exec(s, rules, acts))
    decreases |acts|
  {
    hide After, Lost;
    if acts != [] {
      AfterSizes(s, acts[0]);
      forall k: nat ensures !Lost(After(s, acts[0]), k) {
        FoundStays(s, acts[0], k);
      }
      ExecFound(After(s, acts[0]), rules, acts[1..]);
    }
  }

  /** No run loses a ticket if and only if the exchange is strong or nobody writes. */
  lemma LostExactly(capacity: nat, writers: nat, readers: nat, sharers: nat, rules: Rules)
    requires capacity > 0
    ensures !rules.weak || writers == 0 <==>
      forall acts :: Legal(Init(capacity, writers, readers, sharers), rules, acts) ==>
        NoneLost(Exec(Init(capacity, writers, readers, sharers), rules, acts))
  {
    hide Exec, Legal, Slot, Lost, After;
    var s0 := Init(capacity, writers, readers, sharers);
    if !rules.weak || writers == 0 {
      forall acts | Legal(s0, rules, acts) ensures NoneLost(Exec(s0, rules, acts)) {
        NothingDrawn(s0);
        ExecFound(s0, rules, acts);
      }
    } else {
      var acts := LoseFirst(s0, rules);
      assert Lost(Exec(s0, rules, acts), 0);
    }
  }

  /** Some writer holds the ticket at the cursor, and publishing it, once filled, moves the cursor. */
  ghost predicate NextPublishes(s: State) {
    exists t :: 0 <= t < |s.writers| && Holding(s.writers[t]) && s.writers[t].idx == s.cursor
                && (Enabled(s, Fill(t)) || (Enabled(s, Publish(t)) && After(s, Publish(t)).cursor == s.cursor + 1))
  }

  /** In every run with a strong exchange, of however many writers: while tickets are unpublished, the oldest can be. */
  lemma OldestPublishes(capacity: nat, writers: nat, readers: nat, sharers: nat, rules: Rules, acts: seq<Act>)
    requires capacity > 0 && !rules.weak && Legal(Init(capacity, writers, readers, sharers), rules, acts)
    requires var s := Exec(Init(capacity, writers, readers, sharers), rules, acts); s.cursor < s.next
    ensures NextPublishes(Exec(Init(capacity, writers, readers, sharers), rules, acts))
  {
    hide Exec, Legal, Slot;
    var s0 := Init(capacity, writers, readers, sharers);
    var s := Exec(s0, rules, acts);
    NothingDrawn(s0);
    ExecFound(s0, rules, acts);
    ExecWatches(s0, rules, acts);
    assert !Lost(s, s.cursor);
  }

  lemma NothingDrawn(s: State)
    requires s.next == 0
    ensures NoneLost(s)
  {
  }

  /** The first writer draws the first ticket, fills its slot and gives up. */
  lemma LoseFirst(s: State, rules: Rules) returns (acts: seq<Act>)
    requires rules.weak && |s.datas| > 0 && |s.writers| > 0 && s.next == 0 && s.cursor == 0
    requires forall t :: 0 <= t < |s.writers| ==> s.writers[t].Resting?
    ensures Legal(s, rules, acts) && Lost(Exec(s, rules, acts), 0)
  {
    hide Slot;
    acts := [Draw(0, 0), Fill(0), GiveUp(0)];
    var s1 := After(s, Draw(0, 0));
    var s2 := After(s1, Fill(0));
    var s3 := After(s2, GiveUp(0));
    assert acts[1..][1..][1..] == [] && acts[1..][1..][0] == GiveUp(0) && acts[1..][0] == Fill(0);
    assert Legal(s3, rules, acts[1..][1..][1..]) && Legal(s2, rules, acts[1..][1..]) && Legal(s1, rules, acts[1..]);
  }

  // One writer too many: `capacity + 1` tickets are drawn, the last one fills its slot before the first one does.

  function Count0(k: nat): seq<Msg> { seq(k, i => i) }

  ghost predicate Drawn(s: State, cap: nat, k: nat) {
    && 0 < cap == |s.datas| && cap < |s.writers| && k <= cap + 1 && s.next == k && s.cursor == 0 && s.tickets == Count0(k)
    && (forall i :: 0 <= i < k ==> s.writers[i] == Ticketed(i, i))
    && (forall i :: k <= i <= cap ==> s.writers[i] == Resting)
  }

  ghost predicate Filling(s: State, cap: nat, k: nat) {
    && 0 < cap == |s.datas| && cap < |s.writers| && 1 <= k <= cap && s.next == cap + 1 && s.cursor == 0
    && s.tickets == Count0(cap + 1) && s.datas[0] == 0 && s.writers[cap] == Filled(cap, cap)
    && (forall i :: 0 <= i < k ==> s.writers[i] == Filled(i, i))
    && (forall i :: k <= i < cap ==> s.writers[i] == Ticketed(i, i))
  }

  ghost predicate Publishing(s: State, cap: nat, k: nat) {
    && 0 < cap == |s.datas| && cap < |s.writers| && k <= cap + 1 && s.next == cap + 1 && s.cursor == k
    && s.tickets == Count0(cap + 1) && s.datas[0] == 0
    && (forall i :: k <= i <= cap ==> s.writers[i] == Filled(i, i))
  }

  lemma {:induction false} PublishAll(s: State, cap: nat, k: nat) returns (acts: seq<Act>)
    requires Publishing(s, cap, k)
    ensures Legal(s, ORDERLY, acts) && Publishing(Exec(s, ORDERLY, acts), cap, cap + 1)
    decreases cap + 1 - k
  {
    if k == cap + 1 {
      acts := [];
    } else {
      assert s.writers[k] == Filled(k, k);
      var rest := PublishAll(After(s, Publish(k)), cap, k + 1);
      acts := [Publish(k)] + rest;
      assert acts[1..] == rest;
    }
  }

  lemma {:induction false} FillAll(s: State, cap: nat, k: nat) returns (acts: seq<Act>)
    requires Filling(s, cap, k)
    ensures Legal(s, ORDERLY, acts) && Publishing(Exec(s, ORDERLY, acts), cap, cap + 1)
    decreases cap - k
  {
    if k == cap {
      acts := PublishAll(s, cap, 0);
    } else {
      assert s.writers[k] == Ticketed(k, k);
      var rest := FillAll(After(s, Fill(k)), cap, k + 1);
      acts := [Fill(k)] + rest;
      assert acts[1..] == rest;
    }
  }

  lemma {:induction false} DrawAll(s: State, cap: nat, k: nat) returns (acts: seq<Act>)
    requires Drawn(s, cap, k)
    ensures Legal(s, ORDERLY, acts) && Publishing(Exec(s, ORDERLY, acts), cap, cap + 1)
    decreases cap + 1 - k
  {
    if k == cap + 1 {
      assert s.writers[cap] == Ticketed(cap, cap) && s.writers[0] == Ticketed(0, 0);
      var s1 := After(s, Fill(cap));
      var s2 := After(s1, Fill(0));
      var rest := FillAll(s2, cap, 1);
      acts := [Fill(cap), Fill(0)] + rest;
      assert acts[1..][1..] == rest && acts[1..][0] == Fill(0);
      assert Legal(s1, ORDERLY, acts[1..]);
    } else {
      var rest := DrawAll(After(s, Draw(k, k)), cap, k + 1);
      acts := [Draw(k, k)] + rest;
      assert acts[1..] == rest;
    }
  }

  lemma OneTurn(cap: nat)
    requires cap > 0
    ensures Slot(cap, cap) == 0
  {
    SlotTurn(0, cap);
  }

  /** Published tickets keep their own message in every run if and only if there are at most `capacity` writers. */
  lemma WritersAtMostCapacity(capacity: nat, writers: nat)
    requires 0 < capacity
    ensures writers <= capacity <==>
      forall acts :: Legal(Init(capacity, writers, 0, 0), ORDERLY, acts) ==>
        AllSlotsOk(Exec(Init(capacity, writers, 0, 0), ORDERLY, acts))
  {
    hide Exec, Legal, Slot, SlotOk;
    var s0 := Init(capacity, writers, 0, 0);
    if writers <= capacity {
      forall acts | Legal(s0, ORDERLY, acts) ensures AllSlotsOk(Exec(s0, ORDERLY, acts)) {
        ReadersSeeTicketOrder(capacity, writers, 0, 0, acts);
      }
    } else {
      var acts := DrawAll(s0, capacity, 0);
      Overwritten(Exec(s0, ORDERLY, acts), capacity);
    }
  }

  lemma Overwritten(s: State, cap: nat)
    requires Publishing(s, cap, cap + 1)
    ensures !AllSlotsOk(s)
  {
    OneTurn(cap);
    assert s.tickets[cap] == cap;
    assert !SlotOk(s, cap);
  }
}
