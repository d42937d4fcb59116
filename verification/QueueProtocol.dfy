/**
 * The bounded queue of src/os/linux/pthread_queue.c as interleaved steps of any number of
 * threads.  One step is one access to shared memory or one POSIX call; every step of a call
 * between `pthread_mutex_lock` and `pthread_mutex_unlock` is separate, so nothing here is
 * atomic that the code does not make atomic.
 *
 * `pthread_cond_timedwait` releases the mutex and blocks in one step.  A blocked thread is
 * released by a broadcast, spuriously, or by its deadline, and always takes the mutex again
 * before the call returns.
 */
module QueueProtocol {
  import opened Options
  import opened Arithmetic

  type Tid = nat

  /** A call in progress: `os_pthread_queue_send` of a value, or `os_pthread_queue_receive`. */
  datatype Call<T> = Send(v: T) | Receive

  /** Where a thread is inside a call.  `x` is the item the call moves. */
  datatype Pc<T> =
    | Idle
    | Lock(call: Call<T>)             // wants the mutex, on entry
    | Check(call: Call<T>)            // at the `while` guard, holding the mutex
    | Wait(call: Call<T>)             // blocked in pthread_cond_timedwait
    | Woken(call: Call<T>)            // released with result 0, wants the mutex
    | Expired(call: Call<T>)          // released by the deadline, wants the mutex
    | GiveUp(call: Call<T>)           // unlocks and returns FULL or EMPTY
    | Copy(call: Call<T>)             // at the memcpy
    | Count(call: Call<T>, x: T)      // at items++ or items--
    | Advance(call: Call<T>, x: T)    // at the update of in or out
    | Unlock(call: Call<T>, x: T)     // at pthread_mutex_unlock
    | Notify(call: Call<T>, x: T)     // at pthread_cond_broadcast
  {
    predicate Holds() {
      Check? || GiveUp? || Copy? || Count? || Advance? || Unlock?
    }

    /** The call has changed `items` but has not broadcast yet. */
    predicate Pending(sender: bool) {
      (Advance? || Unlock? || Notify?) && call.Send? == sender
    }

    predicate WaitsAs(sender: bool) {
      Wait? && call.Send? == sender
    }
  }

  /** The queue structure, its mutex, the threads, and the two histories in unlock order. */
  datatype State<T> = State(
    buffer: seq<T>, items: int, inPos: nat, outPos: nat,
    mutex: Option<Tid>, pc: map<Tid, Pc<T>>,
    sent: seq<T>, received: seq<T>)
  {
    function Size(): nat { |buffer| }

    /** What the queue holds according to the histories. */
    function Content(): seq<T>
      requires |received| <= |sent|
    {
      sent[|received|..]
    }

    /** The guard of the two `while` loops. */
    predicate Blocked(call: Call<T>) {
      if call.Send? then items == Size() else items == 0
    }
  }

  /** Everything that can happen next. */
  datatype Event<T> =
    | Begin(t: Tid, call: Call<T>)
    | Run(t: Tid)
    | Deadline(t: Tid)
    | Spurious(t: Tid)

  predicate Enabled<T>(s: State<T>, e: Event<T>) {
    e.t in s.pc &&
    match e
    case Begin(t, _) => s.pc[t].Idle?
    case Deadline(t) => s.pc[t].Wait?
    case Spurious(t) => s.pc[t].Wait?
    case Run(t) =>
      match s.pc[t]
      case Idle => false
      case Wait(_) => false
      case Lock(_) => s.mutex.None?
      case Woken(_) => s.mutex.None?
      case Expired(_) => s.mutex.None?
      case Advance(_, _) => s.Size() > 0
      case Copy(call) => if call.Send? then s.inPos < s.Size() else s.outPos < s.Size()
      case _ => true
  }

  /** `pthread_cond_broadcast`: every thread blocked on the condition is released. */
  function Broadcast<T>(pc: map<Tid, Pc<T>>, toSenders: bool): map<Tid, Pc<T>> {
    map t | t in pc :: if pc[t].WaitsAs(toSenders) then Woken(pc[t].call) else pc[t]
  }

  function Apply<T>(s: State<T>, e: Event<T>): State<T>
    requires Enabled(s, e)
  {
    match e
    case Begin(t, call) => s.(pc := s.pc[t := Lock(call)])
    case Deadline(t) => s.(pc := s.pc[t := Expired(s.pc[t].call)])
    case Spurious(t) => s.(pc := s.pc[t := Woken(s.pc[t].call)])
    case Run(t) =>
      match s.pc[t]
      case Lock(call) => s.(mutex := Some(t), pc := s.pc[t := Check(call)])
      case Woken(call) => s.(mutex := Some(t), pc := s.pc[t := Check(call)])
      case Expired(call) => s.(mutex := Some(t), pc := s.pc[t := GiveUp(call)])
      case GiveUp(_) => s.(mutex := None, pc := s.pc[t := Idle])
      case Check(call) =>
        if s.Blocked(call) then s.(mutex := None, pc := s.pc[t := Wait(call)])
        else s.(pc := s.pc[t := Copy(call)])
      case Copy(call) =>
        if call.Send? then s.(buffer := s.buffer[s.inPos := call.v], pc := s.pc[t := Count(call, call.v)])
        else s.(pc := s.pc[t := Count(call, s.buffer[s.outPos])])
      case Count(call, x) =>
        s.(items := if call.Send? then s.items + 1 else s.items - 1, pc := s.pc[t := Advance(call, x)])
      case Advance(call, x) =>
        if call.Send? then s.(inPos := (s.inPos + 1) % s.Size(), pc := s.pc[t := Unlock(call, x)])
        else s.(outPos := (s.outPos + 1) % s.Size(), pc := s.pc[t := Unlock(call, x)])
      case Unlock(call, x) =>
        if call.Send? then s.(mutex := None, sent := s.sent + [x], pc := s.pc[t := Notify(call, x)])
        else s.(mutex := None, received := s.received + [x], pc := s.pc[t := Notify(call, x)])
      case Notify(call, _) => s.(pc := Broadcast(s.pc, !call.Send?)[t := Idle])
  }

  /** `os_pthread_queue_create`: whatever malloc left in the buffer, and no items. */
  predicate Init<T>(s: State<T>) {
    s.items == 0 && s.inPos == 0 && s.outPos == 0 && s.mutex.None? && s.sent == [] && s.received == [] &&
    forall t | t in s.pc :: s.pc[t].Idle?
  }

  predicate ValidRun<T>(s: State<T>, events: seq<Event<T>>)
    decreases |events|
  {
    events != [] ==> Enabled(s, events[0]) && ValidRun(Apply(s, events[0]), events[1..])
  }

  function Final<T>(s: State<T>, events: seq<Event<T>>): State<T>
    requires ValidRun(s, events)
    decreases |events|
  {
    if events == [] then s else Final(Apply(s, events[0]), events[1..])
  }

  // ---------------------------------------------------------------- ring arithmetic

  /** `i % size` for an index that passes the end of the ring at most once. */
  function Wrap(i: nat, size: nat): nat {
    if i < size then i else i - size
  }

  lemma WrapIsMod(i: nat, size: nat)
    requires size > 0 && i < 2 * size
    ensures Wrap(i, size) == i % size
  {
    if i >= size { DivIs(i, 1, i - size, size); } else { DivIs(i, 0, i, size); }
  }

  /** The `n` slots of the ring starting at `from`. */
  function Window<T>(buffer: seq<T>, from: nat, n: nat): seq<T>
    requires n <= |buffer| && from <= |buffer|
  {
    if from + n <= |buffer| then buffer[from..from + n] else buffer[from..] + buffer[..from + n - |buffer|]
  }

  lemma WindowGrows<T>(buffer: seq<T>, from: nat, n: nat, v: T)
    requires n < |buffer| && from < |buffer|
    ensures Window(buffer[Wrap(from + n, |buffer|) := v], from, n) == Window(buffer, from, n)
    ensures Window(buffer[Wrap(from + n, |buffer|) := v], from, n + 1) == Window(buffer, from, n) + [v]
  {
  }

  lemma FirstOf<T>(b: seq<T>, from: nat, end: nat)
    requires from < end <= |b|
    ensures b[from..end] == [b[from]] + b[from + 1..end]
  {
  }

  lemma WindowShrinks<T>(buffer: seq<T>, from: nat, n: nat)
    requires 0 < n <= |buffer| && from < |buffer|
    ensures Window(buffer, from, n) == [buffer[from]] + Window(buffer, Wrap(from + 1, |buffer|), n - 1)
  {
    if from + n <= |buffer| {
      FirstOf(buffer, from, from + n);
      if from + 1 == |buffer| { assert buffer[from + 1..from + n] == [] == buffer[0..0]; }
    } else {
      var front := buffer[..from + n - |buffer|];
      FirstOf(buffer, from, |buffer|);
      assert buffer[from..] == buffer[from..|buffer|] && buffer[from + 1..] == buffer[from + 1..|buffer|];
      assert ([buffer[from]] + buffer[from + 1..]) + front == [buffer[from]] + (buffer[from + 1..] + front);
      if from + 1 == |buffer| { assert buffer[from + 1..] + front == front == buffer[0..n - 1]; }
    }
  }

  // ---------------------------------------------------------------- invariant

  /** The ring read from `outPos` for `items` slots is exactly what was sent and not yet received. */
  ghost predicate Consistent<T>(buffer: seq<T>, items: int, inPos: nat, outPos: nat, sent: seq<T>, received: seq<T>) {
    0 <= items <= |buffer| &&
    (|buffer| == 0 ==> inPos == 0 && outPos == 0) &&
    (|buffer| > 0 ==> inPos < |buffer| && outPos < |buffer| && inPos == Wrap(outPos + items, |buffer|)) &&
    received + Window(buffer, outPos, items) == sent
  }

  /** What the structure looks like when the mutex is free or the holder is at `pc`. */
  ghost predicate DataOk<T>(s: State<T>, pc: Pc<T>) {
    match pc
    case Copy(call) =>
      Consistent(s.buffer, s.items, s.inPos, s.outPos, s.sent, s.received) && !s.Blocked(call)
    case Count(call, x) =>
      Consistent(s.buffer, s.items, s.inPos, s.outPos, s.sent, s.received) && !s.Blocked(call) &&
      s.buffer[if call.Send? then s.inPos else s.outPos] == x
    case Advance(call, x) =>
      var before := if call.Send? then s.items - 1 else s.items + 1;
      Consistent(s.buffer, before, s.inPos, s.outPos, s.sent, s.received) && s.Size() > 0 &&
      before != (if call.Send? then s.Size() else 0) &&
      s.buffer[if call.Send? then s.inPos else s.outPos] == x
    case Unlock(call, x) =>
      if call.Send? then Consistent(s.buffer, s.items, s.inPos, s.outPos, s.sent + [x], s.received) && s.items > 0
      else Consistent(s.buffer, s.items, s.inPos, s.outPos, s.sent, s.received + [x]) && s.items < s.Size()
    case _ => Consistent(s.buffer, s.items, s.inPos, s.outPos, s.sent, s.received)
  }

  predicate MutexOk<T>(s: State<T>) {
    (s.mutex.Some? ==> s.mutex.value in s.pc) &&
    forall t | t in s.pc :: s.pc[t].Holds() <==> s.mutex == Some(t)
  }

  ghost predicate SomePending<T>(s: State<T>, sender: bool) {
    exists u :: u in s.pc && s.pc[u].Pending(sender)
  }

  /** A thread can sleep through available work only while a notification for it is on its way. */
  ghost predicate WakeupsOk<T>(s: State<T>) {
    ((exists t :: t in s.pc && s.pc[t].WaitsAs(false)) && s.items > 0 ==> SomePending(s, true)) &&
    ((exists t :: t in s.pc && s.pc[t].WaitsAs(true)) && s.items < s.Size() ==> SomePending(s, false))
  }

  ghost predicate HolderOk<T>(s: State<T>)
    requires MutexOk(s)
  {
    DataOk(s, if s.mutex.Some? then s.pc[s.mutex.value] else Idle)
  }

  ghost predicate Inv<T>(s: State<T>) {
    MutexOk(s) && HolderOk(s) && WakeupsOk(s)
  }

  lemma InitInv<T>(s: State<T>)
    requires Init(s)
    ensures Inv(s)
  {
    assert Window(s.buffer, 0, 0) == [];
  }

  lemma MutexStep<T>(s: State<T>, e: Event<T>)
    requires MutexOk(s) && Enabled(s, e)
    ensures MutexOk(Apply(s, e))
  {
  }

  /** The memcpy of a send fills the slot after the window and leaves the window alone. */
  lemma CopyIn<T>(s: State<T>, v: T)
    requires Consistent(s.buffer, s.items, s.inPos, s.outPos, s.sent, s.received) && s.items < s.Size()
    ensures Consistent(s.buffer[s.inPos := v], s.items, s.inPos, s.outPos, s.sent, s.received)
  {
    WindowGrows(s.buffer, s.outPos, s.items, v);
  }

  lemma AdvanceIn<T>(s: State<T>, x: T)
    requires 0 < s.items <= s.Size()
    requires Consistent(s.buffer, s.items - 1, s.inPos, s.outPos, s.sent, s.received) && s.buffer[s.inPos] == x
    ensures Consistent(s.buffer, s.items, (s.inPos + 1) % s.Size(), s.outPos, s.sent + [x], s.received)
  {
    assert s.buffer == s.buffer[s.inPos := x];
    WindowGrows(s.buffer, s.outPos, s.items - 1, x);
    WrapIsMod(s.inPos + 1, s.Size());
    var w := Window(s.buffer, s.outPos, s.items - 1);
    assert s.received + (w + [x]) == (s.received + w) + [x];
  }

  lemma AdvanceOut<T>(s: State<T>, x: T)
    requires 0 <= s.items < s.Size()
    requires Consistent(s.buffer, s.items + 1, s.inPos, s.outPos, s.sent, s.received) && s.buffer[s.outPos] == x
    ensures Consistent(s.buffer, s.items, s.inPos, (s.outPos + 1) % s.Size(), s.sent, s.received + [x])
  {
    WindowShrinks(s.buffer, s.outPos, s.items + 1);
    WrapIsMod(s.outPos + 1, s.Size());
    var w := Window(s.buffer, (s.outPos + 1) % s.Size(), s.items);
    assert s.received + ([x] + w) == (s.received + [x]) + w;
  }

  ghost predicate StepsOk<T>(s: State<T>, t: Tid) {
    t in s.pc && Enabled(s, Run(t)) &&
    var s' := Apply(s, Run(t)); DataOk(s', if s'.mutex.Some? then s'.pc[t] else Idle)
  }

  lemma SendEarly<T>(s: State<T>, t: Tid)
    requires t in s.pc && s.mutex == Some(t) && (s.pc[t].Check? || s.pc[t].GiveUp? || s.pc[t].Copy? || s.pc[t].Count?)
    requires s.pc[t].call.Send? && DataOk(s, s.pc[t])
    ensures StepsOk(s, t)
  {
    if s.pc[t].Copy? { CopyIn(s, s.pc[t].call.v); }
  }

  lemma SendLate<T>(s: State<T>, t: Tid)
    requires t in s.pc && s.mutex == Some(t) && (s.pc[t].Advance? || s.pc[t].Unlock?)
    requires s.pc[t].call.Send? && DataOk(s, s.pc[t])
    ensures StepsOk(s, t)
  {
    if s.pc[t].Advance? { AdvanceIn(s, s.pc[t].x); }
  }

  lemma SendCritical<T>(s: State<T>, t: Tid)
    requires t in s.pc && s.mutex == Some(t) && s.pc[t].Holds() && s.pc[t].call.Send? && DataOk(s, s.pc[t])
    ensures StepsOk(s, t)
  {
    if s.pc[t].Advance? || s.pc[t].Unlock? { SendLate(s, t); } else { SendEarly(s, t); }
  }

  lemma ReceiveEarly<T>(s: State<T>, t: Tid)
    requires t in s.pc && s.mutex == Some(t) && (s.pc[t].Check? || s.pc[t].GiveUp? || s.pc[t].Copy? || s.pc[t].Count?)
    requires s.pc[t].call.Receive? && DataOk(s, s.pc[t])
    ensures StepsOk(s, t)
  {
  }

  lemma ReceiveLate<T>(s: State<T>, t: Tid)
    requires t in s.pc && s.mutex == Some(t) && (s.pc[t].Advance? || s.pc[t].Unlock?)
    requires s.pc[t].call.Receive? && DataOk(s, s.pc[t])
    ensures StepsOk(s, t)
  {
    if s.pc[t].Advance? { AdvanceOut(s, s.pc[t].x); }
  }

  lemma ReceiveCritical<T>(s: State<T>, t: Tid)
    requires t in s.pc && s.mutex == Some(t) && s.pc[t].Holds() && s.pc[t].call.Receive? && DataOk(s, s.pc[t])
    ensures StepsOk(s, t)
  {
    if s.pc[t].Advance? || s.pc[t].Unlock? { ReceiveLate(s, t); } else { ReceiveEarly(s, t); }
  }

  /** A step inside a critical section carries the data invariant to the next phase. */
  lemma CriticalStep<T>(s: State<T>, t: Tid)
    requires t in s.pc && s.mutex == Some(t) && s.pc[t].Holds() && DataOk(s, s.pc[t])
    ensures StepsOk(s, t)
  {
    if s.pc[t].call.Send? { SendCritical(s, t); } else { ReceiveCritical(s, t); }
  }

  /** The data invariant does not look at the mutex or the threads. */
  lemma DataFrame<T>(s: State<T>, s': State<T>, pc: Pc<T>)
    requires s' == s.(mutex := s'.mutex, pc := s'.pc) && DataOk(s, pc)
    ensures DataOk(s', pc)
  {
  }

  /** No other event touches the structure or the thread that holds the mutex. */
  lemma OutsideStep<T>(s: State<T>, e: Event<T>)
    requires MutexOk(s) && Enabled(s, e) && !(e.Run? && s.pc[e.t].Holds())
    ensures var s' := Apply(s, e);
      s' == s.(mutex := s'.mutex, pc := s'.pc) &&
      (s.mutex.Some? ==> s'.mutex == s.mutex && s'.pc[s.mutex.value] == s.pc[s.mutex.value]) &&
      (s.mutex.None? && s'.mutex.Some? ==> s'.mutex.value == e.t && (s'.pc[e.t].Check? || s'.pc[e.t].GiveUp?))
  {
    if s.mutex.Some? { assert s.pc[s.mutex.value].Holds(); }
  }

  lemma HolderStep<T>(s: State<T>, e: Event<T>)
    requires MutexOk(s) && HolderOk(s) && Enabled(s, e)
    ensures MutexOk(Apply(s, e)) && HolderOk(Apply(s, e))
  {
    MutexStep(s, e);
    if e.Run? && s.pc[e.t].Holds() {
      CriticalStep(s, e.t);
    } else {
      var s' := Apply(s, e);
      OutsideStep(s, e);
      DataFrame(s, s', if s.mutex.Some? then s.pc[s.mutex.value] else if s'.mutex.Some? then s'.pc[e.t] else Idle);
    }
  }

  predicate Available<T>(s: State<T>, sender: bool) {
    if sender then s.items < s.Size() else s.items > 0
  }

  /** The thread that runs is the one that counts the work, or has counted it and not broadcast yet. */
  predicate OwnStep<T>(s: State<T>, e: Event<T>, sender: bool) {
    e.Run? && e.t in s.pc &&
    (s.pc[e.t].Pending(!sender) || (s.pc[e.t].Count? && s.pc[e.t].call.Send? == !sender))
  }

  lemma OwnPending<T>(s: State<T>, e: Event<T>, t: Tid, sender: bool)
    requires Enabled(s, e) && OwnStep(s, e, sender)
    requires var s' := Apply(s, e); t in s'.pc && s'.pc[t].WaitsAs(sender)
    ensures SomePending(Apply(s, e), !sender)
  {
    var s' := Apply(s, e);
    if !s.pc[e.t].Notify? { assert s'.pc[e.t].Pending(!sender); }
  }

  /** No other step ends a notification that is on its way. */
  lemma OtherPending<T>(s: State<T>, e: Event<T>, u: Tid, sender: bool)
    requires Enabled(s, e) && !OwnStep(s, e, sender) && u in s.pc && s.pc[u].Pending(!sender)
    ensures SomePending(Apply(s, e), !sender)
  {
    assert Apply(s, e).pc[u].Pending(!sender);
  }

  /** Any other step that puts or leaves a thread asleep beside available work found it so. */
  lemma WasWaiting<T>(s: State<T>, e: Event<T>, t: Tid, sender: bool)
    requires MutexOk(s) && HolderOk(s) && Enabled(s, e) && !OwnStep(s, e, sender)
    requires var s' := Apply(s, e); t in s'.pc && s'.pc[t].WaitsAs(sender) && Available(s', sender)
    ensures t in s.pc && s.pc[t].WaitsAs(sender) && Available(s, sender)
  {
  }

  /** A thread asleep beside available work after a step: its notification is still, or newly, on its way. */
  lemma StillPending<T>(s: State<T>, e: Event<T>, t: Tid, sender: bool)
    requires Inv(s) && Enabled(s, e)
    requires var s' := Apply(s, e); t in s'.pc && s'.pc[t].WaitsAs(sender) && Available(s', sender)
    ensures SomePending(Apply(s, e), !sender)
  {
    if OwnStep(s, e, sender) {
      OwnPending(s, e, t, sender);
    } else {
      WasWaiting(s, e, t, sender);
      assert SomePending(s, !sender);
      var u :| u in s.pc && s.pc[u].Pending(!sender);
      OtherPending(s, e, u, sender);
    }
  }

  lemma WakeupStep<T>(s: State<T>, e: Event<T>)
    requires Inv(s) && Enabled(s, e)
    ensures WakeupsOk(Apply(s, e))
  {
    var s' := Apply(s, e);
    if t :| t in s'.pc && s'.pc[t].WaitsAs(false) && s'.items > 0 { StillPending(s, e, t, false); }
    if t :| t in s'.pc && s'.pc[t].WaitsAs(true) && s'.items < s'.Size() { StillPending(s, e, t, true); }
  }

  lemma {:induction false} RunInv<T>(s: State<T>, events: seq<Event<T>>)
    requires Inv(s) && ValidRun(s, events)
    ensures Inv(Final(s, events))
    decreases |events|
  {
    if events != [] {
      HolderStep(s, events[0]);
      WakeupStep(s, events[0]);
      RunInv(Apply(s, events[0]), events[1..]);
    }
  }

  // ---------------------------------------------------------------- main results

  /**
   * No lost wakeup.  In every state any interleaving can reach, if a receiver sleeps while the
   * queue holds items then some sender has already counted its item and has not broadcast yet; and
   * unless that sender still holds the mutex it is past its unlock, at the broadcast itself.  The
   * mirror statement holds for senders and free space.
   */
  lemma NoLostWakeup<T>(s0: State<T>, events: seq<Event<T>>, t: Tid, sender: bool)
    requires Init(s0) && ValidRun(s0, events)
    requires var s := Final(s0, events);
      t in s.pc && s.pc[t].WaitsAs(sender) && (if sender then s.items < s.Size() else s.items > 0)
    ensures var s := Final(s0, events);
      exists u :: u in s.pc && s.pc[u].Pending(!sender) && (s.mutex != Some(u) ==> s.pc[u].Notify?)
  {
    InitInv(s0);
    RunInv(s0, events);
    var s := Final(s0, events);
    assert SomePending(s, !sender);
    var u :| u in s.pc && s.pc[u].Pending(!sender);
    assert s.mutex != Some(u) ==> !s.pc[u].Holds();
  }

  lemma WindowAt<T>(buffer: seq<T>, from: nat, n: nat, i: nat)
    requires i < n <= |buffer| && from < |buffer|
    ensures |Window(buffer, from, n)| == n && Wrap(from + i, |buffer|) < |buffer|
    ensures Window(buffer, from, n)[i] == buffer[Wrap(from + i, |buffer|)]
  {
  }

  lemma AfterPrefix<T>(front: seq<T>, rest: seq<T>, all: seq<T>)
    requires front + rest == all
    ensures |front| <= |all| && all[|front|..] == rest
  {
  }

  lemma RingAt<T>(s: State<T>, i: nat)
    requires Consistent(s.buffer, s.items, s.inPos, s.outPos, s.sent, s.received) && i < s.items
    ensures |s.received| <= |s.sent| && i < |s.Content()| && s.Size() > 0
    ensures s.Content()[i] == s.buffer[(s.outPos + i) % s.Size()]
  {
    AfterPrefix(s.received, Window(s.buffer, s.outPos, s.items), s.sent);
    WindowAt(s.buffer, s.outPos, s.items, i);
    WrapIsMod(s.outPos + i, s.Size());
  }

  /**
   * Bounded FIFO.  Whenever the mutex is free, the received history followed by the ring read from
   * `out` for `items` slots is the sent history, and `in` is `out + items` around the ring.
   */
  lemma RingIsFifo<T>(s0: State<T>, events: seq<Event<T>>)
    requires Init(s0) && ValidRun(s0, events)
    requires Final(s0, events).mutex.None?
    ensures var s := Final(s0, events);
      0 <= s.items <= s.Size() && (s.Size() > 0 ==> s.inPos == (s.outPos + s.items) % s.Size()) &&
      s.received <= s.sent && |s.sent| == |s.received| + s.items &&
      (forall i | 0 <= i < s.items :: s.Content()[i] == s.buffer[(s.outPos + i) % s.Size()])
  {
    InitInv(s0);
    RunInv(s0, events);
    var s := Final(s0, events);
    if s.Size() > 0 { WrapIsMod(s.outPos + s.items, s.Size()); }
    forall i | 0 <= i < s.items ensures s.Content()[i] == s.buffer[(s.outPos + i) % s.Size()] { RingAt(s, i); }
  }

  /** The effect of one event on an abstract bounded FIFO holding `before` and then `after`. */
  ghost predicate FifoStep<T>(s: State<T>, e: Event<T>, before: seq<T>, after: seq<T>)
    requires Enabled(s, e)
  {
    if e.Run? && s.pc[e.t].Unlock? then
      var x := s.pc[e.t].x;
      if s.pc[e.t].call.Send? then |before| < s.Size() && after == before + [x]
      else |before| > 0 && before == [x] + after
    else after == before
  }

  /** In every phase the received history is a prefix of the sent one, at most `size` shorter. */
  ghost predicate Ordered<T>(s: State<T>) {
    s.received <= s.sent && |s.sent| - |s.received| <= s.Size() &&
    forall t | t in s.pc && s.pc[t].Unlock? ::
      if s.pc[t].call.Send? then |s.sent| - |s.received| < s.Size() else s.received + [s.pc[t].x] <= s.sent
  }

  /** The histories while an item has been moved and not yet entered in them. */
  lemma UnlockOrder<T>(s: State<T>, pc: Pc<T>)
    requires pc.Unlock? && DataOk(s, pc)
    ensures s.received <= s.sent && |s.sent| - |s.received| <= s.Size()
    ensures if pc.call.Send? then |s.sent| - |s.received| < s.Size() else s.received + [pc.x] <= s.sent
  {
    var w := Window(s.buffer, s.outPos, s.items);
    if pc.call.Send? {
      assert s.sent == (s.received + w)[..|s.sent|];
      assert s.sent == s.received + w[..|w| - 1];
    } else {
      assert s.sent == (s.received + [pc.x]) + w;
      assert s.sent == s.received + ([pc.x] + w);
    }
  }

  lemma HistoryOrder<T>(s: State<T>)
    requires MutexOk(s) && HolderOk(s)
    ensures Ordered(s)
  {
    if s.mutex.Some? && s.pc[s.mutex.value].Unlock? {
      UnlockOrder(s, s.pc[s.mutex.value]);
    }
  }

  lemma OrderedStep<T>(s: State<T>, e: Event<T>)
    requires Ordered(s) && Enabled(s, e)
    ensures var s' := Apply(s, e);
      |s'.received| <= |s'.sent| && FifoStep(s, e, s.Content(), s'.Content())
  {
  }

  /**
   * Linearizability.  From any reachable state, each event either leaves the abstract queue alone
   * or, at the unlock that ends a critical section, appends the sent value to a queue with room or
   * removes from a non-empty queue exactly the value the call returns.
   */
  lemma Linearizable<T>(s0: State<T>, events: seq<Event<T>>, e: Event<T>)
    requires Init(s0) && ValidRun(s0, events) && Enabled(Final(s0, events), e)
    ensures var s := Final(s0, events); var s' := Apply(s, e);
      s.received <= s.sent && |s'.received| <= |s'.sent| && |s.Content()| <= s.Size() &&
      FifoStep(s, e, s.Content(), s'.Content())
  {
    InitInv(s0);
    RunInv(s0, events);
    HistoryOrder(Final(s0, events));
    OrderedStep(Final(s0, events), e);
  }

  predicate Quiescent<T>(s: State<T>) {
    forall t | t in s.pc :: s.pc[t].Idle? || s.pc[t].Wait?
  }

  /**
   * Progress.  A reachable state in which no thread can run on its own has nobody sleeping beside
   * work it could do: sleeping receivers see an empty queue and sleeping senders a full one.
   */
  lemma StuckMeansServed<T>(s0: State<T>, events: seq<Event<T>>)
    requires Init(s0) && ValidRun(s0, events)
    requires forall t :: t in Final(s0, events).pc ==> !Enabled(Final(s0, events), Run(t))
    ensures var s := Final(s0, events);
      Quiescent(s) && s.mutex.None? &&
      (forall t | t in s.pc :: s.pc[t].WaitsAs(false) ==> s.items == 0) &&
      (forall t | t in s.pc :: s.pc[t].WaitsAs(true) ==> s.items == s.Size())
  {
    InitInv(s0);
    RunInv(s0, events);
    var s := Final(s0, events);
    if s.mutex.Some? {
      assert Enabled(s, Run(s.mutex.value));
      assert false;
    }
    forall t | t in s.pc ensures s.pc[t].Idle? || s.pc[t].Wait? {
      assert !Enabled(s, Run(t));
    }
    forall t: Tid, sender: bool | t in s.pc && s.pc[t].WaitsAs(sender)
      ensures if sender then s.items == s.Size() else s.items == 0
    {
      if (if sender then s.items < s.Size() else s.items > 0) {
        assert false;
      }
    }
  }
}
