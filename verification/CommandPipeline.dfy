/**
 * The two-stage command pipeline: src/system/taskDispatcher.c and src/system/taskExecuter.c over
 * the three queues created in src/system/mainFS.c.  Each queue is the bounded FIFO that
 * `QueueProtocol.Linearizable` establishes; a step that would block is disabled.
 *
 * A running command may itself submit further commands with `cmd_send`, so a command carries the
 * list it submits.
 */
module CommandPipeline {

  const CMD_OK := 1

  datatype Cmd = Cmd(id: int, spawns: seq<Cmd>)

  /** Where `taskDispatcher` is in its loop. */
  datatype Dispatcher =
    | AwaitCommand                 // osQueueReceive(dispatcher_queue)
    | CountExecuted(c: Cmd)        // executed_cmds + 1
    | HandOff(c: Cmd)              // osQueueSend(executer_cmd_queue)
    | AwaitResult                  // osQueueReceive(executer_stat_queue)
    | CountFailed(r: int)          // failed_cmds + 1 when the result is not CMD_OK

  /** Where `taskExecuter` is in its loop. */
  datatype Executer =
    | AwaitWork                    // osQueueReceive(executer_cmd_queue)
    | Running(c: Cmd, sent: nat)   // inside the command function, `sent` of its own commands submitted
    | Free(c: Cmd, r: int)         // cmd_free
    | Reply(r: int)                // osQueueSend(executer_stat_queue)

  datatype State = State(
    capacity: nat, queue: seq<Cmd>, work: seq<Cmd>, stat: seq<int>,
    d: Dispatcher, e: Executer,
    executed: int, failed: int,
    // histories: submitted in dispatcher-queue order, run, freed, results taken by the dispatcher
    submitted: seq<Cmd>, ran: seq<Cmd>, freed: seq<Cmd>, results: seq<int>)

  datatype Event =
    | Submit(c: Cmd)               // cmd_send by a client task
    | Dispatch
    | Execute(r: int)              // `r` is what the command function returns, if this step returns it

  predicate Spawning(s: State) {
    s.e.Running? && s.e.sent < |s.e.c.spawns|
  }

  predicate Enabled(s: State, ev: Event) {
    match ev
    case Submit(_) => |s.queue| < s.capacity
    case Dispatch =>
      (match s.d
       case AwaitCommand => s.queue != []
       case HandOff(_) => |s.work| < 1
       case AwaitResult => s.stat != []
       case _ => true)
    case Execute(_) =>
      match s.e
      case AwaitWork => s.work != []
      case Running(_, _) => Spawning(s) ==> |s.queue| < s.capacity
      case Reply(_) => |s.stat| < 1
      case _ => true
  }

  function Apply(s: State, ev: Event): State
    requires Enabled(s, ev)
  {
    match ev
    case Submit(c) => s.(queue := s.queue + [c], submitted := s.submitted + [c])
    case Dispatch =>
      (match s.d
       case AwaitCommand => s.(queue := s.queue[1..], d := CountExecuted(s.queue[0]))
       case CountExecuted(c) => s.(executed := s.executed + 1, d := HandOff(c))
       case HandOff(c) => s.(work := s.work + [c], d := AwaitResult)
       case AwaitResult => s.(stat := s.stat[1..], results := s.results + [s.stat[0]], d := CountFailed(s.stat[0]))
       case CountFailed(r) => s.(failed := if r != CMD_OK then s.failed + 1 else s.failed, d := AwaitCommand))
    case Execute(r) =>
      match s.e
      case AwaitWork => s.(work := s.work[1..], e := Running(s.work[0], 0))
      case Running(c, n) =>
        if Spawning(s) then
          s.(queue := s.queue + [c.spawns[n]], submitted := s.submitted + [c.spawns[n]], e := Running(c, n + 1))
        else s.(ran := s.ran + [c], e := Free(c, r))
      case Free(c, res) => s.(freed := s.freed + [c], e := Reply(res))
      case Reply(res) => s.(stat := s.stat + [res], e := AwaitWork)
  }

  predicate Init(s: State) {
    s.queue == [] && s.work == [] && s.stat == [] && s.d.AwaitCommand? && s.e.AwaitWork? &&
    s.executed == 0 && s.failed == 0 &&
    s.submitted == [] && s.ran == [] && s.freed == [] && s.results == []
  }

  predicate ValidRun(s: State, events: seq<Event>)
    decreases |events|
  {
    events != [] ==> Enabled(s, events[0]) && ValidRun(Apply(s, events[0]), events[1..])
  }

  function Final(s: State, events: seq<Event>): State
    requires ValidRun(s, events)
    decreases |events|
  {
    if events == [] then s else Final(Apply(s, events[0]), events[1..])
  }

  // ---------------------------------------------------------------- invariant

  /** The command taken from the dispatcher queue and not yet run, if any. */
  function NotYetRun(s: State): seq<Cmd> {
    match s.d
    case CountExecuted(c) => [c]
    case HandOff(c) => [c]
    case _ => s.work + if s.e.Running? then [s.e.c] else []
  }

  /** Everything submitted that has not run, in order. */
  function Ahead(s: State): seq<Cmd> { NotYetRun(s) + s.queue }

  function CountBad(results: seq<int>): nat {
    if results == [] then 0
    else CountBad(results[..|results| - 1]) + if results[|results| - 1] != CMD_OK then 1 else 0
  }

  /** How many of the executer queue, the executer and the result queue hold a command or its result. */
  function Occupied(s: State): nat {
    |s.work| + |s.stat| + if s.e.AwaitWork? then 0 else 1
  }

  /** Nothing is lost, repeated or reordered. */
  predicate OrderOk(s: State) {
    s.submitted == s.ran + Ahead(s)
  }

  predicate CountersOk(s: State) {
    |s.ran| == |s.results| + (if s.d.AwaitResult? && s.work == [] && !s.e.Running? then 1 else 0) &&
    s.executed == |s.results| + (if s.d.AwaitResult? || s.d.HandOff? then 1 else 0) &&
    (s.d.CountFailed? ==> s.results != [] && s.results[|s.results| - 1] == s.d.r) &&
    s.failed == CountBad(if s.d.CountFailed? then s.results[..|s.results| - 1] else s.results)
  }

  predicate ControlOk(s: State) {
    |s.queue| <= s.capacity &&
    (s.e.Running? ==> s.e.sent <= |s.e.c.spawns|) &&
    (if s.d.AwaitResult? then Occupied(s) == 1 else Occupied(s) == 0) &&
    (if s.e.Free? then s.ran == s.freed + [s.e.c] else s.ran == s.freed)
  }

  predicate Inv(s: State) {
    ControlOk(s) && OrderOk(s) && CountersOk(s)
  }

  lemma DispatchKeepsOrder(s: State)
    requires ControlOk(s) && Enabled(s, Dispatch)
    ensures Ahead(Apply(s, Dispatch)) == Ahead(s)
  {
    var s' := Apply(s, Dispatch);
    if s.d.AwaitCommand? {
      assert NotYetRun(s) == [] && NotYetRun(s') == [s.queue[0]];
      assert s.queue == [s.queue[0]] + s.queue[1..];
    } else if s.d.HandOff? {
      assert NotYetRun(s') == [s.d.c];
    } else {
      assert NotYetRun(s') == NotYetRun(s);
    }
  }

  lemma ExecuteKeepsOrder(s: State, r: int)
    requires ControlOk(s) && Enabled(s, Execute(r))
    ensures var s' := Apply(s, Execute(r));
      if Spawning(s) then Ahead(s') == Ahead(s) + [s.e.c.spawns[s.e.sent]]
      else if s.e.Running? then Ahead(s) == [s.e.c] + Ahead(s')
      else Ahead(s') == Ahead(s)
  {
    var s' := Apply(s, Execute(r));
    if s.e.Running? {
      assert NotYetRun(s) == [s.e.c];
      assert NotYetRun(s') == if Spawning(s) then [s.e.c] else [];
    } else {
      assert NotYetRun(s') == NotYetRun(s);
    }
  }

  lemma OrderStep(s: State, ev: Event)
    requires ControlOk(s) && OrderOk(s) && Enabled(s, ev)
    ensures OrderOk(Apply(s, ev))
  {
    var s' := Apply(s, ev);
    match ev
    case Submit(c) => assert Ahead(s') == Ahead(s) + [c];
    case Dispatch => DispatchKeepsOrder(s);
    case Execute(r) => ExecuteKeepsOrder(s, r);
  }

  lemma CountersStep(s: State, ev: Event)
    requires ControlOk(s) && CountersOk(s) && Enabled(s, ev)
    ensures CountersOk(Apply(s, ev))
  {
    var s' := Apply(s, ev);
    if ev.Dispatch? && s.d.AwaitResult? {
      assert s'.results[..|s'.results| - 1] == s.results;
    }
  }

  lemma ControlStep(s: State, ev: Event)
    requires ControlOk(s) && Enabled(s, ev)
    ensures ControlOk(Apply(s, ev))
  {
  }

  lemma StepInv(s: State, ev: Event)
    requires Inv(s) && Enabled(s, ev)
    ensures Inv(Apply(s, ev))
  {
    ControlStep(s, ev);
    OrderStep(s, ev);
    CountersStep(s, ev);
  }

  lemma {:induction false} RunInv(s: State, events: seq<Event>)
    requires Inv(s) && ValidRun(s, events)
    ensures Inv(Final(s, events))
    decreases |events|
  {
    if events != [] {
      StepInv(s, events[0]);
      RunInv(Apply(s, events[0]), events[1..]);
    }
  }

  lemma {:induction false} CountBadBound(results: seq<int>)
    ensures CountBad(results) <= |results|
  {
    if results != [] { CountBadBound(results[..|results| - 1]); }
  }

  // ---------------------------------------------------------------- main results

  /**
   * Every run.  At most one command is past the dispatcher; commands run in the order the
   * dispatcher queue took them, each once, and each is freed once, in that order and right after
   * it ran; `failed_cmds` counts the non-OK results taken, in every state (the one just taken is about to be
   * counted while the dispatcher is at CountFailed), and never exceeds `executed_cmds`.
   */
  lemma PipelineSafety(s0: State, events: seq<Event>)
    requires Init(s0) && ValidRun(s0, events)
    ensures var s := Final(s0, events);
      Occupied(s) <= 1 && (s.d.CountFailed? ==> s.results != []) &&
      s.ran <= s.submitted && s.submitted[|s.ran|..] == Ahead(s) &&
      s.freed <= s.ran && |s.ran| <= |s.freed| + 1 &&
      s.failed == CountBad(if s.d.CountFailed? then s.results[..|s.results| - 1] else s.results) &&
      (s.d.AwaitCommand? ==> s.ran == s.freed && s.executed == |s.results| == |s.ran|) &&
      s.failed <= s.executed <= |s.submitted|
  {
    RunInv(s0, events);
    var s := Final(s0, events);
    CountBadBound(s.results);
    if s.d.CountFailed? { CountBadBound(s.results[..|s.results| - 1]); }
  }

  predicate WorkPending(s: State) {
    s.queue != [] || !s.d.AwaitCommand?
  }

  /**
   * Progress, exactly.  While work is pending the dispatcher or the executer can take a step unless
   * the running command is submitting a command of its own to a full dispatcher queue; and then
   * no step of any task is enabled, for good.
   */
  lemma ProgressIff(s0: State, events: seq<Event>, r: int)
    requires Init(s0) && ValidRun(s0, events) && WorkPending(Final(s0, events))
    ensures var s := Final(s0, events);
      (Enabled(s, Dispatch) || Enabled(s, Execute(r))) <==> !(Spawning(s) && |s.queue| == s.capacity)
    ensures var s := Final(s0, events);
      Spawning(s) && |s.queue| == s.capacity ==> forall ev: Event :: !Enabled(s, ev)
  {
    RunInv(s0, events);
  }

  // ---------------------------------------------------------------- the blocked state is reached

  lemma RunCons(s: State, ev: Event, rest: seq<Event>)
    requires Enabled(s, ev) && ValidRun(Apply(s, ev), rest)
    ensures ValidRun(s, [ev] + rest) && Final(s, [ev] + rest) == Final(Apply(s, ev), rest)
  {
    assert ([ev] + rest)[1..] == rest;
  }

  function Submissions(c: Cmd, n: nat): seq<Event> {
    if n == 0 then [] else [Submit(c)] + Submissions(c, n - 1)
  }

  /** Clients can fill the queue while a command runs. */
  lemma {:induction false} FillQueue(s: State, c: Cmd, n: nat)
    requires |s.queue| + n <= s.capacity
    ensures var events := Submissions(c, n);
      ValidRun(s, events) && var s' := Final(s, events);
      |s'.queue| == |s.queue| + n && s'.e == s.e && s'.capacity == s.capacity
    decreases n
  {
    if n > 0 {
      FillQueue(Apply(s, Submit(c)), c, n - 1);
      RunCons(s, Submit(c), Submissions(c, n - 1));
    }
  }

  /** A command on its way to the executer. */
  function HandOver(c: Cmd): seq<Event> { [Submit(c)] + ([Dispatch] + ([Dispatch] + ([Dispatch] + [Execute(CMD_OK)]))) }

  lemma HandedOver(s0: State, c: Cmd)
    requires Init(s0) && s0.capacity > 0
    ensures ValidRun(s0, HandOver(c))
    ensures var s := Final(s0, HandOver(c)); s.e == Running(c, 0) && s.queue == [] && s.capacity == s0.capacity
  {
    var s1 := Apply(s0, Submit(c));
    var s2 := Apply(s1, Dispatch);
    var s3 := Apply(s2, Dispatch);
    var s4 := Apply(s3, Dispatch);
    assert ValidRun(s4, [Execute(CMD_OK)]) && Final(s4, [Execute(CMD_OK)]) == Apply(s4, Execute(CMD_OK));
    RunCons(s3, Dispatch, [Execute(CMD_OK)]);
    RunCons(s2, Dispatch, [Dispatch] + [Execute(CMD_OK)]);
    RunCons(s1, Dispatch, [Dispatch] + ([Dispatch] + [Execute(CMD_OK)]));
    RunCons(s0, Submit(c), [Dispatch] + ([Dispatch] + ([Dispatch] + [Execute(CMD_OK)])));
  }

  lemma {:induction false} RunAppend(s: State, a: seq<Event>, b: seq<Event>)
    requires ValidRun(s, a) && ValidRun(Final(s, a), b)
    ensures ValidRun(s, a + b) && Final(s, a + b) == Final(Final(s, a), b)
    decreases |a|
  {
    if a == [] {
      assert a + b == b;
    } else {
      RunAppend(Apply(s, a[0]), a[1..], b);
      RunCons(s, a[0], a[1..] + b);
      assert a + b == [a[0]] + (a[1..] + b);
    }
  }

  /**
   * Whatever the length of the queue, one command that submits another and a queue's length of client commands
   * stop the pipeline: the run is possible, and after it no step of any task is.
   */
  lemma BlockedIsReached(s0: State, c: Cmd, other: Cmd)
    requires Init(s0) && s0.capacity > 0 && c.spawns != []
    ensures var events := HandOver(c) + Submissions(other, s0.capacity);
      ValidRun(s0, events) && WorkPending(Final(s0, events)) && forall ev: Event :: !Enabled(Final(s0, events), ev)
  {
    HandedOver(s0, c);
    var running, fill := Final(s0, HandOver(c)), Submissions(other, s0.capacity);
    FillQueue(running, other, s0.capacity);
    RunAppend(s0, HandOver(c), fill);
    ProgressIff(s0, HandOver(c) + fill, CMD_OK);
  }

  // ---------------------------------------------------------------- termination

  /** Steps a command can still cause, its own submissions included. */
  function Cost(c: Cmd): nat
    decreases c, 0
  {
    9 + |c.spawns| + CostAll(c.spawns)
  }

  function CostAll(cs: seq<Cmd>): nat
    decreases cs, 1
  {
    if cs == [] then 0 else 1 + Cost(cs[0]) + CostAll(cs[1..])
  }

  lemma {:induction false} CostAppend(a: seq<Cmd>, c: Cmd)
    ensures CostAll(a + [c]) == CostAll(a) + 1 + Cost(c)
  {
    if a == [] {
      assert [c][1..] == [];
    } else {
      assert (a + [c])[1..] == a[1..] + [c];
      CostAppend(a[1..], c);
    }
  }

  function SpawnCost(cs: seq<Cmd>): nat { |cs| + CostAll(cs) }

  function Stage(s: State): nat {
    match s.d
    case AwaitCommand => 0
    case CountExecuted(c) => 8 + SpawnCost(c.spawns)
    case HandOff(c) => 7 + SpawnCost(c.spawns)
    case CountFailed(_) => 1
    case AwaitResult =>
      match s.e
      case AwaitWork => if s.work != [] then 6 + SpawnCost(s.work[0].spawns) else 2
      case Running(c, n) => 5 + if n <= |c.spawns| then SpawnCost(c.spawns[n..]) else 0
      case Free(_, _) => 4
      case Reply(_) => 3
  }

  /** A bound on the steps the dispatcher and the executer can still take without new clients. */
  function Measure(s: State): nat { CostAll(s.queue) + Stage(s) }

  lemma MeasureDecreases(s: State, ev: Event)
    requires Inv(s) && Enabled(s, ev) && !ev.Submit?
    ensures Measure(Apply(s, ev)) < Measure(s)
  {
    if ev.Dispatch? {
    } else if s.e.AwaitWork? {
      assert s.work[0].spawns[0..] == s.work[0].spawns;
    } else if Spawning(s) {
      var rest := s.e.c.spawns[s.e.sent..];
      assert rest[1..] == s.e.c.spawns[s.e.sent + 1..];
      CostAppend(s.queue, rest[0]);
    }
  }

  predicate SpawnFree(cs: seq<Cmd>) {
    forall c | c in cs :: c.spawns == []
  }

  lemma RunningWasSubmitted(s: State)
    requires OrderOk(s) && ControlOk(s) && s.e.Running?
    ensures s.e.c in s.submitted
  {
    assert s.e.c in NotYetRun(s);
    assert s.e.c in Ahead(s);
  }

  /** A run without new clients is no longer than the measure, and only spawning commands add work. */
  lemma {:induction false} Drains(s: State, events: seq<Event>)
    requires Inv(s) && ValidRun(s, events) && (forall ev | ev in events :: !ev.Submit?)
    ensures Inv(Final(s, events)) && |events| + Measure(Final(s, events)) <= Measure(s)
    ensures SpawnFree(s.submitted) ==> Final(s, events).submitted == s.submitted
    decreases |events|
  {
    if events != [] {
      StepInv(s, events[0]);
      MeasureDecreases(s, events[0]);
      if s.e.Running? { RunningWasSubmitted(s); }
      Drains(Apply(s, events[0]), events[1..]);
    }
  }

  /**
   * Draining.  From any reachable state, a run without new clients stops within the measure; and
   * when neither task can go on, either everything ever submitted has run and been freed, in order,
   * or the running command is blocked on its own submission to a full queue.  With commands that
   * submit nothing it is always the former, and what has run is exactly what the clients submitted.
   */
  lemma DrainedOrBlocked(s0: State, before: seq<Event>, after: seq<Event>, r: int)
    requires Init(s0) && ValidRun(s0, before) && ValidRun(Final(s0, before), after)
    requires forall ev | ev in after :: !ev.Submit?
    requires var s := Final(Final(s0, before), after); !Enabled(s, Dispatch) && !Enabled(s, Execute(r))
    ensures |after| <= Measure(Final(s0, before))
    ensures var s := Final(Final(s0, before), after);
      (s.ran == s.freed == s.submitted && s.queue == []) || (Spawning(s) && |s.queue| == s.capacity)
    ensures SpawnFree(Final(s0, before).submitted) ==>
      var s := Final(Final(s0, before), after); s.ran == s.freed == Final(s0, before).submitted
  {
    RunInv(s0, before);
    Drains(Final(s0, before), after);
    var s := Final(Final(s0, before), after);
    if Spawning(s) { RunningWasSubmitted(s); }
  }
}
