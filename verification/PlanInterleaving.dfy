/**
 * Overlapping flight-plan calls.  dat_set_fp, dat_get_fp and dat_del_fp of src/system/repoData.c each
 * read the row counter, then change the table under the lock, then write the counter; any number of
 * tasks may be in such a call at once.  Here is every interleaving of those three steps.
 */
module PlanInterleaving {
  import opened Memory
  import opened PlanRecord
  import opened PlanRepo

  /**
   * Where a call is.  `n` is the counter it read and `at` how many counter writes had happened by then;
   * `delta` is what its success adds to the counter.
   */
  datatype Phase =
    | Start
    | HasRead(n: int, at: nat)
    | Stored(n: int, at: nat, delta: int)
    | Finished

  /**
   * The repository, the calls under way, and four histories: how many counter writes there were, the sum of
   * their deltas, the sum of what each of them wrote over (the counter it replaced less the one it had read),
   * and whether each of them came with no other write since its own call's read.
   */
  datatype State = State(repo: Repo, phases: seq<Phase>, writes: nat, total: int, lost: int, serial: bool)

  /** A call that sets a row, or that takes one with a real time out. */
  predicate Ordinary(c: Call) {
    c.SetCall? || ((c.GetCall? || c.DelCall?) && c.t != FP_NULL)
  }

  function Delta(c: Call): int { if c.SetCall? then 1 else -1 }

  /** The locked part of a call. */
  function Operate(rows: seq<Entry>, c: Call, commNode: int32): R.Result
    requires Ordinary(c)
  {
    if c.SetCall? then R.Set(rows, c.e) else R.Delete(rows, c.t, commNode)
  }

  /** The next step of call `c`. */
  function Step(s: State, calls: seq<Call>, c: nat, commNode: int32): State
    requires c < |calls| == |s.phases| && Ordinary(calls[c]) && !s.phases[c].Finished?
  {
    match s.phases[c]
    case Start => s.(phases := s.phases[c := HasRead(s.repo.queue, s.writes)])
    case HasRead(n, at) =>
      var r := Operate(s.repo.rows, calls[c], commNode);
      s.(repo := s.repo.(rows := r.rows),
         phases := s.phases[c := if r.ok then Stored(n, at, Delta(calls[c])) else Finished])
    case Stored(n, at, delta) =>
      State(s.repo.(queue := n + delta), s.phases[c := Finished], s.writes + 1, s.total + delta,
            s.lost + s.repo.queue - n, s.serial && at == s.writes)
  }

  ghost predicate ValidRun(s: State, calls: seq<Call>, order: seq<nat>, commNode: int32)
    decreases |order|
  {
    |calls| == |s.phases| && (forall c | c in calls :: Ordinary(c)) &&
    (order != [] ==>
      order[0] < |calls| && !s.phases[order[0]].Finished? &&
      ValidRun(Step(s, calls, order[0], commNode), calls, order[1..], commNode))
  }

  ghost function Final(s: State, calls: seq<Call>, order: seq<nat>, commNode: int32): State
    requires ValidRun(s, calls, order, commNode)
    decreases |order|
  {
    if order == [] then s else Final(Step(s, calls, order[0], commNode), calls, order[1..], commNode)
  }

  /** No call has begun. */
  predicate Init(s: State, repo: Repo) {
    s.repo == repo && s.writes == 0 && s.total == 0 && s.lost == 0 && s.serial &&
    forall i | 0 <= i < |s.phases| :: s.phases[i].Start?
  }

  predicate AllFinished(s: State) { forall i | 0 <= i < |s.phases| :: s.phases[i].Finished? }

  // ---------------------------------------------------------------- the rows

  /** Deltas of calls that have changed the table and not yet the counter. */
  function Pending(phases: seq<Phase>): int {
    if phases == [] then 0
    else Pending(phases[..|phases| - 1]) + if phases[|phases| - 1].Stored? then phases[|phases| - 1].delta else 0
  }

  function Due(p: Phase): int { if p.Stored? then p.delta else 0 }

  lemma {:induction false} PendingUpdate(phases: seq<Phase>, c: nat, p: Phase)
    requires c < |phases|
    ensures Pending(phases[c := p]) == Pending(phases) - Due(phases[c]) + Due(p)
  {
    var last := |phases| - 1;
    if c == last {
      assert phases[c := p][..last] == phases[..last];
    } else {
      assert phases[c := p][..last] == phases[..last][c := p];
      PendingUpdate(phases[..last], c, p);
    }
  }

  lemma {:induction false} NonePending(phases: seq<Phase>)
    requires forall i | 0 <= i < |phases| :: !phases[i].Stored?
    ensures Pending(phases) == 0
  {
    if phases != [] { NonePending(phases[..|phases| - 1]); }
  }

  /** The number of live rows is the one at the start, plus what was counted, plus what is about to be. */
  predicate RowsOk(s: State, live: int) {
    R.Live(s.repo.rows) == live + s.total + Pending(s.phases)
  }

  lemma OperateLive(rows: seq<Entry>, c: Call, commNode: int32)
    requires Ordinary(c)
    ensures var r := Operate(rows, c, commNode);
      R.Live(r.rows) == R.Live(rows) + if r.ok then Delta(c) else 0
  {
    var i := R.Find(rows, if c.SetCall? then FP_NULL else c.t, 0);
    if i != -1 { R.LiveUpdate(rows, i, if c.SetCall? then c.e else Cleared(commNode)); }
  }

  lemma RowsStep(s: State, calls: seq<Call>, c: nat, commNode: int32, live: int)
    requires c < |calls| == |s.phases| && Ordinary(calls[c]) && !s.phases[c].Finished? && RowsOk(s, live)
    ensures RowsOk(Step(s, calls, c, commNode), live)
  {
    var s' := Step(s, calls, c, commNode);
    PendingUpdate(s.phases, c, s'.phases[c]);
    if s.phases[c].HasRead? { OperateLive(s.repo.rows, calls[c], commNode); }
    assert s'.phases == s.phases[c := s'.phases[c]];
  }

  // ---------------------------------------------------------------- any calls

  /** What the counter misses is what was written over. */
  predicate LedgerOk(s: State, live: int) {
    s.repo.queue + s.lost == live + s.total && (s.serial ==> s.lost == 0) &&
    forall i | 0 <= i < |s.phases| && InFlight(s.phases[i]) ::
      s.phases[i].at <= s.writes && (s.phases[i].at == s.writes ==> s.phases[i].n == s.repo.queue)
  }

  predicate InFlight(p: Phase) { p.HasRead? || p.Stored? }

  lemma LedgerStep(s: State, calls: seq<Call>, c: nat, commNode: int32, live: int)
    requires c < |calls| == |s.phases| && Ordinary(calls[c]) && !s.phases[c].Finished? && LedgerOk(s, live)
    ensures LedgerOk(Step(s, calls, c, commNode), live)
  {
    var s' := Step(s, calls, c, commNode);
    forall i | 0 <= i < |s'.phases| && InFlight(s'.phases[i])
      ensures s'.phases[i].at <= s'.writes && (s'.phases[i].at == s'.writes ==> s'.phases[i].n == s'.repo.queue)
    {
      if i != c { assert InFlight(s.phases[i]); }
    }
  }

  lemma {:induction false} LedgerRun(s: State, calls: seq<Call>, order: seq<nat>, commNode: int32, live: int)
    requires ValidRun(s, calls, order, commNode) && RowsOk(s, live) && LedgerOk(s, live)
    ensures RowsOk(Final(s, calls, order, commNode), live) && LedgerOk(Final(s, calls, order, commNode), live)
    decreases |order|
  {
    if order != [] {
      assert calls[order[0]] in calls;
      RowsStep(s, calls, order[0], commNode, live);
      LedgerStep(s, calls, order[0], commNode, live);
      LedgerRun(Step(s, calls, order[0], commNode), calls, order[1..], commNode, live);
    }
  }

  /**
   * Any number of overlapping calls of any kind: the counter is off by exactly what was written over, and
   * nothing is written over if no call had another's counter write between its own read and its own write.
   */
  lemma CountIsOffByLost(s: State, repo: Repo, calls: seq<Call>, order: seq<nat>, commNode: int32)
    requires Init(s, repo) && Counted(repo) && ValidRun(s, calls, order, commNode)
    requires AllFinished(Final(s, calls, order, commNode))
    ensures var end := Final(s, calls, order, commNode);
      R.Live(end.repo.rows) - end.repo.queue == end.lost && (end.serial ==> Counted(end.repo))
  {
    NonePending(s.phases);
    LedgerRun(s, calls, order, commNode, R.Live(repo.rows));
    NonePending(Final(s, calls, order, commNode).phases);
  }

  // ---------------------------------------------------------------- calls that count the same way

  /** `d` is what each call adds: the counter never gains more than one `d` a write, and each gain only if serial. */
  predicate OneWay(s: State, live: int, d: int) {
    s.total == d * s.writes &&
    (if s.serial then d * (s.repo.queue - live) == s.writes else d * (s.repo.queue - live) < s.writes) &&
    forall i | 0 <= i < |s.phases| && InFlight(s.phases[i]) :: ReadOk(s, s.phases[i], live, d)
  }

  predicate ReadOk(s: State, p: Phase, live: int, d: int)
    requires InFlight(p)
  {
    p.at <= s.writes && d * (p.n - live) <= p.at && (p.at == s.writes ==> p.n == s.repo.queue) &&
    (s.serial ==> d * (p.n - live) == p.at) && (p.Stored? ==> p.delta == d)
  }

  lemma OneWayStep(s: State, calls: seq<Call>, c: nat, commNode: int32, live: int, d: int)
    requires c < |calls| == |s.phases| && Ordinary(calls[c]) && !s.phases[c].Finished?
    requires (d == 1 || d == -1) && Delta(calls[c]) == d && OneWay(s, live, d)
    ensures OneWay(Step(s, calls, c, commNode), live, d)
  {
    var s' := Step(s, calls, c, commNode);
    if InFlight(s.phases[c]) { assert ReadOk(s, s.phases[c], live, d); }
    forall i | 0 <= i < |s'.phases| && InFlight(s'.phases[i]) ensures ReadOk(s', s'.phases[i], live, d) {
      if i != c { assert ReadOk(s, s.phases[i], live, d); }
    }
  }

  lemma {:induction false} OneWayRun(s: State, calls: seq<Call>, order: seq<nat>, commNode: int32, live: int, d: int)
    requires ValidRun(s, calls, order, commNode) && RowsOk(s, live) && OneWay(s, live, d)
    requires (d == 1 || d == -1) && forall i | 0 <= i < |calls| :: Delta(calls[i]) == d
    ensures RowsOk(Final(s, calls, order, commNode), live) && OneWay(Final(s, calls, order, commNode), live, d)
    decreases |order|
  {
    if order != [] {
      assert calls[order[0]] in calls;
      RowsStep(s, calls, order[0], commNode, live);
      OneWayStep(s, calls, order[0], commNode, live, d);
      OneWayRun(Step(s, calls, order[0], commNode), calls, order[1..], commNode, live, d);
    }
  }

  /**
   * Any number of overlapping sets, or of overlapping gets and deletions, in any order of their steps: the
   * counter ends as the number of live rows if and only if no successful call had another's counter write
   * between its own read and its own write.
   */
  lemma CountKeptIffSerial(s: State, repo: Repo, calls: seq<Call>, order: seq<nat>, commNode: int32, d: int)
    requires Init(s, repo) && Counted(repo) && ValidRun(s, calls, order, commNode)
    requires (d == 1 || d == -1) && forall i | 0 <= i < |calls| :: Delta(calls[i]) == d
    requires AllFinished(Final(s, calls, order, commNode))
    ensures var end := Final(s, calls, order, commNode); Counted(end.repo) <==> end.serial
  {
    NonePending(s.phases);
    OneWayRun(s, calls, order, commNode, R.Live(repo.rows), d);
    NonePending(Final(s, calls, order, commNode).phases);
  }

  // ---------------------------------------------------------------- two calls of any kind

  /** The cases of a run of two calls, by how many of them have written. */
  predicate TwoOk(s: State, live: int) {
    |s.phases| == 2 &&
    (s.writes == 0 ==>
      s.serial && s.total == 0 && s.repo.queue == live && FirstOk(s.phases[0], live) && FirstOk(s.phases[1], live)) &&
    (s.writes == 1 ==>
      s.serial && s.repo.queue == live + s.total && (s.total == 1 || s.total == -1) &&
      (s.phases[0].Finished? || s.phases[1].Finished?) && SecondOk(s, s.phases[0], live) &&
      SecondOk(s, s.phases[1], live)) &&
    (s.writes >= 2 ==> AllFinished(s) && (s.serial <==> s.repo.queue == live + s.total))
  }

  predicate FirstOk(p: Phase, live: int) {
    InFlight(p) ==> p.n == live && p.at == 0 && (p.Stored? ==> p.delta == 1 || p.delta == -1)
  }

  predicate SecondOk(s: State, p: Phase, live: int) {
    InFlight(p) ==>
      p.at <= 1 && p.n == (if p.at == 0 then live else s.repo.queue) && (p.Stored? ==> p.delta == 1 || p.delta == -1)
  }

  lemma TwoStep(s: State, calls: seq<Call>, c: nat, commNode: int32, live: int)
    requires c < |calls| == |s.phases| && Ordinary(calls[c]) && !s.phases[c].Finished? && TwoOk(s, live)
    ensures TwoOk(Step(s, calls, c, commNode), live)
  {
    var p, q := Step(s, calls, c, commNode).phases[c], s.phases[1 - c];
    assert s.writes == 1 ==> p.Finished? || q.Finished?;
  }

  lemma {:induction false} TwoRun(s: State, calls: seq<Call>, order: seq<nat>, commNode: int32, live: int)
    requires ValidRun(s, calls, order, commNode) && RowsOk(s, live) && TwoOk(s, live)
    ensures RowsOk(Final(s, calls, order, commNode), live) && TwoOk(Final(s, calls, order, commNode), live)
    decreases |order|
  {
    if order != [] {
      assert calls[order[0]] in calls;
      RowsStep(s, calls, order[0], commNode, live);
      TwoStep(s, calls, order[0], commNode, live);
      TwoRun(Step(s, calls, order[0], commNode), calls, order[1..], commNode, live);
    }
  }

  /** Two calls of any kind, a set and a deletion among them: the same condition, exactly. */
  lemma TwoCallsCountIff(s: State, repo: Repo, calls: seq<Call>, order: seq<nat>, commNode: int32)
    requires Init(s, repo) && Counted(repo) && |calls| == 2 && ValidRun(s, calls, order, commNode)
    requires AllFinished(Final(s, calls, order, commNode))
    ensures var end := Final(s, calls, order, commNode); Counted(end.repo) <==> end.serial
  {
    NonePending(s.phases);
    TwoRun(s, calls, order, commNode, R.Live(repo.rows));
    NonePending(Final(s, calls, order, commNode).phases);
  }

  // ---------------------------------------------------------------- a run that miscounts

  lemma RunFirst(s: State, calls: seq<Call>, c: nat, rest: seq<nat>, commNode: int32)
    requires (forall x | x in calls :: Ordinary(x)) && c < |calls| == |s.phases| && !s.phases[c].Finished?
    requires ValidRun(Step(s, calls, c, commNode), calls, rest, commNode)
    ensures ValidRun(s, calls, [c] + rest, commNode)
    ensures Final(s, calls, [c] + rest, commNode) == Final(Step(s, calls, c, commNode), calls, rest, commNode)
  {
    assert ([c] + rest)[1..] == rest;
  }

  lemma {:induction false} FreeRow(rows: seq<Entry>)
    requires R.Live(rows) < |rows|
    ensures R.Find(rows, FP_NULL, 0) != -1
  {
    var last := |rows| - 1;
    if rows[last].time != FP_NULL {
      FreeRow(rows[..last]);
      var i := R.Find(rows[..last], FP_NULL, 0);
      assert rows[i].time == FP_NULL;
    }
  }

  /** Two sets that both read the counter before either writes it store two rows and count one. */
  lemma InterleavedSetsMiscount(s: State, repo: Repo, a: Entry, b: Entry, commNode: int32)
    requires Init(s, repo) && Counted(repo) && |s.phases| == 2
    requires a.time >= 0 && b.time >= 0 && R.Live(repo.rows) + 2 <= |repo.rows|
    ensures var calls, order := [SetCall(a), SetCall(b)], [0] + ([1] + ([0] + ([1] + ([0] + ([1] + [])))));
      ValidRun(s, calls, order, commNode) && AllFinished(Final(s, calls, order, commNode)) &&
      !Counted(Final(s, calls, order, commNode).repo)
  {
    var calls := [SetCall(a), SetCall(b)];
    var s1 := Step(s, calls, 0, commNode);
    var s2 := Step(s1, calls, 1, commNode);
    FreeRow(repo.rows);
    OperateLive(repo.rows, calls[0], commNode);
    var s3 := Step(s2, calls, 0, commNode);
    FreeRow(s3.repo.rows);
    var s4 := Step(s3, calls, 1, commNode);
    var s5 := Step(s4, calls, 0, commNode);
    var s6 := Step(s5, calls, 1, commNode);
    assert ValidRun(s6, calls, [], commNode) && Final(s6, calls, [], commNode) == s6;
    RunFirst(s5, calls, 1, [], commNode);
    RunFirst(s4, calls, 0, [1] + [], commNode);
    RunFirst(s3, calls, 1, [0] + ([1] + []), commNode);
    RunFirst(s2, calls, 0, [1] + ([0] + ([1] + [])), commNode);
    RunFirst(s1, calls, 1, [0] + ([1] + ([0] + ([1] + []))), commNode);
    RunFirst(s, calls, 0, [1] + ([0] + ([1] + ([0] + ([1] + [])))), commNode);
    TwoCallsCountIff(s, repo, calls, [0] + ([1] + ([0] + ([1] + ([0] + ([1] + []))))), commNode);
  }
}
