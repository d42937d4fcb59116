/**
 * A purge that overlaps other flight-plan calls.  dat_purge_fp of src/system/repoData.c takes no lock: it looks at
 * one row after the other, deletes the past ones, and writes how many it counted over the row counter.  Here is
 * every interleaving of those steps with those of the calls of `PlanInterleaving`.
 */
module PurgeInterleaving {
  import opened Memory
  import opened PlanRecord
  import opened PlanRepo
  import opened I = PlanInterleaving

  /** Where the purge is: about to look at row `i`, or to delete it, with `n` rows counted. */
  datatype Purge = Look(i: nat, n: nat) | Delete(i: nat, n: nat) | Over

  /**
   * The calls with the repository, the purge, and two histories: by how much other calls changed the number of
   * live rows among those already scanned, and how many live rows the purge deleted.
   */
  datatype State = State(calls: I.State, purge: Purge, behind: int, removed: nat)

  /** A step of call `c`, or of the purge; `stale` is a flash lookup that left an old time behind for a free row. */
  datatype Event = CallStep(c: nat) | PurgeStep(stale: bool)

  datatype World = World(calls: seq<Call>, now: nat, commNode: int32)

  /** The rows the purge has passed. */
  function Passed(s: State): (r: nat)
    ensures r <= |s.calls.repo.rows|
  {
    if s.purge.Over? || s.purge.i > |s.calls.repo.rows| then 0 else s.purge.i
  }

  predicate Enabled(s: State, w: World, e: Event) {
    match e
    case CallStep(c) => c < |w.calls| == |s.calls.phases| && Ordinary(w.calls[c]) && !s.calls.phases[c].Finished?
    case PurgeStep(_) => !s.purge.Over? && (s.purge.Delete? ==> s.purge.i < |s.calls.repo.rows|)
  }

  function CallNext(s: State, w: World, c: nat): State
    requires Enabled(s, w, CallStep(c))
  {
    var calls := I.Step(s.calls, w.calls, c, w.commNode);
    var k := Passed(s);
    assert |calls.repo.rows| == |s.calls.repo.rows|;
    s.(calls := calls, behind := s.behind + R.Live(calls.repo.rows[..k]) - R.Live(s.calls.repo.rows[..k]))
  }

  function Bool(b: bool): nat { if b then 1 else 0 }

  /** The purge's counter write is one among the others: it writes over what it did not count. */
  function WriteCount(s: I.State, n: nat): I.State {
    s.(repo := s.repo.(queue := n), writes := s.writes + 1, lost := s.lost + s.repo.queue - n)
  }

  function PurgeNext(s: State, w: World, stale: bool): State
    requires Enabled(s, w, PurgeStep(stale))
  {
    var rows := s.calls.repo.rows;
    match s.purge
    case Look(i, n) =>
      if i >= |rows| then s.(calls := WriteCount(s.calls, n), purge := Over)
      else if rows[i].time > w.now + 1 then s.(purge := Look(i + 1, n + 1))
      else if rows[i].time != FP_NULL || stale then s.(purge := Delete(i, n))
      else s.(purge := Look(i + 1, n))
    case Delete(i, n) =>
      s.(calls := s.calls.(repo := s.calls.repo.(rows := R.DeleteIdx(rows, i, w.commNode).rows)),
         purge := Look(i + 1, n), removed := s.removed + Bool(rows[i].time != FP_NULL))
  }

  function Next(s: State, w: World, e: Event): State
    requires Enabled(s, w, e)
  {
    match e
    case CallStep(c) => CallNext(s, w, c)
    case PurgeStep(stale) => PurgeNext(s, w, stale)
  }

  ghost predicate ValidRun(s: State, w: World, es: seq<Event>)
    decreases |es|
  {
    es != [] ==> Enabled(s, w, es[0]) && ValidRun(Next(s, w, es[0]), w, es[1..])
  }

  ghost function Final(s: State, w: World, es: seq<Event>): State
    requires ValidRun(s, w, es)
    decreases |es|
  {
    if es == [] then s else Final(Next(s, w, es[0]), w, es[1..])
  }

  /** Nothing has begun. */
  predicate Init(s: State, repo: Repo) {
    I.Init(s.calls, repo) && s.purge == Look(0, 0) && s.behind == 0 && s.removed == 0
  }

  predicate Ended(s: State) { AllFinished(s.calls) && s.purge.Over? }

  // ---------------------------------------------------------------- what every step keeps

  /** The live rows: those of the start, those of the calls, less those the purge deleted. */
  predicate RowsOk(s: State, live: int) {
    R.Live(s.calls.repo.rows) == live + s.calls.total + Pending(s.calls.phases) - s.removed
  }

  /** The purge has counted the live rows it passed, but for those changed since. */
  predicate ScanOk(s: State) {
    s.purge.Over? || (Passed(s) == s.purge.i && R.Live(s.calls.repo.rows[..s.purge.i]) == s.purge.n + s.behind &&
                      (s.purge.Delete? ==> s.purge.i < |s.calls.repo.rows|))
  }

  /** What the counter misses is what was written over. */
  predicate LedgerOk(s: State, live: int) { s.calls.repo.queue + s.calls.lost == live + s.calls.total }

  predicate Inv(s: State, live: int) { RowsOk(s, live) && ScanOk(s) && LedgerOk(s, live) }

  lemma CallKeeps(s: State, w: World, c: nat, live: int)
    requires Enabled(s, w, CallStep(c)) && Inv(s, live)
    ensures Inv(CallNext(s, w, c), live)
  {
    I.RowsStep(s.calls, w.calls, c, w.commNode, live - s.removed);
  }

  lemma LivePrefix(rows: seq<Entry>, i: nat)
    requires i < |rows|
    ensures R.Live(rows[..i + 1]) == R.Live(rows[..i]) + Bool(rows[i].time != FP_NULL)
  {
    assert rows[..i + 1][..i] == rows[..i];
  }

  lemma DeleteKeeps(s: State, w: World, stale: bool, live: int)
    requires Enabled(s, w, PurgeStep(stale)) && s.purge.Delete? && Inv(s, live)
    ensures Inv(PurgeNext(s, w, stale), live)
  {
    var rows, i := s.calls.repo.rows, s.purge.i;
    var rows' := PurgeNext(s, w, stale).calls.repo.rows;
    R.LiveUpdate(rows, i, Cleared(w.commNode));
    assert rows'[..i] == rows[..i];
    LivePrefix(rows', i);
  }

  lemma PurgeKeeps(s: State, w: World, stale: bool, live: int)
    requires Enabled(s, w, PurgeStep(stale)) && Inv(s, live)
    ensures Inv(PurgeNext(s, w, stale), live)
  {
    if s.purge.Delete? {
      DeleteKeeps(s, w, stale, live);
    } else if s.purge.i < |s.calls.repo.rows| {
      LivePrefix(s.calls.repo.rows, s.purge.i);
    }
  }

  lemma {:induction false} RunKeeps(s: State, w: World, es: seq<Event>, live: int)
    requires ValidRun(s, w, es) && Inv(s, live)
    ensures Inv(Final(s, w, es), live)
    decreases |es|
  {
    if es != [] {
      match es[0] {
        case CallStep(c) => CallKeeps(s, w, c, live);
        case PurgeStep(stale) => PurgeKeeps(s, w, stale, live);
      }
      RunKeeps(Next(s, w, es[0]), w, es[1..], live);
    }
  }

  /**
   * A purge and any number of other calls: the counter is off by what was written over, the purge's own write
   * included, less the live rows the purge deleted.
   */
  lemma PurgedCountIsOff(s: State, repo: Repo, w: World, es: seq<Event>)
    requires Init(s, repo) && Counted(repo) && ValidRun(s, w, es) && Ended(Final(s, w, es))
    ensures var end := Final(s, w, es);
      R.Live(end.calls.repo.rows) - end.calls.repo.queue == end.calls.lost - end.removed
  {
    NonePending(s.calls.phases);
    RunKeeps(s, w, es, R.Live(repo.rows));
    NonePending(Final(s, w, es).calls.phases);
  }

  /**
   * If the purge writes the counter last, it is off by exactly what other calls changed behind the scan, so it is
   * right if and only if they left the number of live rows there as it was.
   */
  lemma PurgeLastCountIff(s: State, repo: Repo, w: World, es: seq<Event>, stale: bool)
    requires Init(s, repo) && Counted(repo) && ValidRun(s, w, es) && AllFinished(Final(s, w, es).calls)
    requires Final(s, w, es).purge.Look? && Final(s, w, es).purge.i >= |Final(s, w, es).calls.repo.rows|
    ensures var end := Next(Final(s, w, es), w, PurgeStep(stale));
      Ended(end) && R.Live(end.calls.repo.rows) - end.calls.repo.queue == end.behind &&
      (Counted(end.calls.repo) <==> end.behind == 0)
  {
    NonePending(s.calls.phases);
    RunKeeps(s, w, es, R.Live(repo.rows));
    var done := Final(s, w, es);
    assert done.calls.repo.rows[..done.purge.i] == done.calls.repo.rows;
  }

  // ---------------------------------------------------------------- one call and a purge

  predicate Touched(p: Phase) { p.Stored? || p.Finished? }

  /** The cases of a run of one call: before the purge's counter write, and after it. */
  predicate OneOk(s: State, live: int) {
    |s.calls.phases| == 1 && var p := s.calls.phases[0];
    (!Touched(p) ==> s.calls.total == 0 && s.behind == 0 && s.calls.serial) && (p.Stored? ==> s.calls.serial) &&
    (if s.purge.Over? then AfterPurge(s, p, live) else BeforePurge(s, p, live))
  }

  predicate BeforePurge(s: State, p: Phase, live: int) {
    s.calls.serial && (!p.Finished? ==> s.calls.writes == 0 && s.calls.total == 0 && s.calls.repo.queue == live) &&
    (InFlight(p) ==> p.n == live && p.at == 0)
  }

  /** A call that had read the counter before will write the old one back; one that reads it now finds it right. */
  predicate AfterPurge(s: State, p: Phase, live: int) {
    var right := Counted(s.calls.repo);
    s.calls.writes >= 1 &&
    match p
    case Start => right && s.calls.writes == 1
    case HasRead(n, at) => right && at <= 1 == s.calls.writes && n == (if at == 1 then s.calls.repo.queue else live)
    case Stored(n, at, delta) =>
      at <= 1 == s.calls.writes && s.calls.total == 0 &&
      (if at == 1 then R.Live(s.calls.repo.rows) == n + delta && s.behind == 0 else n == live)
    case Finished => right <==> if s.calls.serial then s.behind == 0 else s.removed == 0
  }

  lemma OneCallStep(s: State, w: World, live: int)
    requires Enabled(s, w, CallStep(0)) && Inv(s, live) && OneOk(s, live)
    ensures OneOk(CallNext(s, w, 0), live)
  {
    CallKeeps(s, w, 0, live);
    assert Pending(s.calls.phases) == Due(s.calls.phases[0]) by { OnePending(s.calls.phases); }
    var s' := CallNext(s, w, 0);
    assert Pending(s'.calls.phases) == Due(s'.calls.phases[0]) by { OnePending(s'.calls.phases); }
    if s.calls.phases[0].HasRead? { OperateLive(s.calls.repo.rows, w.calls[0], w.commNode); }
  }

  lemma OnePending(phases: seq<Phase>)
    requires |phases| == 1
    ensures Pending(phases) == Due(phases[0])
  {
    assert phases[..0] == [];
  }

  lemma OnePurgeStep(s: State, w: World, stale: bool, live: int)
    requires Enabled(s, w, PurgeStep(stale)) && Inv(s, live) && OneOk(s, live)
    ensures OneOk(PurgeNext(s, w, stale), live)
  {
    PurgeKeeps(s, w, stale, live);
    OnePending(s.calls.phases);
    if s.purge.Look? && s.purge.i >= |s.calls.repo.rows| {
      assert s.calls.repo.rows[..s.purge.i] == s.calls.repo.rows;
    }
  }

  lemma {:induction false} OneRun(s: State, w: World, es: seq<Event>, live: int)
    requires ValidRun(s, w, es) && Inv(s, live) && OneOk(s, live) && |w.calls| == 1
    ensures OneOk(Final(s, w, es), live)
    decreases |es|
  {
    if es != [] {
      match es[0] {
        case CallStep(c) =>
          CallKeeps(s, w, c, live);
          OneCallStep(s, w, live);
        case PurgeStep(stale) =>
          PurgeKeeps(s, w, stale, live);
          OnePurgeStep(s, w, stale, live);
      }
      OneRun(Next(s, w, es[0]), w, es[1..], live);
    }
  }

  /**
   * A purge that overlaps one set, get or deletion, exactly.  If the call read the counter before the purge wrote
   * it and wrote it after, the counter is right if and only if the purge deleted no live row; otherwise it is right
   * if and only if the call changed no row the purge had passed.
   */
  lemma PurgeAndCallCountIff(s: State, repo: Repo, w: World, es: seq<Event>)
    requires Init(s, repo) && Counted(repo) && |w.calls| == |s.calls.phases| == 1
    requires ValidRun(s, w, es) && Ended(Final(s, w, es))
    ensures var end := Final(s, w, es);
      Counted(end.calls.repo) <==> if end.calls.serial then end.behind == 0 else end.removed == 0
  {
    NonePending(s.calls.phases);
    OneRun(s, w, es, R.Live(repo.rows));
  }

  // ---------------------------------------------------------------- a run that miscounts

  lemma RunFirst(s: State, w: World, e: Event, rest: seq<Event>)
    requires Enabled(s, w, e) && ValidRun(Next(s, w, e), w, rest)
    ensures ValidRun(s, w, [e] + rest) && Final(s, w, [e] + rest) == Final(Next(s, w, e), w, rest)
  {
    assert ([e] + rest)[1..] == rest;
  }

  /** The purge looks at the only row, a set fills and counts it, the purge writes its own count. */
  function SetBehindScan(): seq<Event> {
    [PurgeStep(false)] + ([CallStep(0)] + ([CallStep(0)] + ([CallStep(0)] + ([PurgeStep(false)] + []))))
  }

  /** A set behind the scan is not counted. */
  lemma PurgeMissesSet(s: State, repo: Repo, w: World, e: Entry)
    requires Init(s, repo) && Counted(repo) && |repo.rows| == 1 && repo.rows[0].time == FP_NULL
    requires |s.calls.phases| == 1 && w.calls == [SetCall(e)] && e.time >= 0
    ensures ValidRun(s, w, SetBehindScan()) && Ended(Final(s, w, SetBehindScan()))
    ensures var end := Final(s, w, SetBehindScan()).calls.repo; R.Live(end.rows) == 1 && end.queue == 0
  {
    R.LiveZero(repo.rows);
    var s1 := Next(s, w, PurgeStep(false));
    var s2 := Next(s1, w, CallStep(0));
    OperateLive(repo.rows, w.calls[0], w.commNode);
    var s3 := Next(s2, w, CallStep(0));
    var s4 := Next(s3, w, CallStep(0));
    var s5 := Next(s4, w, PurgeStep(false));
    assert ValidRun(s5, w, []) && Final(s5, w, []) == s5;
    RunFirst(s4, w, PurgeStep(false), []);
    RunFirst(s3, w, CallStep(0), [PurgeStep(false)] + []);
    RunFirst(s2, w, CallStep(0), [CallStep(0)] + ([PurgeStep(false)] + []));
    RunFirst(s1, w, CallStep(0), [CallStep(0)] + ([CallStep(0)] + ([PurgeStep(false)] + [])));
    RunFirst(s, w, PurgeStep(false), [CallStep(0)] + ([CallStep(0)] + ([CallStep(0)] + ([PurgeStep(false)] + []))));
  }
}
