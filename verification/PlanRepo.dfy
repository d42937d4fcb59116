/**
 * The flight-plan calls of src/system/repoData.c: the table of `RamPlan` and the row counter
 * `dat_fpl_queue` kept beside it.
 */
module PlanRepo {
  import opened Memory
  import opened PlanRecord
  import R = RamPlan

  datatype Repo = Repo(rows: seq<Entry>, queue: int)

  /** The counter tells how many rows are in use. */
  predicate Counted(s: Repo) { s.queue == R.Live(s.rows) }

  predicate HasFree(rows: seq<Entry>) { exists i | 0 <= i < |rows| :: rows[i].time == FP_NULL }

  /** dat_set_fp, run without interruption */
  function SetFp(s: Repo, e: Entry): (bool, Repo) {
    var r := R.Set(s.rows, e);
    (r.ok, Repo(r.rows, if r.ok then s.queue + 1 else s.queue))
  }

  /** dat_get_fp: fetch the row due at `t` and delete it */
  function GetFp(s: Repo, t: int32, commNode: int32): (bool, Entry, Repo)
    requires R.HasStrings(s.rows, t)
  {
    var (ok, e) := R.Get(s.rows, t);
    if !ok then (false, e, s) else
      var d := R.Delete(s.rows, t, commNode);
      (d.ok, e, Repo(d.rows, if d.ok then s.queue - 1 else s.queue))
  }

  /** dat_del_fp */
  function DelFp(s: Repo, t: int32, commNode: int32): (bool, Repo) {
    var d := R.Delete(s.rows, t, commNode);
    (d.ok, Repo(d.rows, if d.ok then s.queue - 1 else s.queue))
  }

  /** dat_reset_fp on the RAM backend */
  function ResetFp(s: Repo, commNode: int32): (bool, Repo) {
    var d := R.Reset(s.rows, commNode);
    (d.ok, Repo(d.rows, if d.ok then 0 else s.queue))
  }

  /** What dat_purge_fp leaves of a table: the rows due after `now + 1`, as they were, and no others. */
  predicate Purged(before: seq<Entry>, after: seq<Entry>, now: nat) {
    |after| == |before| &&
    forall i | 0 <= i < |before| ::
      if before[i].time > now + 1 then after[i] == before[i] else after[i].time == FP_NULL
  }

  /** How many rows it counts. */
  function Kept(rows: seq<Entry>, now: nat): nat {
    if rows == [] then 0 else Kept(rows[..|rows| - 1], now) + if rows[|rows| - 1].time > now + 1 then 1 else 0
  }

  /** The rows it counts are the rows it leaves. */
  lemma {:induction false} PurgeCounts(before: seq<Entry>, after: seq<Entry>, now: nat)
    requires Purged(before, after, now)
    ensures R.Live(after) == Kept(before, now)
  {
    if before != [] {
      var last := |before| - 1;
      assert after[last] == after[..|after|][last];
      PurgeCounts(before[..last], after[..last], now);
    }
  }

  // ---------------------------------------------------------------- one call at a time

  lemma SetKeepsCount(s: Repo, e: Entry)
    requires Counted(s)
    ensures Counted(SetFp(s, e).1)
  {
    var i := R.Find(s.rows, FP_NULL, 0);
    if i != -1 { R.LiveUpdate(s.rows, i, e); }
  }

  lemma GetKeepsCount(s: Repo, t: int32, commNode: int32)
    requires Counted(s) && R.HasStrings(s.rows, t)
    ensures Counted(GetFp(s, t, commNode).2)
  {
    var i := R.Find(s.rows, t, 0);
    if i != -1 { R.LiveUpdate(s.rows, i, Cleared(commNode)); }
  }

  /**
   * Deleting "time -1" succeeds on any free row and still takes one off the counter, so the count
   * survives a deletion exactly when the time is a real one or the table has no free row.
   */
  lemma DelKeepsCountIff(s: Repo, t: int32, commNode: int32)
    requires Counted(s)
    ensures Counted(DelFp(s, t, commNode).1) <==> t != FP_NULL || !HasFree(s.rows)
  {
    var i := R.Find(s.rows, t, 0);
    if i != -1 { R.LiveUpdate(s.rows, i, Cleared(commNode)); }
  }

  /** The RAM reset zeroes the counter but clears one row: the count survives exactly when the rest was free. */
  lemma ResetKeepsCountIff(s: Repo, commNode: int32)
    requires Counted(s) && s.rows != []
    ensures Counted(ResetFp(s, commNode).1) <==> forall i | 1 <= i < |s.rows| :: s.rows[i].time == FP_NULL
  {
    R.ResetEmptiesIff(s.rows, commNode);
  }

  // ---------------------------------------------------------------- runs

  datatype Call =
    | SetCall(e: Entry)
    | GetCall(t: int32)
    | DelCall(t: int32)
    | PurgeCall(now: nat)

  /** One call, run to its end; a purge may put any cleared row where it deletes one. */
  ghost predicate Step(s: Repo, c: Call, s': Repo, commNode: int32) {
    match c
    case SetCall(e) => s' == SetFp(s, e).1
    case GetCall(t) => R.HasStrings(s.rows, t) && s' == GetFp(s, t, commNode).2
    case DelCall(t) => s' == DelFp(s, t, commNode).1
    case PurgeCall(now) => Purged(s.rows, s'.rows, now) && s'.queue == Kept(s.rows, now)
  }

  ghost predicate IsRun(states: seq<Repo>, calls: seq<Call>, commNode: int32) {
    |states| == |calls| + 1 &&
    forall i | 0 <= i < |calls| :: Step(states[i], calls[i], states[i + 1], commNode)
  }

  /** The call does not delete "time -1" while some row is free. */
  predicate Proper(s: Repo, c: Call) {
    c.DelCall? ==> c.t != FP_NULL || !HasFree(s.rows)
  }

  lemma StepKeepsCountIff(s: Repo, c: Call, s': Repo, commNode: int32)
    requires Counted(s) && Step(s, c, s', commNode)
    ensures Counted(s') <==> Proper(s, c)
  {
    match c
    case SetCall(e) => SetKeepsCount(s, e);
    case GetCall(t) => GetKeepsCount(s, t, commNode);
    case DelCall(t) => DelKeepsCountIff(s, t, commNode);
    case PurgeCall(now) => PurgeCounts(s.rows, s'.rows, now);
  }

  /**
   * Counter conservation.  Over any run of sets, gets, deletions and purges executed one at a time,
   * `dat_fpl_queue` is the number of live rows in every state, exactly when no call deletes "time -1"
   * while some row is free.
   */
  lemma {:induction false} CountConservedIff(states: seq<Repo>, calls: seq<Call>, commNode: int32)
    requires IsRun(states, calls, commNode) && Counted(states[0])
    ensures (forall i | 0 <= i < |states| :: Counted(states[i])) <==>
      (forall i | 0 <= i < |calls| :: Proper(states[i], calls[i]))
    decreases |calls|
  {
    if calls != [] {
      var last := |calls| - 1;
      var before, called := states[..last + 1], calls[..last];
      CountConservedIff(before, called, commNode);
      assert forall i | 0 <= i <= last :: before[i] == states[i];
      assert forall i | 0 <= i < last :: called[i] == calls[i];
      if Counted(states[last]) {
        StepKeepsCountIff(states[last], calls[last], states[last + 1], commNode);
      }
    }
  }

  // ---------------------------------------------------------------- the calls themselves

  class PlanRepository {
    const table: R.RamFlightPlan
    var queue: int

    ghost function Abs(): Repo
      reads this, table.rows
    {
      Repo(table.rows[..], queue)
    }

    constructor (entries: nat, commNode: int32)
      ensures fresh(table) && fresh(table.rows) && table.commNode == commNode && |Abs().rows| == entries
      ensures Counted(Abs())
    {
      table := new R.RamFlightPlan(entries, commNode);
      queue := 0;
    }

    method Set(e: Entry) returns (ok: bool)
      modifies this, table.rows
      ensures (ok, Abs()) == SetFp(old(Abs()), e) && Step(old(Abs()), SetCall(e), Abs(), table.commNode)
    {
      var entries := queue;
      ok := table.SetRow(e);
      if ok { queue := entries + 1; }
    }

    method Get(t: int32) returns (ok: bool, e: Entry)
      requires R.HasStrings(Abs().rows, t)
      modifies this, table.rows
      ensures (ok, e, Abs()) == GetFp(old(Abs()), t, table.commNode)
      ensures Step(old(Abs()), GetCall(t), Abs(), table.commNode)
    {
      var entries := queue;
      ok, e := table.GetArgs(t);
      if ok { ok := table.DeleteRow(t); }
      if ok { queue := entries - 1; }
    }

    method Delete(t: int32) returns (ok: bool)
      modifies this, table.rows
      ensures (ok, Abs()) == DelFp(old(Abs()), t, table.commNode) && Step(old(Abs()), DelCall(t), Abs(), table.commNode)
    {
      var entries := queue;
      ok := table.DeleteRow(t);
      if ok { queue := entries - 1; }
    }

    /**
     * dat_purge_fp.  `failsOnFree` is the flash backend, whose lookup by index fails on a free row
     * and leaves the entry variable with the time of an earlier row; `time` starts uninitialized.
     */
    method Purge(now: nat, failsOnFree: bool, uninitialized: int)
      modifies this, table.rows
      ensures Step(old(Abs()), PurgeCall(now), Abs(), table.commNode) && Counted(Abs())
    {
      var fpEntries := 0;
      var time := uninitialized;
      ghost var before := table.rows[..];
      var i := 0;
      while i < table.rows.Length
        invariant 0 <= i <= |before| == table.rows.Length
        invariant fpEntries == Kept(before[..i], now)
        invariant Purged(before[..i], table.rows[..i], now) && table.rows[i..] == before[i..]
      {
        assert table.rows[i] == before[i];
        var ok := !(failsOnFree && table.rows[i].time == FP_NULL);
        if ok { time := table.rows[i].time; }
        if ok && time > now + 1 {
          fpEntries := fpEntries + 1;
        } else if time != FP_NULL {
          var _ := table.DeleteRowIdx(i);
        }
        assert before[..i + 1][..i] == before[..i];
        assert table.rows[i + 1..] == before[i + 1..];
        assert before[..i + 1] == before[..i] + [before[i]];
        i := i + 1;
      }
      assert table.rows[..i] == table.rows[..] && before[..i] == before;
      PurgeCounts(before, table.rows[..], now);
      queue := fpEntries;
    }
  }
}
