/**
 * The flight-plan task, src/system/taskFlightPlan.c: once a second it fetches the row due at that
 * second, re-arms it if it is periodic, and sends its command.
 */
module Scheduler {
  import opened Memory
  import opened PlanRecord
  import opened PlanRepo

  const TIME_MAX := 0x7FFF_FFFF

  /** A command sent at a second. */
  datatype Firing = Firing(time: int, cmd: seq<byte>, args: seq<byte>)

  predicate Periodic(e: Entry) { e.period > 0 && e.executions > 1 }

  /** Everything a row asks for: its command at its time, then after each period while executions last. */
  function Expand(time: int, executions: int, period: int, cmd: seq<byte>, args: seq<byte>): (r: seq<Firing>)
    ensures |r| >= 1
    decreases executions
  {
    [Firing(time, cmd, args)] +
    if period > 0 && executions > 1 then Expand(time + period, executions - 1, period, cmd, args) else []
  }

  /** How often a firing occurs in a sequence. */
  function Times(s: seq<Firing>, f: Firing): nat {
    if s == [] then 0 else (if s[0] == f then 1 else 0) + Times(s[1..], f)
  }

  function RowTimes(e: Entry, f: Firing): nat {
    if e.time == FP_NULL then 0 else Times(Expand(e.time, e.executions, e.period, e.cmd, e.args), f)
  }

  /** How often a table asks for a firing. */
  function Asked(rows: seq<Entry>, f: Firing): nat {
    if rows == [] then 0 else Asked(rows[..|rows| - 1], f) + RowTimes(rows[|rows| - 1], f)
  }

  /** All of a row's firings are at times an int holds. */
  predicate TimesFit(time: int, executions: int, period: int)
    decreases executions
  {
    time <= TIME_MAX && (period > 0 && executions > 1 ==> TimesFit(time + period, executions - 1, period))
  }

  predicate RowFits(e: Entry) {
    e.time != FP_NULL ==> e.time >= 0 && TimesFit(e.time, e.executions, e.period)
  }

  predicate Fits(rows: seq<Entry>) { forall i | 0 <= i < |rows| :: RowFits(rows[i]) }

  /** The row a periodic row becomes once it has fired. */
  function Rearmed(e: Entry, commNode: int32): Entry
    requires e.time >= 0 && Periodic(e) && e.time + e.period <= TIME_MAX
  {
    Entry(e.time + e.period, e.executions - 1, e.period, commNode, e.cmd, e.args)
  }

  /** One round of the task at second `now`: the new repository and what was sent. */
  function Tick(s: Repo, now: int32, commNode: int32): (Repo, seq<Firing>)
    requires R.HasStrings(s.rows, now)
  {
    var (ok, e, s1) := GetFp(s, now, commNode);
    if !ok then (s1, []) else
      var s2 :=
        if Periodic(e) && e.time >= 0 && e.time + e.period <= TIME_MAX then SetFp(s1, Rearmed(e, commNode)).1 else s1;
      (s2, [Firing(now, e.cmd, e.args)])
  }

  /** `k` consecutive seconds from `now`. */
  function Run(s: Repo, now: nat, k: nat, commNode: int32): (Repo, seq<Firing>)
    requires now + k <= TIME_MAX
    decreases k
  {
    if k == 0 then (s, []) else
      var (s1, sent) := Tick(s, now, commNode);
      var (s2, rest) := Run(s1, now + 1, k - 1, commNode);
      (s2, sent + rest)
  }

  // ---------------------------------------------------------------- expansion

  /** In closed form: max(1, n) firings, `p` apart, when the period is positive; one otherwise. */
  lemma {:induction false} ExpandIs(time: int, n: int, p: int, cmd: seq<byte>, args: seq<byte>)
    ensures var r := Expand(time, n, p, cmd, args);
      |r| == (if p > 0 && n > 1 then n else 1) &&
      forall k | 0 <= k < |r| :: r[k] == Firing(time + k * p, cmd, args)
    decreases n
  {
    if p > 0 && n > 1 {
      ExpandIs(time + p, n - 1, p, cmd, args);
      var r, rest := Expand(time, n, p, cmd, args), Expand(time + p, n - 1, p, cmd, args);
      forall k | 0 <= k < |r| ensures r[k] == Firing(time + k * p, cmd, args) {
        if k > 0 {
          assert r[k] == rest[k - 1];
          assert time + p + (k - 1) * p == time + k * p;
        }
      }
    }
  }

  lemma {:induction false} TimesAppend(a: seq<Firing>, b: seq<Firing>, f: Firing)
    ensures Times(a + b, f) == Times(a, f) + Times(b, f)
  {
    if a == [] {
      assert a + b == b;
    } else {
      assert (a + b)[1..] == a[1..] + b;
      TimesAppend(a[1..], b, f);
    }
  }

  lemma {:induction false} TimesIn(s: seq<Firing>, f: Firing)
    ensures Times(s, f) > 0 <==> f in s
  {
    if s != [] { TimesIn(s[1..], f); }
  }

  lemma {:induction false} AskedUpdate(rows: seq<Entry>, i: nat, e: Entry, f: Firing)
    requires i < |rows|
    ensures Asked(rows[i := e], f) + RowTimes(rows[i], f) == Asked(rows, f) + RowTimes(e, f)
  {
    var last := |rows| - 1;
    if i == last {
      assert rows[i := e][..last] == rows[..last];
    } else {
      assert rows[i := e][..last] == rows[..last][i := e];
      AskedUpdate(rows[..last], i, e, f);
    }
  }

  lemma {:induction false} RowIsAsked(rows: seq<Entry>, i: nat, f: Firing)
    requires i < |rows|
    ensures RowTimes(rows[i], f) <= Asked(rows, f)
  {
    var last := |rows| - 1;
    if i < last { RowIsAsked(rows[..last], i, f); }
  }

  function First(e: Entry): Firing { Firing(e.time, e.cmd, e.args) }

  lemma FirstIsAsked(e: Entry)
    requires e.time != FP_NULL
    ensures RowTimes(e, First(e)) > 0
  {
    TimesIn(Expand(e.time, e.executions, e.period, e.cmd, e.args), First(e));
  }

  lemma {:induction false} NothingLive(rows: seq<Entry>, f: Firing)
    requires forall i | 0 <= i < |rows| :: rows[i].time == FP_NULL
    ensures Asked(rows, f) == 0
  {
    if rows != [] { NothingLive(rows[..|rows| - 1], f); }
  }

  // ---------------------------------------------------------------- one second

  lemma ExpandSplits(time: int, n: int, p: int, cmd: seq<byte>, args: seq<byte>, f: Firing)
    ensures Times(Expand(time, n, p, cmd, args), f) ==
      (if f == Firing(time, cmd, args) then 1 else 0) +
      if p > 0 && n > 1 then Times(Expand(time + p, n - 1, p, cmd, args), f) else 0
  {
    var rest := if p > 0 && n > 1 then Expand(time + p, n - 1, p, cmd, args) else [];
    assert Expand(time, n, p, cmd, args)[1..] == rest;
  }

  /** Firing a row and re-arming it splits off exactly its first firing. */
  lemma RearmSplits(e: Entry, commNode: int32, f: Firing)
    requires e.time != FP_NULL && RowFits(e)
    ensures Periodic(e) ==> e.time + e.period <= TIME_MAX && RowFits(Rearmed(e, commNode))
    ensures RowTimes(e, f) ==
      (if f == First(e) then 1 else 0) + if Periodic(e) then RowTimes(Rearmed(e, commNode), f) else 0
  {
    ExpandSplits(e.time, e.executions, e.period, e.cmd, e.args, f);
    assert Periodic(e) ==> TimesFit(e.time + e.period, e.executions - 1, e.period);
  }

  /** The table after the row at `i` fired. */
  function After(rows: seq<Entry>, i: nat, commNode: int32): seq<Entry>
    requires i < |rows| && rows[i].time >= 0 && RowFits(rows[i])
  {
    var cleared := rows[i := Cleared(commNode)];
    if !Periodic(rows[i]) then cleared else
      RearmSplits(rows[i], commNode, First(rows[i]));
      assert cleared[i].time == FP_NULL;
      cleared[R.Find(cleared, FP_NULL, 0) := Rearmed(rows[i], commNode)]
  }

  /** What one second does: the first row due now fires; its own row is free again, so re-arming finds room. */
  lemma TickIs(s: Repo, now: int32, commNode: int32)
    requires Fits(s.rows) && now >= 0
    ensures var i := R.Find(s.rows, now, 0); var (s', sent) := Tick(s, now, commNode);
      if i == -1 then s'.rows == s.rows && sent == []
      else s'.rows == After(s.rows, i, commNode) && sent == [First(s.rows[i])]
  {
    var i := R.Find(s.rows, now, 0);
    if i != -1 {
      RearmSplits(s.rows[i], commNode, First(s.rows[i]));
      assert s.rows[i := Cleared(commNode)][i].time == FP_NULL;
    }
  }

  lemma AfterConserves(rows: seq<Entry>, i: nat, commNode: int32, f: Firing)
    requires i < |rows| && rows[i].time >= 0 && Fits(rows)
    ensures Fits(After(rows, i, commNode))
    ensures Asked(rows, f) == (if f == First(rows[i]) then 1 else 0) + Asked(After(rows, i, commNode), f)
  {
    var e := rows[i];
    var cleared := rows[i := Cleared(commNode)];
    AskedUpdate(rows, i, Cleared(commNode), f);
    RearmSplits(e, commNode, f);
    if Periodic(e) {
      assert cleared[i].time == FP_NULL;
      AskedUpdate(cleared, R.Find(cleared, FP_NULL, 0), Rearmed(e, commNode), f);
    }
  }

  /**
   * One second conserves firings: what the table asked for is what was sent plus what the table asks
   * for now.
   */
  lemma TickConserves(s: Repo, now: int32, commNode: int32, f: Firing)
    requires Fits(s.rows) && now >= 0
    ensures var (s', sent) := Tick(s, now, commNode);
      Fits(s'.rows) && Asked(s.rows, f) == Times(sent, f) + Asked(s'.rows, f)
  {
    TickIs(s, now, commNode);
    var i := R.Find(s.rows, now, 0);
    if i != -1 { AfterConserves(s.rows, i, commNode, f); }
  }

  /** The second that passed: what is sent is due now, and if nothing is sent nothing was due. */
  lemma TickSends(s: Repo, now: int32, commNode: int32)
    requires R.HasStrings(s.rows, now)
    ensures var sent := Tick(s, now, commNode).1;
      |sent| <= 1 && (forall f | f in sent :: f.time == now) &&
      (sent == [] ==> Tick(s, now, commNode).0.rows == s.rows && forall i | 0 <= i < |s.rows| :: s.rows[i].time != now)
  {
  }

  // ---------------------------------------------------------------- every run

  /**
   * Schedule conservation.  After any number of consecutive seconds, the firings sent and the
   * firings the table still asks for add up to what it asked for at the start.
   */
  lemma {:induction false} ScheduleConserved(s: Repo, now: nat, k: nat, commNode: int32, f: Firing)
    requires Fits(s.rows) && now + k <= TIME_MAX
    ensures var (s', sent) := Run(s, now, k, commNode);
      Fits(s'.rows) && Asked(s.rows, f) == Times(sent, f) + Asked(s'.rows, f)
    decreases k
  {
    if k > 0 {
      TickConserves(s, now, commNode, f);
      var (s1, sent) := Tick(s, now, commNode);
      ScheduleConserved(s1, now + 1, k - 1, commNode, f);
      TimesAppend(sent, Run(s1, now + 1, k - 1, commNode).1, f);
    }
  }

  predicate Increasing(s: seq<Firing>) {
    forall i, j | 0 <= i < j < |s| :: s[i].time < s[j].time
  }

  /** At most one command is sent a second, in order of time, inside the seconds observed. */
  lemma {:induction false} SentInOrder(s: Repo, now: nat, k: nat, commNode: int32)
    requires now + k <= TIME_MAX
    ensures var sent := Run(s, now, k, commNode).1;
      (forall f | f in sent :: now <= f.time < now + k) && Increasing(sent)
    decreases k
  {
    if k > 0 {
      TickSends(s, now, commNode);
      var (s1, head) := Tick(s, now, commNode);
      SentInOrder(s1, now + 1, k - 1, commNode);
      var rest := Run(s1, now + 1, k - 1, commNode).1;
      var sent := head + rest;
      assert forall f | f in sent :: f in head || f in rest;
      forall i, j | 0 <= i < j < |sent| ensures sent[i].time < sent[j].time {
        assert sent[j] == rest[j - |head|] && sent[j] in rest;
        if i < |head| { assert sent[i] == head[i] && sent[i] in head; } else { assert sent[i] == rest[i - |head|]; }
      }
    }
  }

  /** No two of the firings asked for share a second. */
  ghost predicate NoClash(rows: seq<Entry>) {
    forall f, g | Asked(rows, f) > 0 && Asked(rows, g) > 0 && f.time == g.time :: f == g && Asked(rows, f) == 1
  }

  /** No row is already overdue. */
  predicate NoneLate(rows: seq<Entry>, now: int) {
    forall i | 0 <= i < |rows| :: rows[i].time == FP_NULL || rows[i].time >= now
  }

  /** A row of the new table that is not in the future was due exactly at `now`, and another one was sent. */
  lemma StaysLate(s: Repo, now: nat, commNode: int32, j: nat)
    requires Fits(s.rows) && now < TIME_MAX && NoneLate(s.rows, now)
    requires j < |Tick(s, now, commNode).0.rows|
    requires var e := Tick(s, now, commNode).0.rows[j]; e.time != FP_NULL && e.time <= now
    ensures Tick(s, now, commNode).0.rows[j].time == now
    ensures R.Find(s.rows, now, 0) != -1
  {
    TickIs(s, now, commNode);
    var i := R.Find(s.rows, now, 0);
    if i != -1 {
      assert RowFits(s.rows[i]);
      if Periodic(s.rows[i]) { RearmSplits(s.rows[i], commNode, First(s.rows[i])); }
    }
  }

  /** Without clashes no row stays behind: one that did would have clashed with the one sent. */
  lemma NoneStaysLate(s: Repo, now: nat, commNode: int32, j: nat)
    requires Fits(s.rows) && now < TIME_MAX && NoneLate(s.rows, now) && NoClash(s.rows)
    requires j < |Tick(s, now, commNode).0.rows|
    ensures var e := Tick(s, now, commNode).0.rows[j]; e.time == FP_NULL || e.time >= now + 1
  {
    var rows' := Tick(s, now, commNode).0.rows;
    var e := rows'[j];
    if e.time != FP_NULL && e.time <= now {
      StaysLate(s, now, commNode, j);
      var i := R.Find(s.rows, now, 0);
      var f, g := First(s.rows[i]), First(e);
      TickIs(s, now, commNode);
      AfterConserves(s.rows, i, commNode, f);
      AfterConserves(s.rows, i, commNode, g);
      FirstIsAsked(e);
      RowIsAsked(rows', j, g);
      assert false;
    }
  }

  lemma TickLeavesNoneLate(s: Repo, now: nat, commNode: int32)
    requires Fits(s.rows) && now < TIME_MAX && NoneLate(s.rows, now) && NoClash(s.rows)
    ensures var s' := Tick(s, now, commNode).0;
      Fits(s'.rows) && NoneLate(s'.rows, now + 1) && NoClash(s'.rows)
  {
    var rows' := Tick(s, now, commNode).0.rows;
    TickConserves(s, now, commNode, Firing(0, [], []));
    forall j | 0 <= j < |rows'| ensures rows'[j].time == FP_NULL || rows'[j].time >= now + 1 {
      NoneStaysLate(s, now, commNode, j);
    }
    forall f, g | Asked(rows', f) > 0 && Asked(rows', g) > 0 && f.time == g.time
      ensures f == g && Asked(rows', f) == 1
    {
      TickConserves(s, now, commNode, f);
      TickConserves(s, now, commNode, g);
    }
  }

  lemma {:induction false} RunLeavesNoneLate(s: Repo, now: nat, k: nat, commNode: int32)
    requires Fits(s.rows) && now + k <= TIME_MAX && NoneLate(s.rows, now) && NoClash(s.rows)
    ensures NoneLate(Run(s, now, k, commNode).0.rows, now + k)
    decreases k
  {
    if k > 0 {
      TickLeavesNoneLate(s, now, commNode);
      RunLeavesNoneLate(Tick(s, now, commNode).0, now + 1, k - 1, commNode);
    }
  }

  /** A table whose rows are all in the future, every firing of which comes before second `now + k`. */
  ghost predicate Covered(rows: seq<Entry>, now: nat, k: nat) {
    Fits(rows) && now + k <= TIME_MAX && NoneLate(rows, now) && forall f | Asked(rows, f) > 0 :: f.time < now + k
  }

  /** At the end of a covered plan without clashes no row is left. */
  lemma NoneLeft(s: Repo, now: nat, k: nat, commNode: int32, j: nat)
    requires Covered(s.rows, now, k) && NoClash(s.rows) && j < |Run(s, now, k, commNode).0.rows|
    ensures Run(s, now, k, commNode).0.rows[j].time == FP_NULL
  {
    RunLeavesNoneLate(s, now, k, commNode);
    var rows' := Run(s, now, k, commNode).0.rows;
    var e := rows'[j];
    if e.time != FP_NULL {
      FirstIsAsked(e);
      RowIsAsked(rows', j, First(e));
      ScheduleConserved(s, now, k, commNode, First(e));
      assert false;
    }
  }

  /** The commands sent are precisely the firings the plan asked for. */
  ghost predicate SentExactly(rows: seq<Entry>, sent: seq<Firing>) {
    forall f: Firing :: Times(sent, f) == Asked(rows, f)
  }

  lemma AllFire(s: Repo, now: nat, k: nat, commNode: int32, f: Firing)
    requires Covered(s.rows, now, k) && NoClash(s.rows)
    ensures Times(Run(s, now, k, commNode).1, f) == Asked(s.rows, f)
  {
    var rows' := Run(s, now, k, commNode).0.rows;
    forall j | 0 <= j < |rows'| ensures rows'[j].time == FP_NULL { NoneLeft(s, now, k, commNode, j); }
    ScheduleConserved(s, now, k, commNode, f);
    NothingLive(rows', f);
  }

  /** Since commands go out one a second, a plan that was sent whole has no clash. */
  lemma SentWhole(rows: seq<Entry>, sent: seq<Firing>)
    requires Increasing(sent) && SentExactly(rows, sent)
    ensures NoClash(rows)
  {
    forall f, g | Asked(rows, f) > 0 && Asked(rows, g) > 0 && f.time == g.time ensures f == g && Asked(rows, f) == 1 {
      assert Times(sent, f) > 0 && Times(sent, g) > 0;
      OneEach(sent, f);
      TimesIn(sent, f);
      TimesIn(sent, g);
    }
  }

  /**
   * Exactly when everything fires.  Over a span of seconds that covers the whole plan, the commands
   * sent are precisely the firings the plan asked for if and only if no two of them share a second.
   */
  lemma AllFireIff(s: Repo, now: nat, k: nat, commNode: int32)
    requires Covered(s.rows, now, k)
    ensures SentExactly(s.rows, Run(s, now, k, commNode).1) <==> NoClash(s.rows)
  {
    var sent := Run(s, now, k, commNode).1;
    if NoClash(s.rows) {
      forall f ensures Times(sent, f) == Asked(s.rows, f) { AllFire(s, now, k, commNode, f); }
    } else if SentExactly(s.rows, sent) {
      SentInOrder(s, now, k, commNode);
      SentWhole(s.rows, sent);
    }
  }

  lemma {:induction false} OneEach(s: seq<Firing>, f: Firing)
    requires Increasing(s)
    ensures Times(s, f) <= 1
  {
    if s != [] {
      OneEach(s[1..], f);
      TimesIn(s[1..], f);
    }
  }

  /** An increasing sequence is determined by what is in it. */
  lemma {:induction false} SameOrder(a: seq<Firing>, b: seq<Firing>)
    requires forall f :: Times(a, f) == Times(b, f)
    requires Increasing(a) && Increasing(b)
    ensures a == b
  {
    if a == [] || b == [] {
      if a != [] { assert Times(a, a[0]) > 0; }
      if b != [] { assert Times(b, b[0]) > 0; }
    } else {
      assert Times(b, a[0]) == Times(a, a[0]) > 0 && Times(a, b[0]) == Times(b, b[0]) > 0;
      TimesIn(b, a[0]);
      TimesIn(a, b[0]);
      assert a[0] == b[0];
      forall f ensures Times(a[1..], f) == Times(b[1..], f) { assert Times(a, f) == Times(b, f); }
      SameOrder(a[1..], b[1..]);
    }
  }

  lemma {:induction false} OnlyRow(rows: seq<Entry>, i: nat, f: Firing)
    requires i < |rows| && forall j | 0 <= j < |rows| && j != i :: rows[j].time == FP_NULL
    ensures Asked(rows, f) == RowTimes(rows[i], f)
  {
    AskedUpdate(rows, i, Cleared(0), f);
    NothingLive(rows[i := Cleared(0)], f);
  }

  lemma {:induction false} ExpandIncreases(time: int, n: int, p: int, cmd: seq<byte>, args: seq<byte>)
    requires p > 0
    ensures var r := Expand(time, n, p, cmd, args); Increasing(r) && forall i | 0 <= i < |r| :: r[i].time >= time
    decreases n
  {
    if n > 1 {
      ExpandIncreases(time + p, n - 1, p, cmd, args);
      var r, rest := Expand(time, n, p, cmd, args), Expand(time + p, n - 1, p, cmd, args);
      assert r == [Firing(time, cmd, args)] + rest;
      forall i | 1 <= i < |r| ensures r[i] == rest[i - 1] {}
    }
  }

  predicate Alone(rows: seq<Entry>, i: nat) {
    i < |rows| && rows[i].time != FP_NULL && rows[i].period > 0 &&
    forall j | 0 <= j < |rows| && j != i :: rows[j].time == FP_NULL
  }

  lemma SingleRowSent(s: Repo, i: nat, now: nat, k: nat, commNode: int32, want: seq<Firing>)
    requires Covered(s.rows, now, k) && Alone(s.rows, i) && Increasing(want) && SentExactly(s.rows, want)
    ensures Run(s, now, k, commNode).1 == want
  {
    SentWhole(s.rows, want);
    var sent := Run(s, now, k, commNode).1;
    forall f ensures Times(sent, f) == Times(want, f) { AllFire(s, now, k, commNode, f); }
    SentInOrder(s, now, k, commNode);
    SameOrder(sent, want);
  }

  /**
   * One row alone: (t, n, p) with p > 0 is sent at t, t+p, ..., t+(max(1,n)-1)p, in that order, and
   * never again.
   */
  lemma SingleRowFires(s: Repo, i: nat, now: nat, k: nat, commNode: int32)
    requires Covered(s.rows, now, k) && Alone(s.rows, i)
    ensures var sent := Run(s, now, k, commNode).1; var e := s.rows[i];
      |sent| == (if e.executions > 1 then e.executions else 1) &&
      forall m | 0 <= m < |sent| :: sent[m] == Firing(e.time + m * e.period, e.cmd, e.args)
  {
    var e := s.rows[i];
    var want := Expand(e.time, e.executions, e.period, e.cmd, e.args);
    forall f ensures Times(want, f) == Asked(s.rows, f) { OnlyRow(s.rows, i, f); }
    ExpandIncreases(e.time, e.executions, e.period, e.cmd, e.args);
    SingleRowSent(s, i, now, k, commNode, want);
    ExpandIs(e.time, e.executions, e.period, e.cmd, e.args);
  }

  // ---------------------------------------------------------------- the task

  /** The body of the task's loop, on the repository object. */
  method RunTick(repo: PlanRepository, now: int32) returns (sent: seq<Firing>)
    requires R.HasStrings(repo.Abs().rows, now)
    modifies repo, repo.table.rows
    ensures (repo.Abs(), sent) == Tick(old(repo.Abs()), now, repo.table.commNode)
  {
    var ok, e := repo.Get(now);
    if !ok { return []; }
    if e.period > 0 && e.executions > 1 && e.time >= 0 && e.time + e.period <= TIME_MAX {
      var _ := repo.Set(Entry(e.time + e.period, e.executions - 1, e.period, repo.table.commNode, e.cmd, e.args));
    }
    return [Firing(now, e.cmd, e.args)];
  }
}
