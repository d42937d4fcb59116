/** How far the flash flight plan can be driven: runs from a reset that reach the end of what it can do. */
module PlanLimits {
  import opened Memory
  import opened PlanRecord
  import opened FlashPlan
  import opened Compaction
  import opened PlanRefinement

  /** Set and delete row 0, `n` times; then, with `more`, one set. */
  function Churn(e: Entry, junk: seq<byte>, n: nat, more: bool): seq<Op> {
    if n == 0 then (if more then [SetOp(e, junk)] else [])
    else [SetOp(e, junk), DeleteIdxOp(0)] + Churn(e, junk, n - 1, more)
  }

  predicate AllFree(rows: seq<Entry>) { forall i | 0 <= i < |rows| :: rows[i].time == FP_NULL }

  /** The store of an empty table, some containers used, and an entry for it. */
  predicate Churnable(cfg: Config, st: Store, rows: seq<Entry>, ranks: seq<nat>, e: Entry, junk: seq<byte>) {
    Rep(cfg, st, rows, ranks) && AllFree(rows) &&
    cfg.entries > 0 && e.time >= 0 && e.Storable() && |junk| == PAGE * cfg.cps
  }

  lemma {:induction false} NoneLive(tlb: seq<TlbEntry>, i: nat)
    requires i <= |tlb| && forall k | 0 <= k < i :: tlb[k].time == FP_NULL
    ensures LiveUpTo(tlb, i) == 0
  {
    if i > 0 { NoneLive(tlb, i - 1); }
  }

  lemma EmptyFits(cfg: Config, st: Store, rows: seq<Entry>, ranks: seq<nat>, e: Entry, junk: seq<byte>)
    requires Churnable(cfg, st, rows, ranks, e, junk) && (Used(cfg, st) == cfg.cps ==> cfg.max >= cfg.cps)
    ensures OpFits(cfg, st, SetOp(e, junk)) && LiveUpTo(st.tlb, cfg.max) == 0
    ensures R.Set(rows, e) == R.Result(true, rows[0 := e])
  {
    assert R.Find(rows, FP_NULL, 0) == 0;
    forall k | 0 <= k < cfg.max ensures st.tlb[k].time == FP_NULL {
      if k < cfg.entries { assert rows[k].time == FP_NULL; }
    }
    NoneLive(st.tlb, cfg.max);
  }

  /** The store after a set and a deletion of row 0. */
  function AfterPair(cfg: Config, st: Store, e: Entry, junk: seq<byte>): (r: Store)
    requires Shape(cfg, st) && |junk| == PAGE * cfg.cps && SetSafe(cfg, st, e)
    ensures Shape(cfg, r)
  {
    FlashPlan.DeleteIdx(cfg, FlashPlan.Set(cfg, st, e, junk).st, 0).st
  }

  lemma PairSafe(cfg: Config, st: Store, rows: seq<Entry>, ranks: seq<nat>, e: Entry, junk: seq<byte>)
    requires Churnable(cfg, st, rows, ranks, e, junk) && (Used(cfg, st) == cfg.cps ==> cfg.max >= cfg.cps)
    ensures OpFits(cfg, st, SetOp(e, junk)) && SetSafe(cfg, st, e)
  {
    EmptyFits(cfg, st, rows, ranks, e, junk);
    SetIsSafe(cfg, st, rows, ranks, e);
  }

  /** A set in the empty table takes row 0. */
  lemma FirstSet(cfg: Config, st: Store, rows: seq<Entry>, ranks: seq<nat>, e: Entry, junk: seq<byte>)
    returns (ranks': seq<nat>)
    requires Churnable(cfg, st, rows, ranks, e, junk) && (Used(cfg, st) == cfg.cps ==> cfg.max >= cfg.cps)
    requires SetSafe(cfg, st, e)
    ensures var end := FlashPlan.Set(cfg, st, e, junk).st;
      Rep(cfg, end, rows[0 := e], ranks') && Used(cfg, end) == if Used(cfg, st) > cfg.cps then 1 else Used(cfg, st) + 1
  {
    EmptyFits(cfg, st, rows, ranks, e, junk);
    ranks' := SetRep(cfg, st, rows, ranks, e, junk);
  }

  /** A pair uses up one container; past section 0 it rebuilds an empty one and uses its first. */
  lemma PairUses(cfg: Config, st: Store, rows: seq<Entry>, ranks: seq<nat>, e: Entry, junk: seq<byte>, commNode: int32)
    returns (rows': seq<Entry>, ranks': seq<nat>)
    requires Churnable(cfg, st, rows, ranks, e, junk) && (Used(cfg, st) == cfg.cps ==> cfg.max >= cfg.cps)
    requires SetSafe(cfg, st, e)
    ensures var end := AfterPair(cfg, st, e, junk);
      Churnable(cfg, end, rows', ranks', e, junk) &&
      Used(cfg, end) == if Used(cfg, st) > cfg.cps then 1 else Used(cfg, st) + 1
  {
    ranks' := FirstSet(cfg, st, rows, ranks, e, junk);
    DeleteIdxRep(cfg, FlashPlan.Set(cfg, st, e, junk).st, rows[0 := e], ranks', 0, commNode);
    rows' := R.DeleteIdx(rows[0 := e], 0, commNode).rows;
  }

  // ---------------------------------------------------------------- a set that leaves the arrays

  /** One set more, on the container just past section 0. */
  lemma SetPast(cfg: Config, st: Store, rows: seq<Entry>, ranks: seq<nat>, e: Entry, junk: seq<byte>)
    requires Churnable(cfg, st, rows, ranks, e, junk) && Used(cfg, st) == cfg.cps <= cfg.max
    ensures OpFits(cfg, st, SetOp(e, junk)) && SetSafe(cfg, st, e)
    ensures var end := FlashStep(cfg, st, SetOp(e, junk)).0; Used(cfg, end) == cfg.cps + 1 && !SetSafe(cfg, end, e)
  {
    EmptyFits(cfg, st, rows, ranks, e, junk);
    SetIsSafe(cfg, st, rows, ranks, e);
    FindAgrees(cfg, st, rows, FP_NULL);
    var end := FlashStep(cfg, st, SetOp(e, junk)).0;
    var ranks' := SetRep(cfg, st, rows, ranks, e, junk);
    WriteEffect(cfg, st, 0, e);
    assert end.tlb[0].addr == cfg.base + PAGE * cfg.cps && IsLive(end, 0);
    SetSafeIff(cfg, end, R.Set(rows, e).rows, ranks', e);
  }

  /** The run stays in range, and a set after it does not. */
  ghost predicate EndsUnsafe(cfg: Config, st: Store, ops: seq<Op>, e: Entry)
    requires Shape(cfg, st)
  {
    RunFits(cfg, st, ops) && !SetSafe(cfg, FlashRun(cfg, st, ops).0, e)
  }

  lemma RunFirst(cfg: Config, st: Store, op: Op, rest: seq<Op>)
    requires Shape(cfg, st) && OpFits(cfg, st, op) && RunFits(cfg, FlashStep(cfg, st, op).0, rest)
    ensures RunFits(cfg, st, [op] + rest)
    ensures FlashRun(cfg, st, [op] + rest).0 == FlashRun(cfg, FlashStep(cfg, st, op).0, rest).0
  {
    assert ([op] + rest)[1..] == rest;
  }

  /** A run that begins with such a pair. */
  lemma RunPair(cfg: Config, st: Store, e: Entry, junk: seq<byte>, rest: seq<Op>)
    requires Shape(cfg, st) && OpFits(cfg, st, SetOp(e, junk)) && SetSafe(cfg, st, e)
    requires RunFits(cfg, AfterPair(cfg, st, e, junk), rest)
    ensures var ops := [SetOp(e, junk), DeleteIdxOp(0)] + rest;
      RunFits(cfg, st, ops) && FlashRun(cfg, st, ops).0 == FlashRun(cfg, AfterPair(cfg, st, e, junk), rest).0
  {
    var a, b := SetOp(e, junk), DeleteIdxOp(0);
    RunFirst(cfg, FlashStep(cfg, st, a).0, b, rest);
    RunFirst(cfg, st, a, [b] + rest);
    assert [a] + ([b] + rest) == [a, b] + rest;
  }

  lemma UnsafePair(cfg: Config, st: Store, e: Entry, junk: seq<byte>, rest: seq<Op>)
    requires Shape(cfg, st) && OpFits(cfg, st, SetOp(e, junk)) && SetSafe(cfg, st, e)
    requires EndsUnsafe(cfg, AfterPair(cfg, st, e, junk), rest, e)
    ensures EndsUnsafe(cfg, st, [SetOp(e, junk), DeleteIdxOp(0)] + rest, e)
  {
    RunPair(cfg, st, e, junk, rest);
  }

  lemma ChurnEnds(cfg: Config, st: Store, rows: seq<Entry>, ranks: seq<nat>, e: Entry, junk: seq<byte>)
    requires Churnable(cfg, st, rows, ranks, e, junk) && Used(cfg, st) == cfg.cps
    ensures EndsUnsafe(cfg, st, Churn(e, junk, 0, cfg.max >= cfg.cps), e)
  {
    if cfg.max >= cfg.cps {
      SetPast(cfg, st, rows, ranks, e, junk);
      RunFirst(cfg, st, SetOp(e, junk), []);
      assert [SetOp(e, junk)] + [] == [SetOp(e, junk)];
    } else {
      assert R.Find(rows, FP_NULL, 0) == 0;
      SetSafeIff(cfg, st, rows, ranks, e);
    }
  }

  lemma {:induction false} ChurnRun(
    cfg: Config, st: Store, rows: seq<Entry>, ranks: seq<nat>, e: Entry, junk: seq<byte>, n: nat, commNode: int32)
    requires Churnable(cfg, st, rows, ranks, e, junk) && Used(cfg, st) + n == cfg.cps
    ensures EndsUnsafe(cfg, st, Churn(e, junk, n, cfg.max >= cfg.cps), e)
    decreases n
  {
    if n == 0 {
      ChurnEnds(cfg, st, rows, ranks, e, junk);
    } else {
      PairSafe(cfg, st, rows, ranks, e, junk);
      var rows', ranks' := PairUses(cfg, st, rows, ranks, e, junk, commNode);
      ChurnRun(cfg, AfterPair(cfg, st, e, junk), rows', ranks', e, junk, n - 1, commNode);
      UnsafePair(cfg, st, e, junk, Churn(e, junk, n - 1, cfg.max >= cfg.cps));
    }
  }

  /**
   * No bound on successful sets is better than commands_per_section: in every configuration a run of that many
   * sets and deletions from a reset, with one set more if the table can outgrow a section, stays in range and
   * leaves a store whose next set does not: it indexes past the section addresses, or past the buffer of the
   * rebuild.
   */
  lemma OneSectionIsTight(cfg: Config, st: Store, e: Entry, junk: seq<byte>, commNode: int32)
    requires Shape(cfg, st) && cfg.base + cfg.Sections() * (PAGE * cfg.cps) <= |st.flash|
    requires cfg.entries > 0 && e.time >= 0 && e.Storable() && |junk| == PAGE * cfg.cps
    ensures EndsUnsafe(cfg, Reset(cfg, st), Churn(e, junk, cfg.cps, cfg.max >= cfg.cps), e)
  {
    ResetRep(cfg, st, commNode);
    ChurnRun(cfg, Reset(cfg, st), EmptyTable(cfg, commNode), seq(cfg.entries, _ => 0), e, junk, cfg.cps, commNode);
  }

  // ---------------------------------------------------------------- a container that wears out

  /** How many more pairs of a set and a deletion bring the store to the container past section 0 a second time. */
  function PairsLeft(cfg: Config, st: Store): nat
    requires Shape(cfg, st) && Used(cfg, st) <= cfg.cps + 1
  {
    if Used(cfg, st) > cfg.cps then cfg.cps
    else if cfg.cps in st.worn then cfg.cps - Used(cfg, st)
    else 2 * cfg.cps + 1 - Used(cfg, st)
  }

  /** A pair marks that container exactly if it is the one used. */
  lemma PairWears(cfg: Config, st: Store, rows: seq<Entry>, ranks: seq<nat>, e: Entry, junk: seq<byte>)
    requires Churnable(cfg, st, rows, ranks, e, junk) && SetSafe(cfg, st, e) && cfg.max >= cfg.cps
    ensures cfg.cps in AfterPair(cfg, st, e, junk).worn <==> cfg.cps in st.worn || Used(cfg, st) == cfg.cps
  {
    EmptyFits(cfg, st, rows, ranks, e, junk);
    StoresIff(cfg, st, rows, e);
    SetWears(cfg, st, rows, ranks, e, junk);
  }

  lemma SetWears(cfg: Config, st: Store, rows: seq<Entry>, ranks: seq<nat>, e: Entry, junk: seq<byte>)
    requires Rep(cfg, st, rows, ranks) && |junk| == PAGE * cfg.cps && SetSafe(cfg, st, e) && Stores(cfg, st, e)
    ensures cfg.cps in FlashPlan.Set(cfg, st, e, junk).st.worn <==> cfg.cps in st.worn || NextSlot(cfg, st) == cfg.cps
  {
    var st1 := MakeRoom(cfg, st, junk);
    MakeRoomUsed(cfg, st, junk);
    SameTimesFind(cfg, st, st1);
    RoomKeepsWorn(cfg, st, junk);
    WriteEffect(cfg, st1, Find(cfg, st1.tlb, FP_NULL, 0), e);
  }

  /** The space check does not erase the container past section 0. */
  lemma RoomKeepsWorn(cfg: Config, st: Store, junk: seq<byte>)
    requires Shape(cfg, st) && |junk| == PAGE * cfg.cps && RoomSafe(cfg, st)
    ensures cfg.cps in MakeRoom(cfg, st, junk).worn <==> cfg.cps in st.worn
  {
    if Used(cfg, st) > cfg.cps { RebuildPacks(cfg, st, junk); }
  }

  /** The run stays in range, and programs a container twice. */
  ghost predicate EndsWorn(cfg: Config, st: Store, ops: seq<Op>)
    requires Shape(cfg, st)
  {
    RunFits(cfg, st, ops) && !FlashRun(cfg, st, ops).0.clean
  }

  lemma WornPair(cfg: Config, st: Store, e: Entry, junk: seq<byte>, rest: seq<Op>)
    requires Shape(cfg, st) && OpFits(cfg, st, SetOp(e, junk)) && SetSafe(cfg, st, e)
    requires EndsWorn(cfg, AfterPair(cfg, st, e, junk), rest)
    ensures EndsWorn(cfg, st, [SetOp(e, junk), DeleteIdxOp(0)] + rest)
  {
    RunPair(cfg, st, e, junk, rest);
  }

  lemma WearEnds(cfg: Config, st: Store, rows: seq<Entry>, ranks: seq<nat>, e: Entry, junk: seq<byte>)
    requires Churnable(cfg, st, rows, ranks, e, junk) && Used(cfg, st) == cfg.cps <= cfg.max && cfg.cps in st.worn
    ensures EndsWorn(cfg, st, [SetOp(e, junk)])
  {
    EmptyFits(cfg, st, rows, ranks, e, junk);
    StoresIff(cfg, st, rows, e);
    StepCleanIff(cfg, st, rows, ranks, SetOp(e, junk));
    RunFirst(cfg, st, SetOp(e, junk), []);
    assert [SetOp(e, junk)] + [] == [SetOp(e, junk)];
  }

  /** Each pair brings it one nearer. */
  lemma PairNearer(cfg: Config, st: Store, rows: seq<Entry>, ranks: seq<nat>, e: Entry, junk: seq<byte>,
      commNode: int32)
    returns (rows': seq<Entry>, ranks': seq<nat>)
    requires Churnable(cfg, st, rows, ranks, e, junk) && cfg.max >= cfg.cps && PairsLeft(cfg, st) > 0
    ensures OpFits(cfg, st, SetOp(e, junk)) && SetSafe(cfg, st, e)
    ensures Churnable(cfg, AfterPair(cfg, st, e, junk), rows', ranks', e, junk)
    ensures PairsLeft(cfg, AfterPair(cfg, st, e, junk)) == PairsLeft(cfg, st) - 1
  {
    PairSafe(cfg, st, rows, ranks, e, junk);
    rows', ranks' := PairUses(cfg, st, rows, ranks, e, junk, commNode);
    PairWears(cfg, st, rows, ranks, e, junk);
  }

  lemma {:induction false} WearRun(
    cfg: Config, st: Store, rows: seq<Entry>, ranks: seq<nat>, e: Entry, junk: seq<byte>, n: nat, commNode: int32)
    requires Churnable(cfg, st, rows, ranks, e, junk) && cfg.max >= cfg.cps && n == PairsLeft(cfg, st)
    ensures EndsWorn(cfg, st, Churn(e, junk, n, true))
    decreases n
  {
    if n == 0 {
      WearEnds(cfg, st, rows, ranks, e, junk);
    } else {
      var rows', ranks' := PairNearer(cfg, st, rows, ranks, e, junk, commNode);
      WearRun(cfg, AfterPair(cfg, st, e, junk), rows', ranks', e, junk, n - 1, commNode);
      WornPair(cfg, st, e, junk, Churn(e, junk, n - 1, true));
    }
  }

  /**
   * Where the table can outgrow a section, a run of 2 * commands_per_section + 1 sets and deletions from a reset and
   * one set more stays in range, with the answers of the RAM table, and programs a container twice: the rebuild in
   * the middle of it does not erase the container past section 0.
   */
  lemma ContainerWearsOut(cfg: Config, st: Store, e: Entry, junk: seq<byte>, commNode: int32)
    requires Shape(cfg, st) && cfg.base + cfg.Sections() * (PAGE * cfg.cps) <= |st.flash| && cfg.max >= cfg.cps
    requires cfg.entries > 0 && e.time >= 0 && e.Storable() && |junk| == PAGE * cfg.cps
    ensures var ops := Churn(e, junk, 2 * cfg.cps + 1, true);
      EndsWorn(cfg, Reset(cfg, st), ops) &&
      FlashRun(cfg, Reset(cfg, st), ops).1 == RamRun(EmptyTable(cfg, commNode), commNode, ops).1
  {
    var ops := Churn(e, junk, 2 * cfg.cps + 1, true);
    ResetRep(cfg, st, commNode);
    WearRun(cfg, Reset(cfg, st), EmptyTable(cfg, commNode), seq(cfg.entries, _ => 0), e, junk,
            2 * cfg.cps + 1, commNode);
    FlashRefinesRam(cfg, st, ops, commNode);
  }
}
