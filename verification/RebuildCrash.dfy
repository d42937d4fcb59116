/**
 * Power lost inside a rebuild of the flash flight plan.  flight_plan_rebuild_tlb erases section 0 first and
 * then writes the live records back one by one; what a reboot finds depends on how many rounds were done.
 */
module RebuildCrash {
  import opened Options
  import opened Memory
  import opened PlanRecord
  import opened FlashPlan
  import opened Compaction
  import opened PlanRefinement
  import opened PlanCrash

  // ---------------------------------------------------------------- the first rounds

  /** Rounds `i` to `stop - 1` of the rebuild. */
  function Rounds(cfg: Config, st: Store, buffer: seq<byte>, i: nat, stop: nat): (r: Store)
    requires Shape(cfg, st) && i <= stop <= cfg.max && |buffer| == PAGE * cfg.cps && Rebuildable(cfg, st, i)
    ensures Shape(cfg, r)
    decreases stop - i
  {
    if i == stop then st else
      RebuildableStep(cfg, st, buffer, i);
      Rounds(cfg, RebuildStep(cfg, st, buffer, i), buffer, i + 1, stop)
  }

  /** All of them make up the rebuild loop. */
  lemma {:induction false} AllRounds(cfg: Config, st: Store, buffer: seq<byte>, i: nat)
    requires Shape(cfg, st) && i <= cfg.max && |buffer| == PAGE * cfg.cps && Rebuildable(cfg, st, i)
    ensures Rounds(cfg, st, buffer, i, cfg.max) == RebuildFrom(cfg, st, buffer, i)
    decreases cfg.max - i
  {
    if i < cfg.max {
      RebuildableStep(cfg, st, buffer, i);
      AllRounds(cfg, RebuildStep(cfg, st, buffer, i), buffer, i + 1);
    }
  }

  // ---------------------------------------------------------------- flash

  /** The containers of section 0 from number `m` on are erased. */
  predicate ErasedFrom(cfg: Config, st: Store, m: nat)
    requires Shape(cfg, st)
  {
    forall n | m <= n < cfg.cps :: ErasedAt(cfg, st, n)
  }

  predicate ErasedAt(cfg: Config, st: Store, n: nat)
    requires Shape(cfg, st) && n < cfg.cps
  {
    Peek(st.flash, cfg.base + PAGE * n, PAGE) == Zeros(PAGE)
  }

  lemma StartErased(cfg: Config, st: Store)
    requires Shape(cfg, st)
    ensures ErasedFrom(cfg, RebuildStart(cfg, st), 0)
  {
    forall n | 0 <= n < cfg.cps ensures ErasedAt(cfg, RebuildStart(cfg, st), n) {
      PokeThenPeekInside(st.flash, cfg.base, Zeros(PAGE * cfg.cps), cfg.base + PAGE * n, PAGE);
    }
  }

  lemma ErasedKept(cfg: Config, st: Store, st': Store, m: nat, block: seq<byte>)
    requires Shape(cfg, st) && Shape(cfg, st') && m < cfg.cps && |block| == PAGE && ErasedFrom(cfg, st, m)
    requires st'.flash == Poke(st.flash, cfg.base + PAGE * m, block)
    ensures ErasedFrom(cfg, st', m + 1)
  {
    forall n | m < n < cfg.cps ensures ErasedAt(cfg, st', n) {
      assert ErasedAt(cfg, st, n);
      PokeThenPeek(st.flash, cfg.base + PAGE * m, block, cfg.base + PAGE * n, PAGE);
    }
  }

  lemma StepErased(cfg: Config, st: Store, buffer: seq<byte>, i: nat)
    requires Shape(cfg, st) && i < cfg.max && |buffer| == PAGE * cfg.cps && Rebuildable(cfg, st, i)
    requires ErasedFrom(cfg, st, Used(cfg, st))
    ensures IsLive(st, i) ==> Used(cfg, st) < cfg.cps
    ensures var st' := RebuildStep(cfg, st, buffer, i); ErasedFrom(cfg, st', Used(cfg, st'))
  {
    NextFits(cfg, st, i);
    if IsLive(st, i) {
      StepTlb(cfg, st, buffer, i);
      StepFlash(cfg, st, buffer, i);
      ErasedKept(cfg, st, RebuildStep(cfg, st, buffer, i), Used(cfg, st), Block(buffer, SlotOf(cfg, st.tlb[i].addr)));
    }
  }

  // ---------------------------------------------------------------- FRAM

  /** What a reboot makes of the store: the used counter of the FRAM is the old one until a record was moved. */
  function Persisted(cfg: Config, st: Store, done: Store, i: nat): (r: Store)
    requires Shape(cfg, st) && Shape(cfg, done) && i <= cfg.max
    ensures Shape(cfg, r)
  {
    if LiveUpTo(st.tlb, i) == 0 then done.(tlb := done.tlb[cfg.max := st.tlb[cfg.max]]) else done
  }

  lemma StartImage(cfg: Config, st: Store)
    requires Shape(cfg, st) && Mirror(cfg, st)
    ensures Mirror(cfg, Persisted(cfg, st, RebuildStart(cfg, st), 0))
  {
    assert Persisted(cfg, st, RebuildStart(cfg, st), 0).tlb == st.tlb;
    forall k | 0 <= k <= cfg.max ensures ImageAt(cfg, Persisted(cfg, st, RebuildStart(cfg, st), 0), k) {
      assert ImageAt(cfg, st, k);
    }
  }

  /** A round that moves a record saves both entries it changes. */
  lemma StepImage(cfg: Config, done: Store, buffer: seq<byte>, i: nat)
    requires Shape(cfg, done) && i < cfg.max && |buffer| == PAGE * cfg.cps && Rebuildable(cfg, done, i)
    requires IsLive(done, i)
    requires forall k | 0 <= k < cfg.max :: ImageAt(cfg, done, k)
    ensures Used(cfg, done) < cfg.cps
    ensures Mirror(cfg, RebuildStep(cfg, done, buffer, i))
  {
    NextFits(cfg, done, i);
    var n := Used(cfg, done);
    SlotAddrIs(cfg, n);
    var st1 := Update(cfg, done, i, done.tlb[i].time, cfg.SlotAddr(n));
    UpdateMirror(cfg, done, i, done.tlb[i].time, cfg.SlotAddr(n));
    forall k | 0 <= k <= cfg.max ensures ImageAt(cfg, RebuildStep(cfg, done, buffer, i), k) {
      assert ImageAt(cfg, st1, k);
    }
  }

  /** The state of flash and FRAM before round `i`. */
  predicate Going(cfg: Config, orig: Store, st: Store, buffer: seq<byte>, i: nat)
    requires Shape(cfg, orig) && RebuildSafe(cfg, orig) && |buffer| == PAGE * cfg.cps && i <= cfg.max
  {
    Shape(cfg, st) && Rebuildable(cfg, st, i) && Moved(cfg, orig, st, buffer, i) &&
    ErasedFrom(cfg, st, Used(cfg, st)) && Mirror(cfg, Persisted(cfg, orig, st, i))
  }

  lemma GoingImage(cfg: Config, orig: Store, st: Store, buffer: seq<byte>, i: nat)
    requires Shape(cfg, orig) && RebuildSafe(cfg, orig) && |buffer| == PAGE * cfg.cps && i < cfg.max
    requires Going(cfg, orig, st, buffer, i)
    ensures IsLive(st, i) ==> Used(cfg, st) < cfg.cps
    ensures Mirror(cfg, Persisted(cfg, orig, RebuildStep(cfg, st, buffer, i), i + 1))
  {
    assert st.tlb[i] == orig.tlb[i];
    NextFits(cfg, st, i);
    if IsLive(st, i) {
      forall k | 0 <= k < cfg.max ensures ImageAt(cfg, st, k) {
        assert ImageAt(cfg, Persisted(cfg, orig, st, i), k);
      }
      StepImage(cfg, st, buffer, i);
    }
  }

  lemma GoingStep(cfg: Config, orig: Store, st: Store, buffer: seq<byte>, i: nat)
    requires Shape(cfg, orig) && RebuildSafe(cfg, orig) && |buffer| == PAGE * cfg.cps && i < cfg.max
    requires Going(cfg, orig, st, buffer, i)
    ensures IsLive(st, i) ==> Used(cfg, st) < cfg.cps
    ensures Going(cfg, orig, RebuildStep(cfg, st, buffer, i), buffer, i + 1)
  {
    RebuildableStep(cfg, st, buffer, i);
    MovedStep(cfg, orig, st, buffer, i);
    StepErased(cfg, st, buffer, i);
    GoingImage(cfg, orig, st, buffer, i);
  }

  lemma {:induction false} GoingOn(cfg: Config, orig: Store, st: Store, buffer: seq<byte>, i: nat, stop: nat)
    requires Shape(cfg, orig) && RebuildSafe(cfg, orig) && |buffer| == PAGE * cfg.cps && i <= stop <= cfg.max
    requires Going(cfg, orig, st, buffer, i)
    ensures Going(cfg, orig, Rounds(cfg, st, buffer, i, stop), buffer, stop)
    decreases stop - i
  {
    if i < stop {
      GoingStep(cfg, orig, st, buffer, i);
      GoingOn(cfg, orig, RebuildStep(cfg, st, buffer, i), buffer, i + 1, stop);
    }
  }

  /** The store when `i` rounds are done. */
  function RebuildTo(cfg: Config, st: Store, buffer: seq<byte>, i: nat): (r: Store)
    requires Shape(cfg, st) && RebuildSafe(cfg, st) && |buffer| == PAGE * cfg.cps && i <= cfg.max
    ensures Shape(cfg, r)
  {
    StartRebuildable(cfg, st);
    Rounds(cfg, RebuildStart(cfg, st), buffer, 0, i)
  }

  lemma RebuildIsRounds(cfg: Config, st: Store, junk: seq<byte>)
    requires Shape(cfg, st) && RebuildSafe(cfg, st) && |junk| == PAGE * cfg.cps
    ensures Rebuild(cfg, st, junk) == DumpAll(cfg, RebuildTo(cfg, st, BulkRead(cfg, st, junk), cfg.max))
  {
    StartRebuildable(cfg, st);
    AllRounds(cfg, RebuildStart(cfg, st), BulkRead(cfg, st, junk), 0);
  }

  lemma GoingTo(cfg: Config, st: Store, buffer: seq<byte>, i: nat)
    requires Shape(cfg, st) && RebuildSafe(cfg, st) && |buffer| == PAGE * cfg.cps && i <= cfg.max && Mirror(cfg, st)
    ensures Going(cfg, st, RebuildTo(cfg, st, buffer, i), buffer, i)
  {
    StartRebuildable(cfg, st);
    StartErased(cfg, st);
    StartImage(cfg, st);
    GoingOn(cfg, st, RebuildStart(cfg, st), buffer, 0, i);
  }

  // ---------------------------------------------------------------- what each row leads to

  /** The live row, among the first `i`, that the rebuild moves to container `n`. */
  function RowAt(tlb: seq<TlbEntry>, i: nat, n: nat): (r: nat)
    requires i <= |tlb| && n < LiveUpTo(tlb, i)
    ensures r < i && tlb[r].time != FP_NULL && LiveUpTo(tlb, r) == n
  {
    if LiveUpTo(tlb, i - 1) == n then i - 1 else RowAt(tlb, i - 1, n)
  }

  /** An unmoved row leads to the container it was in. */
  lemma SameContainer(cfg: Config, st: Store, done: Store, buffer: seq<byte>, i: nat, k: nat, n: nat)
    requires Shape(cfg, st) && RebuildSafe(cfg, st) && |buffer| == PAGE * cfg.cps && i <= k < cfg.max
    requires Going(cfg, st, done, buffer, i) && IsLive(st, k) && n == SlotOf(cfg, st.tlb[k].addr)
    ensures n < cfg.cps && done.tlb[k].addr == cfg.base + PAGE * n
  {
    assert done.tlb[k] == st.tlb[k];
  }

  predicate LeadsTo(st: Store, k: nat, data: seq<byte>)
    requires k < |st.tlb|
  {
    st.tlb[k].addr + PAGE <= |st.flash| && Container(st, k) == data
  }

  lemma PackedLeads(cfg: Config, st: Store, j: nat, n: nat, data: seq<byte>, k: nat)
    requires Shape(cfg, st) && j < cfg.max && k < cfg.max && Packed(cfg, st, j, n, data)
    requires st.tlb[k].addr == cfg.base + PAGE * n
    ensures LeadsTo(st, k, data)
  {
  }

  lemma ErasedLeads(cfg: Config, st: Store, n: nat, k: nat)
    requires Shape(cfg, st) && k < cfg.max && n < cfg.cps && ErasedAt(cfg, st, n)
    requires st.tlb[k].addr == cfg.base + PAGE * n
    ensures LeadsTo(st, k, Zeros(PAGE))
  {
  }

  /** The live row whose record row `k` leads to when `i` rounds are done: itself, or a row moved to its container. */
  function Leads(cfg: Config, st: Store, i: nat, k: nat): (r: Option<nat>)
    requires Shape(cfg, st) && RebuildSafe(cfg, st) && i <= cfg.max && k < cfg.max && IsLive(st, k)
    ensures r.Some? ==> r.value < cfg.max && IsLive(st, r.value) && (r.value < i || r.value == k)
  {
    var n: nat := SlotOf(cfg, st.tlb[k].addr);
    if k < i then Some(k)
    else if n < LiveUpTo(st.tlb, i) then Some(RowAt(st.tlb, i, n))
    else None
  }

  lemma RowLeads(cfg: Config, st: Store, done: Store, buffer: seq<byte>, i: nat, k: nat)
    requires Shape(cfg, st) && RebuildSafe(cfg, st) && |buffer| == PAGE * cfg.cps && i <= cfg.max
    requires Going(cfg, st, done, buffer, i) && k < cfg.max && IsLive(st, k)
    ensures var who := Leads(cfg, st, i, k);
      LeadsTo(done, k, if who.Some? then Saved(cfg, st, buffer, who.value) else Zeros(PAGE))
  {
    var n: nat := SlotOf(cfg, st.tlb[k].addr);
    if k < i {
      PackedAt(cfg, st, done, buffer, i, k);
      PackedLeads(cfg, done, k, LiveUpTo(st.tlb, k), Saved(cfg, st, buffer, k), k);
    } else {
      SameContainer(cfg, st, done, buffer, i, k, n);
      if n < LiveUpTo(st.tlb, i) {
        var j := RowAt(st.tlb, i, n);
        PackedAt(cfg, st, done, buffer, i, j);
        PackedLeads(cfg, done, j, n, Saved(cfg, st, buffer, j), k);
      } else {
        ErasedLeads(cfg, done, n, k);
      }
    }
  }

  // ---------------------------------------------------------------- what a reboot finds

  /** Reboot when `i` rounds of the rebuild are done. */
  function CrashInRounds(cfg: Config, st: Store, junk: seq<byte>, i: nat): (r: Store)
    requires Shape(cfg, st) && RebuildSafe(cfg, st) && |junk| == PAGE * cfg.cps && i <= cfg.max
    ensures Shape(cfg, r)
  {
    Reboot(cfg, RebuildTo(cfg, st, BulkRead(cfg, st, junk), i))
  }

  lemma RebootFinds(cfg: Config, st: Store, done: Store, i: nat)
    requires Shape(cfg, st) && Shape(cfg, done) && i <= cfg.max && Mirror(cfg, Persisted(cfg, st, done, i))
    ensures Reboot(cfg, done) == Persisted(cfg, st, done, i)
  {
    RebootRestores(cfg, Persisted(cfg, st, done, i));
  }

  const BLANK := Entry(0, 0, 0, 0, [], [])

  /** The record live row `k` reads as: its own, that of a row moved to its old container, or an erased one. */
  function Left(cfg: Config, st: Store, rows: seq<Entry>, i: nat, k: nat): Entry
    requires Shape(cfg, st) && RebuildSafe(cfg, st) && |rows| == cfg.entries && TimesOk(cfg, st, rows)
    requires i <= cfg.max && k < cfg.entries && LiveRow(rows, k)
  {
    assert IsLive(st, k);
    var who := Leads(cfg, st, i, k);
    if who.Some? then rows[who.value] else BLANK
  }

  lemma SavedRecord(cfg: Config, st: Store, rows: seq<Entry>, ranks: seq<nat>, junk: seq<byte>, k: nat)
    requires Rep(cfg, st, rows, ranks) && RebuildSafe(cfg, st) && |junk| == PAGE * cfg.cps
    requires k < cfg.entries && LiveRow(rows, k) && IsLive(st, k) && Covered(cfg, st, k)
    ensures Decode(Saved(cfg, st, BulkRead(cfg, st, junk), k)) == rows[k]
  {
    SavedIs(cfg, st, junk, k);
    assert RowOk(cfg, st, rows, ranks, k);
    DecodeEncode(rows[k]);
  }

  lemma RowLeft(cfg: Config, st: Store, done: Store, rows: seq<Entry>, ranks: seq<nat>, junk: seq<byte>, i: nat, k: nat)
    requires Rep(cfg, st, rows, ranks) && RebuildSafe(cfg, st) && ReadCovers(cfg, st) && |junk| == PAGE * cfg.cps
    requires i <= cfg.max && Going(cfg, st, done, BulkRead(cfg, st, junk), i) && k < cfg.entries && LiveRow(rows, k)
    ensures Reads(done, k, Left(cfg, st, rows, i, k))
  {
    var buffer := BulkRead(cfg, st, junk);
    RowLeads(cfg, st, done, buffer, i, k);
    var who := Leads(cfg, st, i, k);
    if who.Some? {
      SavedRecord(cfg, st, rows, ranks, junk, who.value);
    } else {
      BlankRecord();
    }
  }

  /** After the reboot every row has the time it had, and every live row reads as `Left` says. */
  predicate Found(cfg: Config, st: Store, st': Store, rows: seq<Entry>, i: nat)
    requires Shape(cfg, st) && RebuildSafe(cfg, st) && |rows| == cfg.entries && TimesOk(cfg, st, rows)
    requires Shape(cfg, st') && i <= cfg.max
  {
    TimesOk(cfg, st', rows) &&
    forall k | 0 <= k < cfg.entries && LiveRow(rows, k) :: Reads(st', k, Left(cfg, st, rows, i, k))
  }

  /**
   * Power lost when `i` rounds are done.  No row changes its time; a moved row reads as its record, another one
   * as the record of whatever row was moved to its old container, or as an erased container.  The used counter
   * is the number of records moved, or still the old one if there was none.
   */
  lemma CrashInRebuild(cfg: Config, st: Store, rows: seq<Entry>, ranks: seq<nat>, junk: seq<byte>, i: nat)
    requires Rep(cfg, st, rows, ranks) && RebuildSafe(cfg, st) && ReadCovers(cfg, st) && |junk| == PAGE * cfg.cps
    requires i <= cfg.max
    ensures var st', moved := CrashInRounds(cfg, st, junk, i), LiveUpTo(st.tlb, i);
      Found(cfg, st, st', rows, i) && Used(cfg, st') == if moved == 0 then Used(cfg, st) else moved
  {
    var buffer := BulkRead(cfg, st, junk);
    var done := RebuildTo(cfg, st, buffer, i);
    GoingTo(cfg, st, buffer, i);
    RebootFinds(cfg, st, done, i);
    var st' := CrashInRounds(cfg, st, junk, i);
    forall k | 0 <= k < cfg.entries && LiveRow(rows, k) ensures Reads(st', k, Left(cfg, st, rows, i, k)) {
      RowLeft(cfg, st, done, rows, ranks, junk, i, k);
    }
  }

  // ---------------------------------------------------------------- when the plan survives

  /** Live rows hold different records, none of them the erased one. */
  predicate Told(rows: seq<Entry>) {
    (forall j, k | 0 <= j < k < |rows| && LiveRow(rows, j) && LiveRow(rows, k) :: rows[j] != rows[k]) &&
    forall k | 0 <= k < |rows| && LiveRow(rows, k) :: rows[k] != BLANK
  }

  predicate AllKept(cfg: Config, st': Store, rows: seq<Entry>)
    requires Shape(cfg, st') && |rows| == cfg.entries
  {
    forall k | 0 <= k < cfg.entries && LiveRow(rows, k) :: Reads(st', k, rows[k])
  }

  /** A row keeps its record exactly when its round is over, if the records can be told apart. */
  lemma KeptIff(cfg: Config, st: Store, rows: seq<Entry>, i: nat, k: nat)
    requires Shape(cfg, st) && RebuildSafe(cfg, st) && |rows| == cfg.entries && TimesOk(cfg, st, rows) && Told(rows)
    requires i <= cfg.max && k < cfg.entries && LiveRow(rows, k)
    ensures Left(cfg, st, rows, i, k) == rows[k] <==> k < i
  {
  }

  /** The first live row from `i` on, if there is one. */
  lemma {:induction false} LiveAfter(tlb: seq<TlbEntry>, i: nat, j: nat) returns (k: nat)
    requires i <= j <= |tlb| && LiveUpTo(tlb, i) < LiveUpTo(tlb, j)
    ensures i <= k < j && tlb[k].time != FP_NULL
  {
    if tlb[j - 1].time != FP_NULL { k := j - 1; } else { k := LiveAfter(tlb, i, j - 1); }
  }

  lemma FoundAllIff(cfg: Config, st: Store, st': Store, rows: seq<Entry>, i: nat)
    requires Shape(cfg, st) && RebuildSafe(cfg, st) && |rows| == cfg.entries && TimesOk(cfg, st, rows) && Told(rows)
    requires Shape(cfg, st') && i <= cfg.max && Found(cfg, st, st', rows, i)
    ensures AllKept(cfg, st', rows) <==> LiveUpTo(st.tlb, i) == LiveUpTo(st.tlb, cfg.max)
  {
    LiveGrows(st.tlb, i, cfg.max);
    if LiveUpTo(st.tlb, i) < LiveUpTo(st.tlb, cfg.max) {
      var k := LiveAfter(st.tlb, i, cfg.max);
      KeptIff(cfg, st, rows, i, k);
      assert Reads(st', k, Left(cfg, st, rows, i, k));
    } else {
      forall k | 0 <= k < cfg.entries && LiveRow(rows, k) ensures Reads(st', k, rows[k]) {
        if k >= i {
          LiveGrows(st.tlb, i, k);
          LiveGrows(st.tlb, k, cfg.max);
        }
        KeptIff(cfg, st, rows, i, k);
        assert Reads(st', k, Left(cfg, st, rows, i, k));
      }
    }
  }

  /**
   * A plan whose records can be told apart survives a loss of power inside the rebuild, if and only if every live
   * row was moved before.
   */
  lemma PlanSurvivesIff(cfg: Config, st: Store, rows: seq<Entry>, ranks: seq<nat>, junk: seq<byte>, i: nat)
    requires Rep(cfg, st, rows, ranks) && RebuildSafe(cfg, st) && ReadCovers(cfg, st) && |junk| == PAGE * cfg.cps
    requires i <= cfg.max && Told(rows)
    ensures AllKept(cfg, CrashInRounds(cfg, st, junk, i), rows) <==> LiveUpTo(st.tlb, i) == LiveUpTo(st.tlb, cfg.max)
  {
    CrashInRebuild(cfg, st, rows, ranks, junk, i);
    FoundAllIff(cfg, st, CrashInRounds(cfg, st, junk, i), rows, i);
  }
}
