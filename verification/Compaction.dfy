/**
 * What flight_plan_rebuild_tlb does to the plan: it packs the live containers at the front of the
 * freshly erased section, each with the bytes its TLB entry led to before -- exactly when the bulk
 * read that saves them reaches every live container.
 */
module Compaction {
  import opened Memory
  import opened FlashPlan

  /** The bulk read, cut to a 16-bit length, reaches every live container. */
  predicate ReadCovers(cfg: Config, st: Store)
    requires Shape(cfg, st) && RebuildSafe(cfg, st)
  {
    forall i | 0 <= i < cfg.max && IsLive(st, i) :: Covered(cfg, st, i)
  }

  /** The bytes a live entry leads to. */
  function Container(st: Store, i: nat): (r: seq<byte>)
    requires i < |st.tlb| && st.tlb[i].addr + PAGE <= |st.flash|
  {
    Peek(st.flash, st.tlb[i].addr, PAGE)
  }

  /** Entry `k` is in container `rank` and leads to `data`. */
  predicate Packed(cfg: Config, st: Store, k: nat, rank: nat, data: seq<byte>)
    requires Shape(cfg, st) && k < cfg.max
  {
    rank <= cfg.cps && st.tlb[k].addr == cfg.base + PAGE * rank && Container(st, k) == data
  }

  /** What the buffer holds of entry `k`. */
  function Saved(cfg: Config, orig: Store, buffer: seq<byte>, k: nat): (r: seq<byte>)
    requires Shape(cfg, orig) && RebuildSafe(cfg, orig) && |buffer| == PAGE * cfg.cps && k < cfg.max && IsLive(orig, k)
    ensures |r| == PAGE
  {
    Block(buffer, SlotOf(cfg, orig.tlb[k].addr))
  }

  /** The state of the rebuild before round `i`. */
  predicate Moved(cfg: Config, orig: Store, st: Store, buffer: seq<byte>, i: nat)
    requires Shape(cfg, orig) && Shape(cfg, st) && RebuildSafe(cfg, orig) && |buffer| == PAGE * cfg.cps && i <= cfg.max
  {
    (forall k | 0 <= k < cfg.max :: st.tlb[k].time == orig.tlb[k].time) &&
    (forall k | i <= k < cfg.max :: st.tlb[k] == orig.tlb[k]) &&
    Used(cfg, st) == LiveUpTo(orig.tlb, i) &&
    (forall k | 0 <= k < i && IsLive(orig, k) ::
      Packed(cfg, st, k, LiveUpTo(orig.tlb, k), Saved(cfg, orig, buffer, k))) &&
    (forall n | n in st.worn :: n < LiveUpTo(orig.tlb, i) || (n >= cfg.cps && n in orig.worn)) &&
    (forall n | n in orig.worn && n >= cfg.cps :: n in st.worn) &&
    st.clean == orig.clean
  }

  lemma StepFlash(cfg: Config, st: Store, buffer: seq<byte>, i: nat)
    requires Shape(cfg, st) && i < cfg.max && |buffer| == PAGE * cfg.cps && IsLive(st, i)
    requires OnSlot(cfg, st.tlb[i].addr) && SlotOf(cfg, st.tlb[i].addr) < cfg.cps && Used(cfg, st) < cfg.cps
    ensures var n := Used(cfg, st); var st' := RebuildStep(cfg, st, buffer, i);
      st'.flash == Poke(st.flash, cfg.base + PAGE * n, Block(buffer, SlotOf(cfg, st.tlb[i].addr))) &&
      st'.worn == st.worn + {n} && st'.clean == (st.clean && n !in st.worn)
  {
    SlotAddrIs(cfg, Used(cfg, st));
  }

  /** Programming another container leaves a packed entry as it was. */
  lemma PackedKept(cfg: Config, st: Store, st': Store, k: nat, rank: nat, data: seq<byte>, n: nat, block: seq<byte>)
    requires Shape(cfg, st) && Shape(cfg, st') && k < cfg.max && Packed(cfg, st, k, rank, data)
    requires n <= cfg.cps && rank != n && |block| == PAGE
    requires st'.flash == Poke(st.flash, cfg.base + PAGE * n, block) && st'.tlb[k] == st.tlb[k]
    ensures Packed(cfg, st', k, rank, data)
  {
    PokeThenPeek(st.flash, cfg.base + PAGE * n, block, st.tlb[k].addr, PAGE);
  }

  lemma PackedNow(cfg: Config, st: Store, st': Store, k: nat, n: nat, block: seq<byte>)
    requires Shape(cfg, st) && Shape(cfg, st') && k < cfg.max && n <= cfg.cps && |block| == PAGE
    requires st'.flash == Poke(st.flash, cfg.base + PAGE * n, block) && st'.tlb[k].addr == cfg.base + PAGE * n
    ensures Packed(cfg, st', k, n, block)
  {
    PokeThenPeek(st.flash, cfg.base + PAGE * n, block, 0, 0);
  }

  lemma PackedStep(cfg: Config, orig: Store, st: Store, buffer: seq<byte>, i: nat, k: nat)
    requires Shape(cfg, orig) && Shape(cfg, st) && RebuildSafe(cfg, orig) && |buffer| == PAGE * cfg.cps && i < cfg.max
    requires Moved(cfg, orig, st, buffer, i) && IsLive(orig, i) && Used(cfg, st) < cfg.cps && k <= i && IsLive(orig, k)
    ensures Packed(cfg, RebuildStep(cfg, st, buffer, i), k, LiveUpTo(orig.tlb, k), Saved(cfg, orig, buffer, k))
  {
    var st' := RebuildStep(cfg, st, buffer, i);
    var rank, data := LiveUpTo(orig.tlb, k), Saved(cfg, orig, buffer, k);
    assert st.tlb[i] == orig.tlb[i];
    StepTlb(cfg, st, buffer, i);
    StepFlash(cfg, st, buffer, i);
    if k < i {
      LiveGrows(orig.tlb, k, i);
      assert Packed(cfg, st, k, rank, data);
      PackedKept(cfg, st, st', k, rank, data, Used(cfg, st), Saved(cfg, orig, buffer, i));
    } else {
      PackedNow(cfg, st, st', k, rank, data);
    }
  }

  lemma MovedStep(cfg: Config, orig: Store, st: Store, buffer: seq<byte>, i: nat)
    requires Shape(cfg, orig) && Shape(cfg, st) && RebuildSafe(cfg, orig) && |buffer| == PAGE * cfg.cps && i < cfg.max
    requires Moved(cfg, orig, st, buffer, i)
    ensures IsLive(st, i) ==> Used(cfg, st) < cfg.cps
    ensures Moved(cfg, orig, RebuildStep(cfg, st, buffer, i), buffer, i + 1)
  {
    LiveGrows(orig.tlb, i, cfg.max);
    if IsLive(st, i) {
      StepTlb(cfg, st, buffer, i);
      StepFlash(cfg, st, buffer, i);
      forall k | 0 <= k < i + 1 && IsLive(orig, k)
        ensures Packed(cfg, RebuildStep(cfg, st, buffer, i), k, LiveUpTo(orig.tlb, k), Saved(cfg, orig, buffer, k))
      {
        PackedStep(cfg, orig, st, buffer, i, k);
      }
    }
  }

  lemma {:induction false} MovedAll(cfg: Config, orig: Store, st: Store, buffer: seq<byte>, i: nat)
    requires Shape(cfg, orig) && Shape(cfg, st) && RebuildSafe(cfg, orig) && |buffer| == PAGE * cfg.cps && i <= cfg.max
    requires Moved(cfg, orig, st, buffer, i) && Rebuildable(cfg, st, i)
    ensures Moved(cfg, orig, RebuildFrom(cfg, st, buffer, i), buffer, cfg.max)
    decreases cfg.max - i
  {
    if i < cfg.max {
      MovedStep(cfg, orig, st, buffer, i);
      RebuildableStep(cfg, st, buffer, i);
      MovedAll(cfg, orig, RebuildStep(cfg, st, buffer, i), buffer, i + 1);
    }
  }

  /** What a rebuild leaves behind, whatever the buffer ended up holding. */
  lemma RebuildPacks(cfg: Config, st: Store, junk: seq<byte>)
    requires Shape(cfg, st) && RebuildSafe(cfg, st) && |junk| == PAGE * cfg.cps
    ensures Moved(cfg, st, Rebuild(cfg, st, junk), BulkRead(cfg, st, junk), cfg.max)
  {
    var start := RebuildStart(cfg, st);
    LiveByTimes(st.tlb, start.tlb, cfg.max);
    MovedAll(cfg, st, start, BulkRead(cfg, st, junk), 0);
    var done := RebuildFrom(cfg, start, BulkRead(cfg, st, junk), 0);
    var st' := Rebuild(cfg, st, junk);
    assert st' == done.(fram := st'.fram);
    forall k | 0 <= k < cfg.max && IsLive(st, k)
      ensures Packed(cfg, st', k, LiveUpTo(st.tlb, k), Saved(cfg, st, BulkRead(cfg, st, junk), k))
    {
      assert Packed(cfg, done, k, LiveUpTo(st.tlb, k), Saved(cfg, st, BulkRead(cfg, st, junk), k));
    }
  }

  lemma ReadLenIsPages(cfg: Config)
    ensures cfg.ReadLen() == PAGE * (cfg.cps % 128) && cfg.ReadLen() <= PAGE * cfg.cps
  {
    assert PAGE * cfg.cps == 65536 * (cfg.cps / 128) + PAGE * (cfg.cps % 128);
  }

  lemma BlockOfJoin(front: seq<byte>, rest: seq<byte>, m: nat, n: nat)
    requires |front| == PAGE * m && PAGE * (n + 1) <= |front| + |rest|
    ensures Block(front + rest, n) ==
      if n < m then front[PAGE * n..PAGE * n + PAGE] else rest[PAGE * (n - m)..PAGE * (n - m) + PAGE]
  {
  }

  lemma WholePages(n: nat, m: nat)
    ensures PAGE * (n + 1) <= PAGE * m <==> n < m
  {
  }

  /** Each container is read either whole or not at all. */
  lemma BufferHolds(cfg: Config, st: Store, junk: seq<byte>, n: nat)
    requires Shape(cfg, st) && |junk| == PAGE * cfg.cps && n < cfg.cps
    ensures Block(BulkRead(cfg, st, junk), n) ==
      if PAGE * (n + 1) <= cfg.ReadLen() then Peek(st.flash, cfg.base + PAGE * n, PAGE) else Block(junk, n)
  {
    ReadLenIsPages(cfg);
    var m := cfg.cps % 128;
    var front, rest := Peek(st.flash, cfg.base, PAGE * m), junk[PAGE * m..];
    BlockOfJoin(front, rest, m, n);
    WholePages(n, m);
    if n < m {
      SliceOfSlice(st.flash, cfg.base, PAGE * m, PAGE * n, PAGE);
    } else {
      SliceOfSlice(junk, PAGE * m, |junk| - PAGE * m, PAGE * (n - m), PAGE);
    }
  }

  predicate Covered(cfg: Config, st: Store, i: nat)
    requires Shape(cfg, st) && i < cfg.max
  {
    PAGE * (SlotOf(cfg, st.tlb[i].addr) + 1) <= cfg.ReadLen()
  }

  lemma SavedIs(cfg: Config, st: Store, junk: seq<byte>, i: nat)
    requires Shape(cfg, st) && RebuildSafe(cfg, st) && |junk| == PAGE * cfg.cps && i < cfg.max && IsLive(st, i)
    ensures st.tlb[i].addr + PAGE <= |st.flash|
    ensures Saved(cfg, st, BulkRead(cfg, st, junk), i) ==
      if Covered(cfg, st, i) then Container(st, i) else Block(junk, SlotOf(cfg, st.tlb[i].addr))
  {
    var n := LiveSlot(cfg, st, i);
    BufferHolds(cfg, st, junk, n);
  }

  lemma LiveSlot(cfg: Config, st: Store, i: nat) returns (n: nat)
    requires Shape(cfg, st) && RebuildSafe(cfg, st) && i < cfg.max && IsLive(st, i)
    ensures n == SlotOf(cfg, st.tlb[i].addr) < cfg.cps && st.tlb[i].addr == cfg.base + PAGE * n
    ensures st.tlb[i].addr + PAGE <= |st.flash|
  {
    n := SlotOf(cfg, st.tlb[i].addr);
  }

  /** Row `i` reads the same before and after. */
  predicate SameRow(st: Store, st': Store, i: nat)
    requires i < |st.tlb| && i < |st'.tlb|
  {
    st'.tlb[i].time == st.tlb[i].time &&
    (IsLive(st, i) ==>
      st.tlb[i].addr + PAGE <= |st.flash| && st'.tlb[i].addr + PAGE <= |st'.flash| &&
      Container(st', i) == Container(st, i))
  }

  /** The plan a reader sees is the same before and after. */
  predicate SamePlan(cfg: Config, st: Store, st': Store)
    requires Shape(cfg, st) && Shape(cfg, st')
  {
    forall i | 0 <= i < cfg.max :: SameRow(st, st', i)
  }

  /** What the packed entry `i` leads to, told without the loop. */
  lemma PackedAt(cfg: Config, orig: Store, st: Store, buffer: seq<byte>, stop: nat, i: nat)
    requires Shape(cfg, orig) && Shape(cfg, st) && RebuildSafe(cfg, orig) && |buffer| == PAGE * cfg.cps
    requires stop <= cfg.max && Moved(cfg, orig, st, buffer, stop) && i < stop && IsLive(orig, i)
    ensures st.tlb[i].time == orig.tlb[i].time
    ensures Packed(cfg, st, i, LiveUpTo(orig.tlb, i), Saved(cfg, orig, buffer, i))
  {
  }

  lemma RowOf(cfg: Config, st: Store, st': Store, i: nat, rank: nat, data: seq<byte>)
    requires Shape(cfg, st) && Shape(cfg, st') && i < cfg.max && st'.tlb[i].time == st.tlb[i].time && IsLive(st, i)
    requires st.tlb[i].addr + PAGE <= |st.flash| && Packed(cfg, st', i, rank, data)
    ensures st'.tlb[i].addr == cfg.base + PAGE * rank && (SameRow(st, st', i) <==> data == Container(st, i))
  {
  }

  lemma KeepsRow(cfg: Config, st: Store, st': Store, junk: seq<byte>, i: nat)
    requires Shape(cfg, st) && RebuildSafe(cfg, st) && |junk| == PAGE * cfg.cps && i < cfg.max && IsLive(st, i)
    requires Shape(cfg, st') && Moved(cfg, st, st', BulkRead(cfg, st, junk), cfg.max) && Covered(cfg, st, i)
    ensures SameRow(st, st', i) && st'.tlb[i].addr == cfg.base + PAGE * LiveUpTo(st.tlb, i)
  {
    SavedIs(cfg, st, junk, i);
    PackedAt(cfg, st, st', BulkRead(cfg, st, junk), cfg.max, i);
    RowOf(cfg, st, st', i, LiveUpTo(st.tlb, i), Saved(cfg, st, BulkRead(cfg, st, junk), i));
  }

  /**
   * Compaction preserves the plan.  If the bulk read reaches every live container, then after the
   * rebuild every TLB entry leads to the same bytes, live entries occupy containers 0, 1, ... in TLB
   * order, and the used counter is the number of live entries.
   */
  lemma CompactionPreserves(cfg: Config, st: Store, junk: seq<byte>)
    requires Shape(cfg, st) && RebuildSafe(cfg, st) && |junk| == PAGE * cfg.cps && ReadCovers(cfg, st)
    ensures SamePlan(cfg, st, Rebuild(cfg, st, junk))
    ensures Used(cfg, Rebuild(cfg, st, junk)) == LiveUpTo(st.tlb, cfg.max)
    ensures forall i | 0 <= i < cfg.max && IsLive(st, i) ::
      Rebuild(cfg, st, junk).tlb[i].addr == cfg.base + PAGE * LiveUpTo(st.tlb, i)
  {
    RebuildPacks(cfg, st, junk);
    var st' := Rebuild(cfg, st, junk);
    forall i | 0 <= i < cfg.max
      ensures SameRow(st, st', i) && (IsLive(st, i) ==> st'.tlb[i].addr == cfg.base + PAGE * LiveUpTo(st.tlb, i))
    {
      if IsLive(st, i) { KeepsRow(cfg, st, st', junk, i); }
    }
  }

  /** A container the read did not reach comes back as whatever malloc returned. */
  lemma LosesRow(cfg: Config, st: Store, st': Store, junk: seq<byte>, i: nat)
    requires Shape(cfg, st) && RebuildSafe(cfg, st) && |junk| == PAGE * cfg.cps && i < cfg.max && IsLive(st, i)
    requires Shape(cfg, st') && Moved(cfg, st, st', BulkRead(cfg, st, junk), cfg.max) && !Covered(cfg, st, i)
    requires st.tlb[i].addr < |st.flash| && forall k | 0 <= k < |junk| :: junk[k] != st.flash[st.tlb[i].addr]
    ensures !SameRow(st, st', i)
  {
    SavedIs(cfg, st, junk, i);
    PackedAt(cfg, st, st', BulkRead(cfg, st, junk), cfg.max, i);
    RowOf(cfg, st, st', i, LiveUpTo(st.tlb, i), Saved(cfg, st, BulkRead(cfg, st, junk), i));
    assert Container(st, i)[0] == st.flash[st.tlb[i].addr];
    assert Saved(cfg, st, BulkRead(cfg, st, junk), i)[0] in junk;
  }

  /**
   * Exactly when.  The rebuild keeps the plan whatever malloc returned if and only if the length of
   * the section, cut to 16 bits, still reaches past every live container.
   */
  lemma CompactionPreservesIff(cfg: Config, st: Store)
    requires Shape(cfg, st) && RebuildSafe(cfg, st)
    ensures (forall junk: seq<byte> | |junk| == PAGE * cfg.cps :: SamePlan(cfg, st, Rebuild(cfg, st, junk)))
      <==> ReadCovers(cfg, st)
  {
    if ReadCovers(cfg, st) {
      forall junk: seq<byte> | |junk| == PAGE * cfg.cps ensures SamePlan(cfg, st, Rebuild(cfg, st, junk)) {
        CompactionPreserves(cfg, st, junk);
      }
    } else {
      var i :| 0 <= i < cfg.max && IsLive(st, i) && !Covered(cfg, st, i);
      SavedIs(cfg, st, Zeros(PAGE * cfg.cps), i);
      var other: byte := if st.flash[st.tlb[i].addr] == 0 then 1 else 0;
      var junk: seq<byte> := seq(PAGE * cfg.cps, _ => other);
      RebuildPacks(cfg, st, junk);
      LosesRow(cfg, st, Rebuild(cfg, st, junk), junk, i);
      assert !SamePlan(cfg, st, Rebuild(cfg, st, junk));
    }
  }

  /** The shipped sizes: 256 KiB sections make the 16-bit length zero, so a rebuild loses every entry there is. */
  lemma ShippedSizesReadNothing(cfg: Config, st: Store)
    requires Shape(cfg, st) && RebuildSafe(cfg, st) && cfg.cps == 512
    ensures cfg.ReadLen() == 0
    ensures ReadCovers(cfg, st) <==> forall i | 0 <= i < cfg.max :: !IsLive(st, i)
  {
  }
}
