/**
 * Power lost inside a set of the flash flight plan.  storage_flight_plan_set_st writes the new TLB entry to the
 * FRAM, then the used counter, then the container to the flash; a reboot may come in between.
 */
module PlanCrash {
  import opened Memory
  import opened PlanRecord
  import opened FlashPlan
  import opened PlanRefinement

  /** The TLB with the new entry. */
  function WithEntry(cfg: Config, st: Store, i: nat, e: Entry): Store
    requires Shape(cfg, st) && i < cfg.max && Used(cfg, st) <= cfg.cps
  {
    st.(tlb := st.tlb[i := TlbEntry(NextAddr(cfg, st), e.time)])
  }

  /** Reboot after the TLB entry reached the FRAM, before the counter did. */
  function CrashBeforeCount(cfg: Config, st: Store, i: nat, e: Entry): (r: Store)
    requires Shape(cfg, st) && i < cfg.max && Used(cfg, st) <= cfg.cps
    ensures Shape(cfg, r)
  {
    Reboot(cfg, DumpOne(cfg, WithEntry(cfg, st, i, e), i))
  }

  /** Reboot after the TLB entry and the counter reached the FRAM, before the container was written. */
  function CrashBeforeWrite(cfg: Config, st: Store, i: nat, e: Entry): (r: Store)
    requires Shape(cfg, st) && i < cfg.max && Used(cfg, st) <= cfg.cps
    ensures Shape(cfg, r)
  {
    Reboot(cfg, Update(cfg, st, i, e.time, NextAddr(cfg, st)))
  }

  /** The reboot finds the new entry, and the old counter. */
  lemma EarlyCrash(cfg: Config, st: Store, i: nat, e: Entry)
    requires Shape(cfg, st) && i < cfg.max && Used(cfg, st) <= cfg.cps && Mirror(cfg, st)
    ensures var st' := CrashBeforeCount(cfg, st, i, e);
      st'.tlb == WithEntry(cfg, st, i, e).tlb && st'.flash == st.flash
  {
    var st1 := WithEntry(cfg, st, i, e);
    var st2 := DumpOne(cfg, st1, i);
    forall k | 0 <= k <= cfg.max ensures ImageAt(cfg, st2, k) {
      assert ImageAt(cfg, st, k);
      if k != i { assert ImageAt(cfg, st1, k); }
      DumpOneImage(cfg, st1, i, k);
    }
    RebootRestores(cfg, st2);
  }

  /** The reboot finds both. */
  lemma LateCrash(cfg: Config, st: Store, i: nat, e: Entry)
    requires Shape(cfg, st) && i < cfg.max && Used(cfg, st) <= cfg.cps && Mirror(cfg, st)
    ensures var st' := CrashBeforeWrite(cfg, st, i, e);
      st'.tlb == WithEntry(cfg, st, i, e).tlb[cfg.max := TlbEntry(Used(cfg, st) + 1, st.tlb[cfg.max].time)] &&
      st'.flash == st.flash
  {
    UpdateTlb(cfg, st, i, e.time, NextAddr(cfg, st));
    UpdateMirror(cfg, st, i, e.time, NextAddr(cfg, st));
    RebootRestores(cfg, Update(cfg, st, i, e.time, NextAddr(cfg, st)));
  }

  /** What row `k` reads as, if its address is inside the flash. */
  predicate Reads(st: Store, k: nat, e: Entry)
    requires k < |st.tlb|
  {
    st.tlb[k].addr + PAGE <= |st.flash| && Decode(Peek(st.flash, st.tlb[k].addr, PAGE)) == e
  }

  /**
   * Every live row but `i` is as it was, time and record; row `i` is live, with its new time, and its
   * container is as it was before the set.
   */
  predicate Interrupted(cfg: Config, st: Store, st': Store, rows: seq<Entry>, i: nat, e: Entry)
    requires Shape(cfg, st) && Shape(cfg, st') && |rows| == cfg.entries && i < cfg.entries && Used(cfg, st) <= cfg.cps
  {
    (forall k | 0 <= k < cfg.entries && k != i && LiveRow(rows, k) ::
      st'.tlb[k] == st.tlb[k] && Reads(st', k, rows[k])) &&
    st'.tlb[i] == TlbEntry(NextAddr(cfg, st), e.time) &&
    Reads(st', i, Decode(Peek(st.flash, NextAddr(cfg, st), PAGE)))
  }

  lemma {:induction false} RowReads(cfg: Config, st: Store, rows: seq<Entry>, ranks: seq<nat>, k: nat)
    requires Shape(cfg, st) && |rows| == |ranks| == cfg.entries && k < cfg.entries && RowOk(cfg, st, rows, ranks, k)
    ensures Reads(st, k, rows[k])
  {
    ContainerFits(cfg, st, ranks[k]);
    DecodeEncode(rows[k]);
  }

  lemma InterruptedRows(cfg: Config, st: Store, st': Store, rows: seq<Entry>, ranks: seq<nat>, i: nat, e: Entry)
    requires Rep(cfg, st, rows, ranks) && Shape(cfg, st') && i < cfg.entries && Used(cfg, st) <= cfg.cps
    requires st'.flash == st.flash && st'.tlb[i] == TlbEntry(NextAddr(cfg, st), e.time)
    requires forall k | 0 <= k < cfg.max && k != i :: st'.tlb[k] == st.tlb[k]
    ensures Interrupted(cfg, st, st', rows, i, e)
  {
    forall k | 0 <= k < cfg.entries && k != i && LiveRow(rows, k)
      ensures st'.tlb[k] == st.tlb[k] && Reads(st', k, rows[k])
    {
      RowReads(cfg, st, rows, ranks, k);
    }
  }

  /** Power lost before the counter is saved: every other row survives, and the new one reads as its old container. */
  lemma CrashInSetEarly(cfg: Config, st: Store, rows: seq<Entry>, ranks: seq<nat>, i: nat, e: Entry)
    requires Rep(cfg, st, rows, ranks) && i < cfg.entries && Used(cfg, st) <= cfg.cps
    ensures var st' := CrashBeforeCount(cfg, st, i, e);
      Interrupted(cfg, st, st', rows, i, e) && Used(cfg, st') == Used(cfg, st)
  {
    EarlyCrash(cfg, st, i, e);
    InterruptedRows(cfg, st, CrashBeforeCount(cfg, st, i, e), rows, ranks, i, e);
  }

  /** Power lost after it, before the container is written: the same, and the container counts as used. */
  lemma CrashInSetLate(cfg: Config, st: Store, rows: seq<Entry>, ranks: seq<nat>, i: nat, e: Entry)
    requires Rep(cfg, st, rows, ranks) && i < cfg.entries && Used(cfg, st) <= cfg.cps
    ensures var st' := CrashBeforeWrite(cfg, st, i, e);
      Interrupted(cfg, st, st', rows, i, e) && Used(cfg, st') == Used(cfg, st) + 1
  {
    LateCrash(cfg, st, i, e);
    InterruptedRows(cfg, st, CrashBeforeWrite(cfg, st, i, e), rows, ranks, i, e);
  }

  /** An erased container reads as a record of time 0 with no command. */
  lemma BlankRecord()
    ensures Decode(Zeros(PAGE)) == Entry(0, 0, 0, 0, [], [])
  {
    var b := Zeros(PAGE);
    assert b[0..4] == b[4..8] == b[8..12] == b[12..16] == [0, 0, 0, 0];
    assert b[16] == 0 && b[16..][0] == 0 && b[16 + STR_MAX..][0] == 0;
  }

  /** Two rows whose address is `a`, whose container holds `e`. */
  predicate Shared(st: Store, i: nat, j: nat, a: uint32, e: Entry)
    requires i < |st.tlb| && j < |st.tlb|
  {
    st.tlb[i].addr == a && st.tlb[j].addr == a && Reads(st, i, e) && Reads(st, j, e)
  }

  lemma WriteAddr(cfg: Config, st: Store, i: nat, j: nat, next: Entry)
    requires Shape(cfg, st) && i < cfg.max && j < cfg.max && i != j && Used(cfg, st) <= cfg.cps
    ensures var st' := Write(cfg, st, j, next);
      st'.tlb[i].addr == st.tlb[i].addr && st'.tlb[j].addr == NextAddr(cfg, st) &&
      st'.flash == Poke(st.flash, NextAddr(cfg, st), Encode(next))
  {
    WriteEffect(cfg, st, j, next);
  }

  lemma WriteShares(cfg: Config, st: Store, i: nat, j: nat, next: Entry)
    requires Shape(cfg, st) && i < cfg.max && j < cfg.max && i != j && Used(cfg, st) <= cfg.cps && next.Storable()
    requires st.tlb[i].addr == NextAddr(cfg, st)
    ensures Shared(Write(cfg, st, j, next), i, j, NextAddr(cfg, st), next)
  {
    WriteAddr(cfg, st, i, j, next);
    var st', a := Write(cfg, st, j, next), NextAddr(cfg, st);
    ReadsWritten(st', i, st.flash, a, next);
    ReadsWritten(st', j, st.flash, a, next);
  }

  lemma ReadsWritten(st: Store, k: nat, before: seq<byte>, a: nat, e: Entry)
    requires k < |st.tlb| && st.tlb[k].addr == a && a + PAGE <= |before| && st.flash == Poke(before, a, Encode(e))
    requires e.Storable()
    ensures Reads(st, k, e)
  {
    PokeThenPeek(before, a, Encode(e), a, PAGE);
    DecodeEncode(e);
  }

  /** A set that needs no rebuild stores in the first free row. */
  lemma SetIsWrite(cfg: Config, st: Store, e: Entry, junk: seq<byte>)
    requires Shape(cfg, st) && Used(cfg, st) <= cfg.cps && |junk| == PAGE * cfg.cps && SetSafe(cfg, st, e)
    requires Stores(cfg, st, e)
    ensures FlashPlan.Set(cfg, st, e, junk) == Outcome(true, Write(cfg, st, Find(cfg, st.tlb, FP_NULL, 0), e))
  {
  }

  /** A set after which row `i`, whose entry names the next container, and the row the set picks share it. */
  predicate SetShares(cfg: Config, st: Store, i: nat, next: Entry, junk: seq<byte>)
    requires Shape(cfg, st) && i < cfg.max && Used(cfg, st) <= cfg.cps && |junk| == PAGE * cfg.cps
    requires SetSafe(cfg, st, next) && Stores(cfg, st, next)
  {
    var j, o := Find(cfg, st.tlb, FP_NULL, 0), FlashPlan.Set(cfg, st, next, junk);
    o.ok && i != j && Shared(o.st, i, j, NextAddr(cfg, st), next)
  }

  lemma SharesContainer(cfg: Config, st: Store, i: nat, next: Entry, junk: seq<byte>)
    requires Shape(cfg, st) && i < cfg.max && Used(cfg, st) <= cfg.cps && |junk| == PAGE * cfg.cps && next.Storable()
    requires SetSafe(cfg, st, next) && Stores(cfg, st, next)
    requires st.tlb[i].addr == NextAddr(cfg, st) && st.tlb[i].time >= 0
    ensures SetShares(cfg, st, i, next, junk)
  {
    SetIsWrite(cfg, st, next, junk);
    WriteShares(cfg, st, i, Find(cfg, st.tlb, FP_NULL, 0), next);
  }

  /**
   * If the counter was lost, the next set that stores uses the same container: its row, the first free one, and
   * the interrupted row then share it, and both read as the new record.
   */
  lemma LostCountShares(cfg: Config, st: Store, i: nat, e: Entry, next: Entry, junk: seq<byte>)
    requires Shape(cfg, st) && Mirror(cfg, st) && i < cfg.max && e.time >= 0 && Used(cfg, st) <= cfg.cps
    requires |junk| == PAGE * cfg.cps && next.Storable()
    requires var st1 := CrashBeforeCount(cfg, st, i, e); SetSafe(cfg, st1, next) && Stores(cfg, st1, next)
    ensures var st1 := CrashBeforeCount(cfg, st, i, e);
      Used(cfg, st1) == Used(cfg, st) && SetShares(cfg, st1, i, next, junk)
  {
    EarlyCrash(cfg, st, i, e);
    SharesContainer(cfg, CrashBeforeCount(cfg, st, i, e), i, next, junk);
  }
}
