/**
 * The flash flight plan refines the RAM table.  Both backends are driven with the same operations;
 * as long as no operation leaves the range the flash code works in, every status and every record
 * returned is the same, across status writes and reboots.
 */
module PlanRefinement {
  import opened Memory
  import opened Arithmetic
  import opened PlanRecord
  import opened FlashPlan
  import opened Compaction
  import R = RamPlan

  // ---------------------------------------------------------------- the FRAM image

  /** The FRAM holds entry `k` of the TLB. */
  predicate ImageAt(cfg: Config, st: Store, k: nat)
    requires Shape(cfg, st) && k <= cfg.max
  {
    Peek(st.fram, cfg.TlbBase() + 8 * k, 8) == EncodeTlb(st.tlb[k])
  }

  predicate Mirror(cfg: Config, st: Store)
    requires Shape(cfg, st)
  {
    forall k | 0 <= k <= cfg.max :: ImageAt(cfg, st, k)
  }

  lemma DumpOneImage(cfg: Config, st: Store, i: nat, k: nat)
    requires Shape(cfg, st) && i <= cfg.max && k <= cfg.max && (k == i || ImageAt(cfg, st, k))
    ensures ImageAt(cfg, DumpOne(cfg, st, i), k)
  {
    PokeThenPeek(st.fram, cfg.TlbBase() + 8 * i, EncodeTlb(st.tlb[i]), cfg.TlbBase() + 8 * k, 8);
  }

  lemma DumpAllMirror(cfg: Config, st: Store)
    requires Shape(cfg, st)
    ensures Mirror(cfg, DumpAll(cfg, st))
  {
    forall k | 0 <= k <= cfg.max ensures ImageAt(cfg, DumpAll(cfg, st), k) {
      EncodeAllAt(st.tlb, k);
      PokeThenPeekInside(st.fram, cfg.TlbBase(), EncodeAll(st.tlb), cfg.TlbBase() + 8 * k, 8);
    }
  }

  lemma UpdateMirror(cfg: Config, st: Store, i: nat, time: int32, addr: uint32)
    requires Shape(cfg, st) && i < cfg.max && forall k | 0 <= k < cfg.max :: ImageAt(cfg, st, k)
    ensures Mirror(cfg, Update(cfg, st, i, time, addr))
  {
    var st' := Update(cfg, st, i, time, addr);
    var st1 := st.(tlb := st'.tlb);
    assert st' == DumpOne(cfg, DumpOne(cfg, st1, i), cfg.max);
    forall k | 0 <= k <= cfg.max ensures ImageAt(cfg, st', k) {
      if k < cfg.max {
        assert ImageAt(cfg, st, k);
        if k != i { assert ImageAt(cfg, st1, k); }
        DumpOneImage(cfg, st1, i, k);
      }
      DumpOneImage(cfg, DumpOne(cfg, st1, i), cfg.max, k);
    }
  }

  /** A status cell below the image does not touch it. */
  lemma StatusMirror(cfg: Config, st: Store, index: nat, v: uint32)
    requires Shape(cfg, st) && Mirror(cfg, st) && StatusAddr(index) + 4 <= cfg.TlbBase()
    ensures Mirror(cfg, SetStatus(cfg, st, index, v))
  {
    forall k | 0 <= k <= cfg.max ensures ImageAt(cfg, SetStatus(cfg, st, index, v), k) {
      assert ImageAt(cfg, st, k);
      PokeThenPeek(st.fram, StatusAddr(index), Word(v), cfg.TlbBase() + 8 * k, 8);
    }
  }

  lemma StatusAddrIs(index: nat)
    ensures StatusAddr(index) == 4 * (index % 16384)
  {
    Division(index, 16384);
    DivIs(4 * index, index / 16384, 4 * (index % 16384), 65536);
  }

  /** Cells and image entries are aligned: a cell not below the image is half of one of its entries. */
  lemma StatusCell(max: nat, index: nat) returns (k: nat, off: nat)
    requires FRAM_SIZE - 8 * (max + 1) < StatusAddr(index) + 4 <= FRAM_SIZE
    ensures StatusAddr(index) == FRAM_SIZE - 8 * (max + 1) + 8 * k + off && k <= max && off + 4 <= 8
  {
    StatusAddrIs(index);
    var d: nat := index % 16384 - (8192 - 2 * (max + 1));
    Division(d, 2);
    k, off := d / 2, 4 * (d % 2);
  }

  /** Such a cell would have to hold just the bytes that are there. */
  lemma StatusInsideImage(cfg: Config, st: Store, index: nat, v: uint32, k: nat, off: nat)
    requires Shape(cfg, st) && StatusAddr(index) + 4 <= FRAM_SIZE && k <= cfg.max && off + 4 <= 8
    requires StatusAddr(index) == cfg.TlbBase() + 8 * k + off && Mirror(cfg, SetStatus(cfg, st, index, v))
    ensures Word(v) == EncodeTlb(st.tlb[k])[off..off + 4]
  {
    var a, base := StatusAddr(index), cfg.TlbBase();
    var st' := SetStatus(cfg, st, index, v);
    assert ImageAt(cfg, st', k);
    PokeThenPeek(st.fram, a, Word(v), a, 4);
    SliceOfSlice(st'.fram, base + 8 * k, 8, off, 4);
  }

  /** Status writes leave the image alone exactly when their cell lies below it. */
  lemma StatusKeepsImageIff(cfg: Config, st: Store, index: nat)
    requires Shape(cfg, st) && Mirror(cfg, st) && StatusAddr(index) + 4 <= FRAM_SIZE
    ensures (forall v: uint32 :: Mirror(cfg, SetStatus(cfg, st, index, v))) <==> StatusAddr(index) + 4 <= cfg.TlbBase()
  {
    if StatusAddr(index) + 4 <= cfg.TlbBase() {
      forall v: uint32 ensures Mirror(cfg, SetStatus(cfg, st, index, v)) { StatusMirror(cfg, st, index, v); }
    } else {
      var k, off := StatusCell(cfg.max, index);
      assert Word(0)[0] != Word(1)[0];
      if Mirror(cfg, SetStatus(cfg, st, index, 0)) {
        StatusInsideImage(cfg, st, index, 0, k, off);
        if Mirror(cfg, SetStatus(cfg, st, index, 1)) { StatusInsideImage(cfg, st, index, 1, k, off); }
      }
    }
  }

  /** With the image up to date, a reboot restores the table it lost. */
  lemma RebootRestores(cfg: Config, st: Store)
    requires Shape(cfg, st) && Mirror(cfg, st)
    ensures Reboot(cfg, st) == st
  {
    forall k | 0 <= k <= cfg.max ensures Reboot(cfg, st).tlb[k] == st.tlb[k] {
      assert ImageAt(cfg, st, k);
      TlbRoundTrip(st.tlb[k]);
    }
    assert Reboot(cfg, st).tlb == st.tlb;
  }

  // ---------------------------------------------------------------- simulation relation

  predicate LiveRow(rows: seq<Entry>, k: nat)
    requires k < |rows|
  {
    rows[k].time != FP_NULL
  }

  /** Row `k` of the table is in container `ranks[k]`, reachable through the TLB. */
  predicate RowOk(cfg: Config, st: Store, rows: seq<Entry>, ranks: seq<nat>, k: nat)
    requires Shape(cfg, st) && |rows| == |ranks| == cfg.entries && k < cfg.entries
  {
    ranks[k] < Used(cfg, st) && rows[k].Storable() && Packed(cfg, st, k, ranks[k], Encode(rows[k]))
  }

  predicate TimesOk(cfg: Config, st: Store, rows: seq<Entry>)
    requires Shape(cfg, st) && |rows| == cfg.entries
  {
    forall k | 0 <= k < cfg.max :: st.tlb[k].time == if k < cfg.entries then rows[k].time else FP_NULL
  }

  predicate Distinct(rows: seq<Entry>, ranks: seq<nat>)
    requires |rows| == |ranks|
  {
    forall j, k | 0 <= j < k < |rows| && LiveRow(rows, j) && LiveRow(rows, k) :: ranks[j] != ranks[k]
  }

  predicate WearOk(cfg: Config, st: Store)
    requires Shape(cfg, st)
  {
    (forall n | n in st.worn :: n < Used(cfg, st) || n == cfg.cps) && (Used(cfg, st) > cfg.cps ==> cfg.cps in st.worn)
  }

  /** The store represents the table; row `k`, if live, is in container `ranks[k]`. */
  predicate Rep(cfg: Config, st: Store, rows: seq<Entry>, ranks: seq<nat>) {
    Shape(cfg, st) && |rows| == |ranks| == cfg.entries && Used(cfg, st) <= cfg.cps + 1 &&
    Mirror(cfg, st) && TimesOk(cfg, st, rows) && Distinct(rows, ranks) && WearOk(cfg, st) &&
    forall k | 0 <= k < cfg.entries && LiveRow(rows, k) :: RowOk(cfg, st, rows, ranks, k)
  }

  /** A table of free rows. */
  function EmptyTable(cfg: Config, commNode: int32): seq<Entry> { seq(cfg.entries, _ => Cleared(commNode)) }

  lemma ResetRep(cfg: Config, st: Store, commNode: int32)
    requires Shape(cfg, st) && cfg.base + cfg.Sections() * (PAGE * cfg.cps) <= |st.flash|
    ensures Rep(cfg, Reset(cfg, st), EmptyTable(cfg, commNode), seq(cfg.entries, _ => 0))
    ensures Used(cfg, Reset(cfg, st)) == 0 && Reset(cfg, st).clean && Reset(cfg, st).worn == {}
  {
    var st' := Reset(cfg, st);
    DumpAllMirror(cfg, st'.(fram := st.fram));
    assert st' == DumpAll(cfg, st'.(fram := st.fram));
  }

  // ---------------------------------------------------------------- the operations

  /** Both scans find the same row. */
  lemma FindAgrees(cfg: Config, st: Store, rows: seq<Entry>, t: int32)
    requires Shape(cfg, st) && |rows| == cfg.entries && TimesOk(cfg, st, rows)
    ensures var i := Find(cfg, st.tlb, t, 0); var j := R.Find(rows, t, 0);
      if j == -1 then i == -1 || (i >= cfg.entries && t == FP_NULL) else i == j
  {
    var i, j := Find(cfg, st.tlb, t, 0), R.Find(rows, t, 0);
    if j != -1 { assert st.tlb[j].time == t; }
    if i != -1 && i < cfg.entries { assert rows[i].time == t; }
  }

  lemma AllReadable(cfg: Config, st: Store, rows: seq<Entry>, ranks: seq<nat>)
    requires Rep(cfg, st, rows, ranks)
    ensures forall i | 0 <= i < cfg.max :: Readable(cfg, st, i)
  {
    forall i | 0 <= i < cfg.max && IsLive(st, i) ensures Readable(cfg, st, i) {
      assert RowOk(cfg, st, rows, ranks, i);
      ContainerFits(cfg, st, ranks[i]);
    }
  }

  lemma GetAgrees(cfg: Config, st: Store, rows: seq<Entry>, ranks: seq<nat>, t: int32)
    requires Rep(cfg, st, rows, ranks) && t != FP_NULL
    ensures forall i | 0 <= i < cfg.max :: Readable(cfg, st, i)
    ensures FlashPlan.Get(cfg, st, t) == R.Get(rows, t)
  {
    AllReadable(cfg, st, rows, ranks);
    FindAgrees(cfg, st, rows, t);
    var j := R.Find(rows, t, 0);
    if j != -1 {
      assert RowOk(cfg, st, rows, ranks, j);
      ContainerFits(cfg, st, ranks[j]);
      DecodeEncode(rows[j]);
    }
  }

  /**
   * Copying the row of time -1 is where the backends differ: the RAM table hands out a free row, with
   * null strings, as if it were due.
   */
  lemma GetFreeRowDiffers(cfg: Config, st: Store, rows: seq<Entry>, ranks: seq<nat>)
    requires Rep(cfg, st, rows, ranks)
    ensures forall i | 0 <= i < cfg.max :: Readable(cfg, st, i)
    ensures FlashPlan.Get(cfg, st, FP_NULL).0 == R.Get(rows, FP_NULL).0 <==>
      forall i | 0 <= i < cfg.entries :: LiveRow(rows, i)
  {
    AllReadable(cfg, st, rows, ranks);
    FindAgrees(cfg, st, rows, FP_NULL);
    var j := R.Find(rows, FP_NULL, 0);
    if j != -1 { assert !LiveRow(rows, j); }
  }

  lemma DeleteIdxRep(cfg: Config, st: Store, rows: seq<Entry>, ranks: seq<nat>, i: int, commNode: int32)
    requires Rep(cfg, st, rows, ranks)
    ensures FlashPlan.DeleteIdx(cfg, st, i).ok == R.DeleteIdx(rows, i, commNode).ok
    ensures Rep(cfg, FlashPlan.DeleteIdx(cfg, st, i).st, R.DeleteIdx(rows, i, commNode).rows, ranks)
    ensures Used(cfg, FlashPlan.DeleteIdx(cfg, st, i).st) == Used(cfg, st)
  {
    if 0 <= i < cfg.entries {
      var st1 := st.(tlb := st.tlb[i := TlbEntry(NULL_ADDR, FP_NULL)]);
      var st', rows' := DumpOne(cfg, st1, i), rows[i := Cleared(commNode)];
      forall k | 0 <= k <= cfg.max ensures ImageAt(cfg, st', k) {
        assert ImageAt(cfg, st, k);
        if k != i { assert ImageAt(cfg, st1, k); }
        DumpOneImage(cfg, st1, i, k);
      }
      forall k | 0 <= k < cfg.entries && LiveRow(rows', k) ensures RowOk(cfg, st', rows', ranks, k) {
        assert LiveRow(rows, k) && RowOk(cfg, st, rows, ranks, k);
      }
      assert Distinct(rows', ranks) by {
        forall j, k | 0 <= j < k < |rows| && LiveRow(rows', j) && LiveRow(rows', k) ensures ranks[j] != ranks[k] {
          assert LiveRow(rows, j) && LiveRow(rows, k);
        }
      }
    }
  }

  lemma WriteEffect(cfg: Config, st: Store, i: nat, e: Entry)
    requires Shape(cfg, st) && i < cfg.max && Used(cfg, st) <= cfg.cps
    ensures var n := Used(cfg, st); var st' := Write(cfg, st, i, e);
      st'.tlb == st.tlb[i := TlbEntry(NextAddr(cfg, st), e.time)][cfg.max := TlbEntry(n + 1, st.tlb[cfg.max].time)] &&
      st'.flash == Poke(st.flash, NextAddr(cfg, st), Encode(e)) &&
      st'.worn == st.worn + {n} && st'.clean == (st.clean && n !in st.worn)
    ensures Mirror(cfg, st) ==> Mirror(cfg, Write(cfg, st, i, e))
  {
    var n: nat := Used(cfg, st);
    SlotAddrIs(cfg, n);
    UpdateTlb(cfg, st, i, e.time, cfg.SlotAddr(n));
    if Mirror(cfg, st) {
      var u := Update(cfg, st, i, e.time, cfg.SlotAddr(n));
      UpdateMirror(cfg, st, i, e.time, cfg.SlotAddr(n));
      var st' := Write(cfg, st, i, e);
      assert st'.fram == u.fram && st'.tlb == u.tlb;
      forall k | 0 <= k <= cfg.max ensures ImageAt(cfg, st', k) { assert ImageAt(cfg, u, k); }
    }
  }

  lemma WriteRow(cfg: Config, st: Store, rows: seq<Entry>, ranks: seq<nat>, i: nat, e: Entry, k: nat)
    requires Rep(cfg, st, rows, ranks) && i < cfg.entries && Used(cfg, st) <= cfg.cps && e.Storable()
    requires e.time != FP_NULL
    requires k < cfg.entries && LiveRow(rows[i := e], k)
    ensures RowOk(cfg, Write(cfg, st, i, e), rows[i := e], ranks[i := Used(cfg, st)], k)
  {
    var n: nat := Used(cfg, st);
    var st' := Write(cfg, st, i, e);
    WriteEffect(cfg, st, i, e);
    ContainerFits(cfg, st, n);
    if k == i {
      PackedNow(cfg, st, st', k, n, Encode(e));
    } else {
      assert LiveRow(rows, k) && RowOk(cfg, st, rows, ranks, k);
      ContainerFits(cfg, st, ranks[k]);
      PackedKept(cfg, st, st', k, ranks[k], Encode(rows[k]), n, Encode(e));
    }
  }

  lemma WriteRep(cfg: Config, st: Store, rows: seq<Entry>, ranks: seq<nat>, i: nat, e: Entry)
    requires Rep(cfg, st, rows, ranks) && i < cfg.entries && !LiveRow(rows, i) && e.Storable() && e.time != FP_NULL
    requires Used(cfg, st) <= cfg.cps
    ensures Rep(cfg, Write(cfg, st, i, e), rows[i := e], ranks[i := Used(cfg, st)])
  {
    var rows', ranks' := rows[i := e], ranks[i := Used(cfg, st)];
    var st' := Write(cfg, st, i, e);
    WriteEffect(cfg, st, i, e);
    forall k | 0 <= k < cfg.entries && LiveRow(rows', k) ensures RowOk(cfg, st', rows', ranks', k) {
      WriteRow(cfg, st, rows, ranks, i, e, k);
    }
    forall j, k | 0 <= j < k < |rows| && LiveRow(rows', j) && LiveRow(rows', k) ensures ranks'[j] != ranks'[k] {
      if j != i { assert LiveRow(rows, j) && RowOk(cfg, st, rows, ranks, j); }
      if k != i { assert LiveRow(rows, k) && RowOk(cfg, st, rows, ranks, k); }
    }
  }

  /**
   * A set can be carried out: if it rebuilds, every live container is read back; if it then stores, its
   * container has a section address.
   */
  predicate SetFits(cfg: Config, st: Store, e: Entry)
    requires Shape(cfg, st)
  {
    e.time >= 0 ==>
      (Used(cfg, st) > cfg.cps ==>
        LiveUpTo(st.tlb, cfg.max) <= cfg.cps &&
        forall k | 0 <= k < cfg.max && IsLive(st, k) :: st.tlb[k].addr + PAGE <= cfg.base + cfg.ReadLen()) &&
      (Stores(cfg, st, e) ==> NextSlot(cfg, st) < cfg.cps || cfg.max >= cfg.cps)
  }

  lemma SlotBack(cfg: Config, addr: uint32, n: nat)
    requires addr == cfg.base + PAGE * n
    ensures SlotOf(cfg, addr) == n && OnSlot(cfg, addr)
  {
    assert PAGE * n / PAGE == n;
  }

  lemma RebuildIsSafe(cfg: Config, st: Store, rows: seq<Entry>, ranks: seq<nat>, e: Entry)
    requires Rep(cfg, st, rows, ranks) && SetFits(cfg, st, e) && e.time >= 0 && Used(cfg, st) > cfg.cps
    ensures RebuildSafe(cfg, st) && ReadCovers(cfg, st)
  {
    ReadLenIsPages(cfg);
    forall k | 0 <= k < cfg.max && IsLive(st, k)
      ensures OnSlot(cfg, st.tlb[k].addr) && SlotOf(cfg, st.tlb[k].addr) < cfg.cps && Covered(cfg, st, k)
    {
      assert LiveRow(rows, k) && RowOk(cfg, st, rows, ranks, k);
      SlotBack(cfg, st.tlb[k].addr, ranks[k]);
    }
  }

  lemma SetIsSafe(cfg: Config, st: Store, rows: seq<Entry>, ranks: seq<nat>, e: Entry)
    requires Rep(cfg, st, rows, ranks) && SetFits(cfg, st, e)
    ensures SetSafe(cfg, st, e)
  {
    if e.time >= 0 {
      if Used(cfg, st) > cfg.cps { RebuildIsSafe(cfg, st, rows, ranks, e); }
      if Stores(cfg, st, e) { AddressableIff(cfg, NextSlot(cfg, st)); }
    }
  }

  /** Where the rebuild puts each row. */
  function PackedRanks(cfg: Config, st: Store): (r: seq<nat>)
    requires Shape(cfg, st)
    ensures |r| == cfg.entries
  {
    seq(cfg.entries, k requires 0 <= k < cfg.entries => LiveUpTo(st.tlb, k))
  }

  lemma RebuildRow(cfg: Config, st: Store, rows: seq<Entry>, ranks: seq<nat>, junk: seq<byte>, k: nat)
    requires Rep(cfg, st, rows, ranks) && Used(cfg, st) > cfg.cps && |junk| == PAGE * cfg.cps
    requires RebuildSafe(cfg, st) && Moved(cfg, st, Rebuild(cfg, st, junk), BulkRead(cfg, st, junk), cfg.max)
    requires k < cfg.entries && LiveRow(rows, k) && Covered(cfg, st, k)
    ensures RowOk(cfg, Rebuild(cfg, st, junk), rows, PackedRanks(cfg, st), k)
  {
    assert RowOk(cfg, st, rows, ranks, k);
    SavedIs(cfg, st, junk, k);
    PackedAt(cfg, st, Rebuild(cfg, st, junk), BulkRead(cfg, st, junk), cfg.max, k);
    LiveGrows(st.tlb, k, cfg.max);
  }

  lemma RebuildRep(cfg: Config, st: Store, rows: seq<Entry>, ranks: seq<nat>, e: Entry, junk: seq<byte>)
    requires Rep(cfg, st, rows, ranks) && SetFits(cfg, st, e) && e.time >= 0 && Used(cfg, st) > cfg.cps
    requires |junk| == PAGE * cfg.cps
    ensures RebuildSafe(cfg, st)
    ensures Rep(cfg, Rebuild(cfg, st, junk), rows, PackedRanks(cfg, st))
  {
    RebuildIsSafe(cfg, st, rows, ranks, e);
    var st' := Rebuild(cfg, st, junk);
    RebuildPacks(cfg, st, junk);
    var start := RebuildStart(cfg, st);
    LiveByTimes(st.tlb, start.tlb, cfg.max);
    DumpAllMirror(cfg, RebuildFrom(cfg, start, BulkRead(cfg, st, junk), 0));
    var ranks' := PackedRanks(cfg, st);
    forall k | 0 <= k < cfg.entries && LiveRow(rows, k) ensures RowOk(cfg, st', rows, ranks', k) {
      RebuildRow(cfg, st, rows, ranks, junk, k);
    }
    forall j, k | 0 <= j < k < |rows| && LiveRow(rows, j) && LiveRow(rows, k) ensures ranks'[j] != ranks'[k] {
      LiveGrows(st.tlb, j, k);
    }
  }

  /** The space check keeps the two stores related. */
  lemma RoomRep(cfg: Config, st: Store, rows: seq<Entry>, ranks: seq<nat>, e: Entry, junk: seq<byte>)
    returns (ranks': seq<nat>)
    requires Rep(cfg, st, rows, ranks) && SetFits(cfg, st, e) && e.time >= 0 && |junk| == PAGE * cfg.cps
    ensures RoomSafe(cfg, st) && Rep(cfg, MakeRoom(cfg, st, junk), rows, ranks')
  {
    ranks' := ranks;
    if Used(cfg, st) > cfg.cps {
      RebuildRep(cfg, st, rows, ranks, e, junk);
      ranks' := PackedRanks(cfg, st);
    }
  }

  /** A set stores exactly when the RAM table's does. */
  lemma StoresIff(cfg: Config, st: Store, rows: seq<Entry>, e: Entry)
    requires Shape(cfg, st) && |rows| == cfg.entries && TimesOk(cfg, st, rows)
    ensures Stores(cfg, st, e) <==> R.Set(rows, e).ok
  {
    FindAgrees(cfg, st, rows, FP_NULL);
  }

  /** One set: the same status, the same table, and one container used if it succeeds. */
  lemma SetRep(cfg: Config, st: Store, rows: seq<Entry>, ranks: seq<nat>, e: Entry, junk: seq<byte>)
    returns (ranks': seq<nat>)
    requires Rep(cfg, st, rows, ranks) && SetFits(cfg, st, e) && |junk| == PAGE * cfg.cps
    requires e.time >= 0 ==> e.Storable()
    ensures SetSafe(cfg, st, e)
    ensures FlashPlan.Set(cfg, st, e, junk).ok == R.Set(rows, e).ok
    ensures Rep(cfg, FlashPlan.Set(cfg, st, e, junk).st, R.Set(rows, e).rows, ranks')
    ensures e.time >= 0 ==>
      Used(cfg, FlashPlan.Set(cfg, st, e, junk).st) == NextSlot(cfg, st) + if R.Set(rows, e).ok then 1 else 0
  {
    SetIsSafe(cfg, st, rows, ranks, e);
    ranks' := ranks;
    if e.time >= 0 {
      var st1 := MakeRoom(cfg, st, junk);
      ranks' := RoomRep(cfg, st, rows, ranks, e, junk);
      MakeRoomUsed(cfg, st, junk);
      FindAgrees(cfg, st1, rows, FP_NULL);
      StoresIff(cfg, st, rows, e);
      var i := Find(cfg, st1.tlb, FP_NULL, 0);
      if i != -1 && i < cfg.entries {
        WriteRep(cfg, st1, rows, ranks', i, e);
        WriteEffect(cfg, st1, i, e);
        ranks' := ranks'[i := Used(cfg, st1)];
      }
    }
  }

  // ---------------------------------------------------------------- when a set stays inside the arrays

  lemma {:induction false} FewBelow(s: set<nat>, n: nat)
    requires forall x | x in s :: x < n
    ensures |s| <= n
  {
    if n > 0 {
      var rest := s - {n - 1};
      FewBelow(rest, n - 1);
      assert s <= rest + {n - 1};
      assert |s| <= |rest + {n - 1}| <= |rest| + 1;
    }
  }

  /** The containers of the live ones among the first `i` rows. */
  function LiveRanks(rows: seq<Entry>, ranks: seq<nat>, i: nat): set<nat>
    requires i <= |rows| == |ranks|
  {
    set k | 0 <= k < i && rows[k].time != FP_NULL :: ranks[k]
  }

  lemma LiveRanksAdd(rows: seq<Entry>, ranks: seq<nat>, i: nat)
    requires i < |rows| == |ranks|
    ensures LiveRanks(rows, ranks, i + 1) == LiveRanks(rows, ranks, i) + if LiveRow(rows, i) then {ranks[i]} else {}
  {
  }

  lemma LiveRanksNew(rows: seq<Entry>, ranks: seq<nat>, i: nat)
    requires i < |rows| == |ranks| && Distinct(rows, ranks) && LiveRow(rows, i)
    ensures ranks[i] !in LiveRanks(rows, ranks, i)
  {
    forall k | 0 <= k < i && LiveRow(rows, k) ensures ranks[k] != ranks[i] {}
  }

  lemma LiveRanksNext(rows: seq<Entry>, ranks: seq<nat>, i: nat)
    requires i < |rows| == |ranks| && Distinct(rows, ranks)
    ensures |LiveRanks(rows, ranks, i + 1)| == |LiveRanks(rows, ranks, i)| + if LiveRow(rows, i) then 1 else 0
  {
    LiveRanksAdd(rows, ranks, i);
    if LiveRow(rows, i) { LiveRanksNew(rows, ranks, i); }
  }

  lemma {:induction false} LiveRanksCount(cfg: Config, st: Store, rows: seq<Entry>, ranks: seq<nat>, i: nat)
    requires Shape(cfg, st) && |rows| == |ranks| == cfg.entries && TimesOk(cfg, st, rows) && Distinct(rows, ranks)
    requires i <= cfg.max
    ensures LiveUpTo(st.tlb, i) == |LiveRanks(rows, ranks, Min(i, cfg.entries))|
  {
    if i > 0 {
      LiveRanksCount(cfg, st, rows, ranks, i - 1);
      assert st.tlb[i - 1].time == if i - 1 < cfg.entries then rows[i - 1].time else FP_NULL;
      if i <= cfg.entries { LiveRanksNext(rows, ranks, i - 1); }
    }
  }

  /** No live row is in the container just past section 0. */
  predicate NonePast(cfg: Config, st: Store)
    requires Shape(cfg, st)
  {
    forall k | 0 <= k < cfg.max && IsLive(st, k) :: st.tlb[k].addr != cfg.base + PAGE * cfg.cps
  }

  /** A rebuild stays inside its buffer exactly when no live row is past section 0; the rows then also fit it. */
  lemma RebuildSafeIff(cfg: Config, st: Store, rows: seq<Entry>, ranks: seq<nat>)
    requires Rep(cfg, st, rows, ranks)
    ensures RebuildSafe(cfg, st) <==> NonePast(cfg, st)
  {
    forall k | 0 <= k < cfg.max && IsLive(st, k)
      ensures OnSlot(cfg, st.tlb[k].addr) && SlotOf(cfg, st.tlb[k].addr) == ranks[k] <= cfg.cps
    {
      assert LiveRow(rows, k) && RowOk(cfg, st, rows, ranks, k);
      SlotBack(cfg, st.tlb[k].addr, ranks[k]);
    }
    if NonePast(cfg, st) {
      LiveRanksCount(cfg, st, rows, ranks, cfg.max);
      forall x | x in LiveRanks(rows, ranks, cfg.entries) ensures x < cfg.cps {
        var k :| 0 <= k < cfg.entries && rows[k].time != FP_NULL && ranks[k] == x;
        assert st.tlb[k].time == rows[k].time && IsLive(st, k);
      }
      FewBelow(LiveRanks(rows, ranks, cfg.entries), cfg.cps);
    }
  }

  /**
   * Exactly which sets stay inside the driver's arrays, in every state a run reaches: those refused for
   * their time; those that find room in section 0; at its end, those refused by a full table, and the others
   * if the table can outgrow a section; and past its end, those that find no live row out there.
   */
  lemma SetSafeIff(cfg: Config, st: Store, rows: seq<Entry>, ranks: seq<nat>, e: Entry)
    requires Rep(cfg, st, rows, ranks)
    ensures SetSafe(cfg, st, e) <==>
      e.time < 0 || Used(cfg, st) < cfg.cps ||
      (Used(cfg, st) == cfg.cps && (!R.Set(rows, e).ok || cfg.max >= cfg.cps)) ||
      (Used(cfg, st) > cfg.cps && NonePast(cfg, st))
  {
    StoresIff(cfg, st, rows, e);
    RebuildSafeIff(cfg, st, rows, ranks);
    LiveGrows(st.tlb, 0, cfg.max);
    if NextSlot(cfg, st) <= cfg.cps { AddressableIff(cfg, NextSlot(cfg, st)); }
  }

  // ---------------------------------------------------------------- runs

  datatype Op =
    | SetOp(e: Entry, junk: seq<byte>)     // `junk` is what malloc returns if this set has to rebuild
    | GetOp(t: int32)
    | DeleteOp(t: int32)
    | DeleteIdxOp(i: int)
    | StatusOp(index: nat, v: uint32)
    | RebootOp

  datatype Answer = Status(ok: bool) | Record(ok: bool, e: Entry)

  /** What the flash code needs of its caller before one operation. */
  predicate OpFits(cfg: Config, st: Store, op: Op)
    requires Shape(cfg, st)
  {
    match op
    case SetOp(e, junk) => |junk| == PAGE * cfg.cps && (e.time >= 0 ==> e.Storable()) && SetFits(cfg, st, e)
    case GetOp(t) => t != FP_NULL
    case StatusOp(index, _) => StatusAddr(index) + 4 <= cfg.TlbBase()
    case _ => true
  }

  /** One operation on the store; in every state `Rep` describes, the two guards below hold. */
  ghost function FlashStep(cfg: Config, st: Store, op: Op): (r: (Store, Answer))
    requires Shape(cfg, st) && OpFits(cfg, st, op)
    ensures Shape(cfg, r.0)
  {
    match op
    case SetOp(e, junk) =>
      if SetSafe(cfg, st, e) then var o := FlashPlan.Set(cfg, st, e, junk); (o.st, Status(o.ok))
      else (st, Status(false))
    case GetOp(t) =>
      if forall i | 0 <= i < cfg.max :: Readable(cfg, st, i) then
        var g := FlashPlan.Get(cfg, st, t); (st, Record(g.0, g.1))
      else (st, Status(false))
    case DeleteOp(t) => var o := FlashPlan.Delete(cfg, st, t); (o.st, Status(o.ok))
    case DeleteIdxOp(i) => var o := FlashPlan.DeleteIdx(cfg, st, i); (o.st, Status(o.ok))
    case StatusOp(index, v) => (SetStatus(cfg, st, index, v), Status(true))
    case RebootOp => (Reboot(cfg, st), Status(true))
  }

  function RamStep(rows: seq<Entry>, commNode: int32, op: Op): (seq<Entry>, Answer) {
    match op
    case SetOp(e, _) => var o := R.Set(rows, e); (o.rows, Status(o.ok))
    case GetOp(t) => var g := R.Get(rows, t); (rows, Record(g.0, g.1))
    case DeleteOp(t) => var o := R.Delete(rows, t, commNode); (o.rows, Status(o.ok))
    case DeleteIdxOp(i) => var o := R.DeleteIdx(rows, i, commNode); (o.rows, Status(o.ok))
    case StatusOp(_, _) => (rows, Status(true))
    case RebootOp => (rows, Status(true))
  }

  /** One for a set that succeeds. */
  function Stored(rows: seq<Entry>, commNode: int32, op: Op): nat {
    if op.SetOp? && RamStep(rows, commNode, op).1.ok then 1 else 0
  }

  lemma StepRep(cfg: Config, st: Store, rows: seq<Entry>, ranks: seq<nat>, op: Op, commNode: int32)
    returns (ranks': seq<nat>)
    requires Rep(cfg, st, rows, ranks) && OpFits(cfg, st, op)
    ensures FlashStep(cfg, st, op).1 == RamStep(rows, commNode, op).1
    ensures Rep(cfg, FlashStep(cfg, st, op).0, RamStep(rows, commNode, op).0, ranks')
    ensures Used(cfg, st) <= cfg.cps ==>
      Used(cfg, FlashStep(cfg, st, op).0) == Used(cfg, st) + Stored(rows, commNode, op)
  {
    ranks' := ranks;
    match op
    case SetOp(e, junk) =>
      ranks' := SetRep(cfg, st, rows, ranks, e, junk);
    case GetOp(t) =>
      GetAgrees(cfg, st, rows, ranks, t);
    case DeleteOp(t) =>
      FindAgrees(cfg, st, rows, t);
      DeleteIdxRep(cfg, st, rows, ranks, Find(cfg, st.tlb, t, 0), commNode);
    case DeleteIdxOp(i) =>
      DeleteIdxRep(cfg, st, rows, ranks, i, commNode);
    case StatusOp(index, v) =>
      StatusRep(cfg, st, rows, ranks, index, v);
    case RebootOp =>
      RebootRestores(cfg, st);
  }

  lemma StatusRep(cfg: Config, st: Store, rows: seq<Entry>, ranks: seq<nat>, index: nat, v: uint32)
    requires Rep(cfg, st, rows, ranks) && StatusAddr(index) + 4 <= cfg.TlbBase()
    ensures Rep(cfg, SetStatus(cfg, st, index, v), rows, ranks)
  {
    StatusMirror(cfg, st, index, v);
    forall k | 0 <= k < cfg.entries && LiveRow(rows, k)
      ensures RowOk(cfg, SetStatus(cfg, st, index, v), rows, ranks, k)
    {
      assert RowOk(cfg, st, rows, ranks, k);
    }
  }

  ghost predicate RunFits(cfg: Config, st: Store, ops: seq<Op>)
    requires Shape(cfg, st)
    decreases |ops|
  {
    ops != [] ==> OpFits(cfg, st, ops[0]) && RunFits(cfg, FlashStep(cfg, st, ops[0]).0, ops[1..])
  }

  ghost function FlashRun(cfg: Config, st: Store, ops: seq<Op>): (r: (Store, seq<Answer>))
    requires Shape(cfg, st) && RunFits(cfg, st, ops)
    ensures Shape(cfg, r.0)
    decreases |ops|
  {
    if ops == [] then (st, []) else
      var s := FlashStep(cfg, st, ops[0]);
      var r := FlashRun(cfg, s.0, ops[1..]);
      (r.0, [s.1] + r.1)
  }

  function RamRun(rows: seq<Entry>, commNode: int32, ops: seq<Op>): (seq<Entry>, seq<Answer>)
    decreases |ops|
  {
    if ops == [] then (rows, []) else
      var s := RamStep(rows, commNode, ops[0]);
      var r := RamRun(s.0, commNode, ops[1..]);
      (r.0, [s.1] + r.1)
  }

  lemma {:induction false} RunRep(cfg: Config, st: Store, rows: seq<Entry>, ranks: seq<nat>, ops: seq<Op>,
      commNode: int32)
    returns (ranks': seq<nat>)
    requires Rep(cfg, st, rows, ranks) && RunFits(cfg, st, ops)
    ensures FlashRun(cfg, st, ops).1 == RamRun(rows, commNode, ops).1
    ensures Rep(cfg, FlashRun(cfg, st, ops).0, RamRun(rows, commNode, ops).0, ranks')
    decreases |ops|
  {
    if ops == [] {
      ranks' := ranks;
    } else {
      var mid := StepRep(cfg, st, rows, ranks, ops[0], commNode);
      ranks' := RunRep(cfg, FlashStep(cfg, st, ops[0]).0, RamStep(rows, commNode, ops[0]).0, mid, ops[1..], commNode);
    }
  }

  // ---------------------------------------------------------------- containers programmed twice

  /**
   * The set stores again in the container just past section 0, which only a reset erases: a rebuild
   * erases section 0 alone.
   */
  predicate Rewrites(cfg: Config, st: Store, op: Op)
    requires Shape(cfg, st)
  {
    op.SetOp? && Stores(cfg, st, op.e) && NextSlot(cfg, st) == cfg.cps && cfg.cps in st.worn
  }

  lemma RoomWear(cfg: Config, st: Store, rows: seq<Entry>, ranks: seq<nat>, junk: seq<byte>)
    requires Rep(cfg, st, rows, ranks) && RoomSafe(cfg, st) && |junk| == PAGE * cfg.cps
    ensures var st1 := MakeRoom(cfg, st, junk);
      st1.clean == st.clean && (NextSlot(cfg, st) in st1.worn <==> NextSlot(cfg, st) == cfg.cps && cfg.cps in st.worn)
  {
    if Used(cfg, st) > cfg.cps { RebuildPacks(cfg, st, junk); }
  }

  /** A set leaves every container programmed at most once since its erase, exactly if it does not do that. */
  lemma SetCleanIff(cfg: Config, st: Store, rows: seq<Entry>, ranks: seq<nat>, e: Entry, junk: seq<byte>)
    requires Rep(cfg, st, rows, ranks) && SetSafe(cfg, st, e) && |junk| == PAGE * cfg.cps
    ensures FlashPlan.Set(cfg, st, e, junk).st.clean <==> st.clean && !Rewrites(cfg, st, SetOp(e, junk))
  {
    if e.time >= 0 {
      var st1 := MakeRoom(cfg, st, junk);
      MakeRoomUsed(cfg, st, junk);
      RoomWear(cfg, st, rows, ranks, junk);
      SameTimesFind(cfg, st, st1);
      var i := Find(cfg, st1.tlb, FP_NULL, 0);
      if i != -1 && i < cfg.entries { WriteEffect(cfg, st1, i, e); }
    }
  }

  lemma SameTimesFind(cfg: Config, a: Store, b: Store)
    requires Shape(cfg, a) && Shape(cfg, b) && SameTimes(cfg, b, a)
    ensures Find(cfg, a.tlb, FP_NULL, 0) == Find(cfg, b.tlb, FP_NULL, 0)
  {
    var i, j := Find(cfg, a.tlb, FP_NULL, 0), Find(cfg, b.tlb, FP_NULL, 0);
    if i != -1 { assert b.tlb[i].time == FP_NULL; }
    if j != -1 { assert a.tlb[j].time == FP_NULL; }
  }

  lemma StepCleanIff(cfg: Config, st: Store, rows: seq<Entry>, ranks: seq<nat>, op: Op)
    requires Rep(cfg, st, rows, ranks) && OpFits(cfg, st, op)
    ensures FlashStep(cfg, st, op).0.clean <==> st.clean && !Rewrites(cfg, st, op)
  {
    if op.SetOp? {
      SetIsSafe(cfg, st, rows, ranks, op.e);
      SetCleanIff(cfg, st, rows, ranks, op.e, op.junk);
    }
  }

  ghost predicate NeverRewrites(cfg: Config, st: Store, ops: seq<Op>)
    requires Shape(cfg, st) && RunFits(cfg, st, ops)
    decreases |ops|
  {
    ops != [] ==> !Rewrites(cfg, st, ops[0]) && NeverRewrites(cfg, FlashStep(cfg, st, ops[0]).0, ops[1..])
  }

  lemma {:induction false} RunCleanIff(
    cfg: Config, st: Store, rows: seq<Entry>, ranks: seq<nat>, ops: seq<Op>, commNode: int32)
    requires Rep(cfg, st, rows, ranks) && RunFits(cfg, st, ops)
    ensures FlashRun(cfg, st, ops).0.clean <==> st.clean && NeverRewrites(cfg, st, ops)
    decreases |ops|
  {
    if ops != [] {
      StepCleanIff(cfg, st, rows, ranks, ops[0]);
      var mid := StepRep(cfg, st, rows, ranks, ops[0], commNode);
      RunCleanIff(cfg, FlashStep(cfg, st, ops[0]).0, RamStep(rows, commNode, ops[0]).0, mid, ops[1..], commNode);
    }
  }

  // ---------------------------------------------------------------- main results

  /**
   * Refinement.  From a reset, any sequence of sets, gets, deletions, status writes and reboots that
   * stays in range gets from the flash backend exactly the answers of the RAM table.  At the end the
   * live rows are in pairwise different containers, and the FRAM holds the TLB, so a reboot would change
   * nothing; no container was programmed twice between erases, exactly if no set of the run stored again
   * in the container past section 0.
   */
  lemma FlashRefinesRam(cfg: Config, st: Store, ops: seq<Op>, commNode: int32)
    requires Shape(cfg, st) && cfg.base + cfg.Sections() * (PAGE * cfg.cps) <= |st.flash|
    requires RunFits(cfg, Reset(cfg, st), ops)
    ensures FlashRun(cfg, Reset(cfg, st), ops).1 == RamRun(EmptyTable(cfg, commNode), commNode, ops).1
    ensures var end := FlashRun(cfg, Reset(cfg, st), ops).0;
      Reboot(cfg, end) == end && (end.clean <==> NeverRewrites(cfg, Reset(cfg, st), ops)) &&
      forall j, k | 0 <= j < k < cfg.entries && IsLive(end, j) && IsLive(end, k) :: end.tlb[j].addr != end.tlb[k].addr
  {
    ResetRep(cfg, st, commNode);
    var rows := EmptyTable(cfg, commNode);
    var ranks := RunRep(cfg, Reset(cfg, st), rows, seq(cfg.entries, _ => 0), ops, commNode);
    var end := FlashRun(cfg, Reset(cfg, st), ops).0;
    var rows' := RamRun(rows, commNode, ops).0;
    RebootRestores(cfg, end);
    RunCleanIff(cfg, Reset(cfg, st), rows, seq(cfg.entries, _ => 0), ops, commNode);
    forall j, k | 0 <= j < k < cfg.entries && IsLive(end, j) && IsLive(end, k)
      ensures end.tlb[j].addr != end.tlb[k].addr
    {
      assert LiveRow(rows', j) && LiveRow(rows', k);
      assert RowOk(cfg, end, rows', ranks, j) && RowOk(cfg, end, rows', ranks, k);
    }
  }

  /** The sets of a run that succeed. */
  function StoredBy(rows: seq<Entry>, commNode: int32, ops: seq<Op>): nat
    decreases |ops|
  {
    if ops == [] then 0
    else Stored(rows, commNode, ops[0]) + StoredBy(RamStep(rows, commNode, ops[0]).0, commNode, ops[1..])
  }

  /** An operation a caller may always issue, whatever the store looks like. */
  predicate WellFormed(cfg: Config, op: Op) {
    match op
    case SetOp(e, junk) => |junk| == PAGE * cfg.cps && (e.time >= 0 ==> e.Storable())
    case GetOp(t) => t != FP_NULL
    case StatusOp(index, _) => StatusAddr(index) + 4 <= cfg.TlbBase()
    case _ => true
  }

  /** Well-formed operations with at most commands_per_section successful sets since the reset stay in range. */
  lemma {:induction false} FewSetsFit(cfg: Config, st: Store, rows: seq<Entry>, ranks: seq<nat>, ops: seq<Op>,
      commNode: int32)
    requires Rep(cfg, st, rows, ranks) && Used(cfg, st) + StoredBy(rows, commNode, ops) <= cfg.cps
    requires forall op | op in ops :: WellFormed(cfg, op)
    ensures RunFits(cfg, st, ops) && NeverRewrites(cfg, st, ops)
    decreases |ops|
  {
    if ops != [] {
      assert WellFormed(cfg, ops[0]);
      if ops[0].SetOp? { StoresIff(cfg, st, rows, ops[0].e); }
      var mid := StepRep(cfg, st, rows, ranks, ops[0], commNode);
      FewSetsFit(cfg, FlashStep(cfg, st, ops[0]).0, RamStep(rows, commNode, ops[0]).0, mid, ops[1..], commNode);
    }
  }

  /** So with that many successful sets, and any number of refused ones, the backends agree and nothing is rewritten. */
  lemma RefinesUpToOneSection(cfg: Config, st: Store, ops: seq<Op>, commNode: int32)
    requires Shape(cfg, st) && cfg.base + cfg.Sections() * (PAGE * cfg.cps) <= |st.flash|
    requires StoredBy(EmptyTable(cfg, commNode), commNode, ops) <= cfg.cps
    requires forall op | op in ops :: WellFormed(cfg, op)
    ensures RunFits(cfg, Reset(cfg, st), ops)
    ensures FlashRun(cfg, Reset(cfg, st), ops).1 == RamRun(EmptyTable(cfg, commNode), commNode, ops).1
    ensures FlashRun(cfg, Reset(cfg, st), ops).0.clean
  {
    ResetRep(cfg, st, commNode);
    FewSetsFit(cfg, Reset(cfg, st), EmptyTable(cfg, commNode), seq(cfg.entries, _ => 0), ops, commNode);
    FlashRefinesRam(cfg, st, ops, commNode);
  }
}
