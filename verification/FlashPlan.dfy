/**
 * The flash backend of the flight plan, src/lib/storage/storage_flash.c: a log of 512-byte
 * containers in flash, a translation table (TLB) in RAM that says which container each row uses,
 * and an image of that table at the top of the FRAM.
 */
module FlashPlan {
  import opened Memory
  import opened Arithmetic
  import opened PlanRecord

  const FRAM_SIZE := 32768                     // ST_FRAM_SIZE
  const NULL_ADDR: uint32 := 0xFFFF_FFFF       // (uint32_t)ST_FP_NULL

  /** The build-time sizes.  `cps` is commands_per_section, so a section is `512 * cps` bytes. */
  datatype Config = Config(max: nat, entries: nat, cps: nat, base: nat)
  {
    /** st_flightplan_sections: how many section addresses the driver keeps. */
    function Sections(): nat
      requires cps > 0
    {
      max * PAGE / (PAGE * cps) + 1
    }

    /** Where the TLB image starts in the FRAM. */
    function TlbBase(): int { FRAM_SIZE - 8 * (max + 1) }

    predicate Ok() {
      cps > 0 && entries <= max && TlbBase() >= 0
    }

    /** The address of the n-th container: a section address plus an offset in that section. */
    function SlotAddr(n: nat): nat
      requires cps > 0
    {
      base + n / cps * (PAGE * cps) + n % cps * PAGE
    }

    /** Containers the driver has a section address for. */
    predicate Addressable(n: nat)
      requires cps > 0
    {
      n / cps < Sections()
    }

    /** What a read of a whole section transfers: storage_read_flash takes a 16-bit length. */
    function ReadLen(): nat { PAGE * cps % 65536 }
  }

  datatype TlbEntry = TlbEntry(addr: uint32, time: int32)

  /**
   * Both memories and the table.  `worn` is the set of containers programmed since their section was
   * last erased, and `clean` says that none was ever programmed while in it.
   */
  datatype Store = Store(flash: seq<byte>, fram: seq<byte>, tlb: seq<TlbEntry>, worn: set<nat>, clean: bool)

  predicate Shape(cfg: Config, st: Store) {
    cfg.Ok() && |st.tlb| == cfg.max + 1 && |st.fram| == FRAM_SIZE &&
    cfg.base + 2 * PAGE * cfg.cps <= |st.flash| <= 0xFFFF_FFFF
  }

  /** The last TLB entry counts the containers used. */
  function Used(cfg: Config, st: Store): uint32
    requires Shape(cfg, st)
  {
    st.tlb[cfg.max].addr
  }

  lemma ContainerFits(cfg: Config, st: Store, n: nat)
    requires Shape(cfg, st) && n <= cfg.cps
    ensures cfg.base + PAGE * n + PAGE <= |st.flash|
  {
  }

  /** The address of the next container. */
  function NextAddr(cfg: Config, st: Store): (a: uint32)
    requires Shape(cfg, st) && Used(cfg, st) <= cfg.cps
    ensures a + PAGE <= |st.flash|
  {
    ContainerFits(cfg, st, Used(cfg, st));
    cfg.base + PAGE * Used(cfg, st)
  }

  lemma SlotAddrIs(cfg: Config, n: nat)
    requires cfg.cps > 0 && n <= cfg.cps
    ensures cfg.SlotAddr(n) == cfg.base + PAGE * n
  {
    if n < cfg.cps { assert n / cfg.cps == 0 && n % cfg.cps == n; } else { assert n / n == 1 && n % n == 0; }
  }

  /** Section 0 is always there; the container right after it only if the table can outgrow a section. */
  lemma AddressableIff(cfg: Config, n: nat)
    requires cfg.cps > 0 && n <= cfg.cps
    ensures cfg.Addressable(n) <==> n < cfg.cps || cfg.max >= cfg.cps
  {
    QuotientBelow(n, cfg.cps, 1);
    QuotientBelow(cfg.max * PAGE, PAGE * cfg.cps, 1);
    if n == cfg.cps { assert n / n == 1; }
  }

  // ---------------------------------------------------------------- the TLB and its image

  /** storage_flightplan_find_index_tlb: the first of the `max` entries at or after `from` with time `t`, or -1. */
  function Find(cfg: Config, tlb: seq<TlbEntry>, t: int32, from: nat): (i: int)
    requires from <= cfg.max < |tlb|
    ensures i == -1 || (from <= i < cfg.max && tlb[i].time == t)
    ensures forall k | from <= k < (if i == -1 then cfg.max else i) :: tlb[k].time != t
    decreases cfg.max - from
  {
    if from == cfg.max then -1 else if tlb[from].time == t then from else Find(cfg, tlb, t, from + 1)
  }

  function EncodeTlb(e: TlbEntry): (r: seq<byte>)
    ensures |r| == 8
  {
    Word(e.addr) + Word(Unsigned(e.time))
  }

  function DecodeTlb(b: seq<byte>): TlbEntry
    requires |b| == 8
  {
    TlbEntry(Unword(b[..4]), Signed(Unword(b[4..])))
  }

  lemma TlbRoundTrip(e: TlbEntry)
    ensures DecodeTlb(EncodeTlb(e)) == e
  {
    WordRoundTrip(e.addr);
    SignedRoundTrip(e.time);
    assert EncodeTlb(e)[..4] == Word(e.addr) && EncodeTlb(e)[4..] == Word(Unsigned(e.time));
  }

  function EncodeAll(tlb: seq<TlbEntry>): (r: seq<byte>)
    ensures |r| == 8 * |tlb|
  {
    if tlb == [] then [] else EncodeAll(tlb[..|tlb| - 1]) + EncodeTlb(tlb[|tlb| - 1])
  }

  lemma {:induction false} EncodeAllAt(tlb: seq<TlbEntry>, i: nat)
    requires i < |tlb|
    ensures EncodeAll(tlb)[8 * i..8 * i + 8] == EncodeTlb(tlb[i])
  {
    var last := |tlb| - 1;
    if i < last {
      EncodeAllAt(tlb[..last], i);
      assert EncodeAll(tlb)[8 * i..8 * i + 8] == EncodeAll(tlb[..last])[8 * i..8 * i + 8];
    }
  }

  /** storage_flightplan_dump_tlb of one entry */
  function DumpOne(cfg: Config, st: Store, i: nat): (r: Store)
    requires Shape(cfg, st) && i <= cfg.max
    ensures Shape(cfg, r)
  {
    st.(fram := Poke(st.fram, cfg.TlbBase() + 8 * i, EncodeTlb(st.tlb[i])))
  }

  /** storage_flightplan_dump_tlb(-1) */
  function DumpAll(cfg: Config, st: Store): (r: Store)
    requires Shape(cfg, st)
    ensures Shape(cfg, r)
  {
    st.(fram := Poke(st.fram, cfg.TlbBase(), EncodeAll(st.tlb)))
  }

  /** storage_flightplan_load_tlb */
  function LoadFrom(cfg: Config, fram: seq<byte>, n: nat): (r: seq<TlbEntry>)
    requires cfg.TlbBase() >= 0 && |fram| == FRAM_SIZE && n <= cfg.max + 1
    ensures |r| == n
    ensures forall i | 0 <= i < n :: r[i] == DecodeTlb(Peek(fram, cfg.TlbBase() + 8 * i, 8))
  {
    if n == 0 then [] else LoadFrom(cfg, fram, n - 1) + [DecodeTlb(Peek(fram, cfg.TlbBase() + 8 * (n - 1), 8))]
  }

  /** storage_flightplan_update_tlb */
  function Update(cfg: Config, st: Store, i: nat, time: int32, addr: uint32): (r: Store)
    requires Shape(cfg, st) && i < cfg.max
    ensures Shape(cfg, r)
  {
    var used := st.tlb[cfg.max].addr;
    var count := TlbEntry(if used == 0xFFFF_FFFF then 0 else used + 1, st.tlb[cfg.max].time);
    var st1 := st.(tlb := st.tlb[i := TlbEntry(addr, time)][cfg.max := count]);
    DumpOne(cfg, DumpOne(cfg, st1, i), cfg.max)
  }

  lemma UpdateTlb(cfg: Config, st: Store, i: nat, time: int32, addr: uint32)
    requires Shape(cfg, st) && i < cfg.max && Used(cfg, st) < 0xFFFF_FFFF
    ensures Update(cfg, st, i, time, addr).tlb ==
      st.tlb[i := TlbEntry(addr, time)][cfg.max := TlbEntry(Used(cfg, st) + 1, st.tlb[cfg.max].time)]
  {
  }

  // ---------------------------------------------------------------- flash

  /** storage_write_flash of one container */
  function Program(cfg: Config, st: Store, n: nat, data: seq<byte>): (r: Store)
    requires Shape(cfg, st) && n <= cfg.cps && |data| == PAGE
    ensures Shape(cfg, r)
  {
    SlotAddrIs(cfg, n);
    st.(flash := Poke(st.flash, cfg.SlotAddr(n), data), worn := st.worn + {n}, clean := st.clean && n !in st.worn)
  }

  /** storage_erase_flash of section 0 */
  function EraseFirst(cfg: Config, st: Store): (r: Store)
    requires Shape(cfg, st)
    ensures Shape(cfg, r)
  {
    st.(flash := Poke(st.flash, cfg.base, Zeros(PAGE * cfg.cps)), worn := set n | n in st.worn && n >= cfg.cps)
  }

  /** Entries in use among the first `i`. */
  function LiveUpTo(tlb: seq<TlbEntry>, i: nat): nat
    requires i <= |tlb|
  {
    if i == 0 then 0 else LiveUpTo(tlb, i - 1) + if tlb[i - 1].time != FP_NULL then 1 else 0
  }

  lemma {:induction false} LiveGrows(tlb: seq<TlbEntry>, i: nat, j: nat)
    requires i <= j <= |tlb|
    ensures LiveUpTo(tlb, i) <= LiveUpTo(tlb, j) <= j
    ensures i < j && tlb[i].time != FP_NULL ==> LiveUpTo(tlb, i) < LiveUpTo(tlb, j)
    decreases j
  {
    if j > 0 { LiveGrows(tlb, if i < j then i else j - 1, j - 1); }
  }

  lemma {:induction false} LiveByTimes(a: seq<TlbEntry>, b: seq<TlbEntry>, i: nat)
    requires i <= |a| && i <= |b| && forall k | 0 <= k < i :: a[k].time == b[k].time
    ensures LiveUpTo(a, i) == LiveUpTo(b, i)
  {
    if i > 0 { LiveByTimes(a, b, i - 1); }
  }

  // ---------------------------------------------------------------- compaction

  predicate IsLive(st: Store, i: nat)
    requires i < |st.tlb|
  {
    st.tlb[i].time != FP_NULL
  }

  /** The container an address denotes. */
  function SlotOf(cfg: Config, addr: uint32): int { (addr - cfg.base) / PAGE }

  predicate OnSlot(cfg: Config, addr: uint32) {
    addr >= cfg.base && addr == cfg.base + PAGE * SlotOf(cfg, addr)
  }

  /** The rebuild indexes its buffer by the old container, so every live container must be in section 0. */
  predicate RebuildSafe(cfg: Config, st: Store)
    requires Shape(cfg, st)
  {
    LiveUpTo(st.tlb, cfg.max) <= cfg.cps &&
    forall i | 0 <= i < cfg.max && IsLive(st, i) :: OnSlot(cfg, st.tlb[i].addr) && SlotOf(cfg, st.tlb[i].addr) < cfg.cps
  }

  /** The malloc'ed buffer after the bulk read: `junk` where the read did not reach. */
  function BulkRead(cfg: Config, st: Store, junk: seq<byte>): (r: seq<byte>)
    requires Shape(cfg, st) && |junk| == PAGE * cfg.cps
    ensures |r| == PAGE * cfg.cps
  {
    Peek(st.flash, cfg.base, cfg.ReadLen()) + junk[cfg.ReadLen()..]
  }

  lemma ReadLenFits(cfg: Config)
    ensures cfg.ReadLen() <= PAGE * cfg.cps
  {
  }

  function Block(buffer: seq<byte>, n: nat): (r: seq<byte>)
    requires PAGE * (n + 1) <= |buffer|
    ensures |r| == PAGE
  {
    buffer[PAGE * n..PAGE * n + PAGE]
  }

  /** One round of the loop: entry `i`, if live, moves to the next free container. */
  function RebuildStep(cfg: Config, st: Store, buffer: seq<byte>, i: nat): (r: Store)
    requires Shape(cfg, st) && i < cfg.max && |buffer| == PAGE * cfg.cps
    requires IsLive(st, i) ==>
      OnSlot(cfg, st.tlb[i].addr) && SlotOf(cfg, st.tlb[i].addr) < cfg.cps && Used(cfg, st) < cfg.cps
    ensures Shape(cfg, r)
  {
    if !IsLive(st, i) then st else
      var n: nat := Used(cfg, st);
      SlotAddrIs(cfg, n);
      Program(cfg, Update(cfg, st, i, st.tlb[i].time, cfg.SlotAddr(n)), n, Block(buffer, SlotOf(cfg, st.tlb[i].addr)))
  }

  /** The rounds from entry `i` on can be carried out. */
  predicate Rebuildable(cfg: Config, st: Store, i: nat)
    requires Shape(cfg, st) && i <= cfg.max
  {
    Used(cfg, st) == LiveUpTo(st.tlb, i) && LiveUpTo(st.tlb, cfg.max) <= cfg.cps &&
    forall k | i <= k < cfg.max && IsLive(st, k) :: OnSlot(cfg, st.tlb[k].addr) && SlotOf(cfg, st.tlb[k].addr) < cfg.cps
  }

  /** There is a free container for every live entry still to be moved. */
  lemma NextFits(cfg: Config, st: Store, i: nat)
    requires Shape(cfg, st) && i < cfg.max && Rebuildable(cfg, st, i)
    ensures IsLive(st, i) ==> Used(cfg, st) < cfg.cps
  {
    LiveGrows(st.tlb, i, cfg.max);
  }

  lemma StepTlb(cfg: Config, st: Store, buffer: seq<byte>, i: nat)
    requires Shape(cfg, st) && i < cfg.max && |buffer| == PAGE * cfg.cps && IsLive(st, i)
    requires OnSlot(cfg, st.tlb[i].addr) && SlotOf(cfg, st.tlb[i].addr) < cfg.cps && Used(cfg, st) < cfg.cps
    ensures var n := Used(cfg, st);
      RebuildStep(cfg, st, buffer, i).tlb ==
        st.tlb[i := TlbEntry(cfg.base + PAGE * n, st.tlb[i].time)][cfg.max := TlbEntry(n + 1, st.tlb[cfg.max].time)]
  {
    var n: nat := Used(cfg, st);
    SlotAddrIs(cfg, n);
    UpdateTlb(cfg, st, i, st.tlb[i].time, cfg.SlotAddr(n));
  }

  lemma RebuildableStep(cfg: Config, st: Store, buffer: seq<byte>, i: nat)
    requires Shape(cfg, st) && i < cfg.max && |buffer| == PAGE * cfg.cps && Rebuildable(cfg, st, i)
    ensures IsLive(st, i) ==> Used(cfg, st) < cfg.cps
    ensures Rebuildable(cfg, RebuildStep(cfg, st, buffer, i), i + 1)
  {
    NextFits(cfg, st, i);
    if IsLive(st, i) {
      StepTlb(cfg, st, buffer, i);
      var st' := RebuildStep(cfg, st, buffer, i);
      LiveByTimes(st.tlb, st'.tlb, cfg.max);
      LiveByTimes(st.tlb, st'.tlb, i + 1);
    }
  }

  function RebuildFrom(cfg: Config, st: Store, buffer: seq<byte>, i: nat): (r: Store)
    requires Shape(cfg, st) && i <= cfg.max && |buffer| == PAGE * cfg.cps && Rebuildable(cfg, st, i)
    ensures Shape(cfg, r)
    decreases cfg.max - i
  {
    if i == cfg.max then st else
      RebuildableStep(cfg, st, buffer, i);
      RebuildFrom(cfg, RebuildStep(cfg, st, buffer, i), buffer, i + 1)
  }

  /** The state in which the loop of the rebuild starts: section 0 erased, the used counter zero. */
  function RebuildStart(cfg: Config, st: Store): (r: Store)
    requires Shape(cfg, st)
    ensures Shape(cfg, r)
  {
    EraseFirst(cfg, st).(tlb := st.tlb[cfg.max := TlbEntry(0, 0)])
  }

  lemma StartRebuildable(cfg: Config, st: Store)
    requires Shape(cfg, st) && RebuildSafe(cfg, st)
    ensures Rebuildable(cfg, RebuildStart(cfg, st), 0)
  {
    LiveByTimes(st.tlb, RebuildStart(cfg, st).tlb, cfg.max);
  }

  /** flight_plan_rebuild_tlb */
  function Rebuild(cfg: Config, st: Store, junk: seq<byte>): (r: Store)
    requires Shape(cfg, st) && |junk| == PAGE * cfg.cps && RebuildSafe(cfg, st)
    ensures Shape(cfg, r)
  {
    StartRebuildable(cfg, st);
    DumpAll(cfg, RebuildFrom(cfg, RebuildStart(cfg, st), BulkRead(cfg, st, junk), 0))
  }

  // ---------------------------------------------------------------- operations

  datatype Outcome = Outcome(ok: bool, st: Store)

  /** A set gets as far as storing: its time is not negative and some row is free. */
  predicate Stores(cfg: Config, st: Store, e: Entry)
    requires Shape(cfg, st)
  {
    e.time >= 0 && var i := Find(cfg, st.tlb, FP_NULL, 0); i != -1 && i < cfg.entries
  }

  /** The rebuild, if the space check asks for one, stays inside its buffer. */
  predicate RoomSafe(cfg: Config, st: Store)
    requires Shape(cfg, st)
  {
    Used(cfg, st) > cfg.cps ==> RebuildSafe(cfg, st)
  }

  /** The container a set stores in: the next one, counted after the rebuild if there is one. */
  function NextSlot(cfg: Config, st: Store): nat
    requires Shape(cfg, st)
  {
    if Used(cfg, st) > cfg.cps then LiveUpTo(st.tlb, cfg.max) else Used(cfg, st)
  }

  /** A set stays inside the driver's arrays: its rebuild does, and the section address it looks up exists. */
  predicate SetSafe(cfg: Config, st: Store, e: Entry)
    requires Shape(cfg, st)
  {
    e.time >= 0 ==> RoomSafe(cfg, st) && (Stores(cfg, st, e) ==> cfg.Addressable(NextSlot(cfg, st)))
  }

  /** The part of a set after the space check: store `e` in row `i`. */
  function Write(cfg: Config, st: Store, i: nat, e: Entry): (r: Store)
    requires Shape(cfg, st) && i < cfg.max && Used(cfg, st) <= cfg.cps
    ensures Shape(cfg, r)
  {
    var n: nat := Used(cfg, st);
    SlotAddrIs(cfg, n);
    Program(cfg, Update(cfg, st, i, e.time, cfg.SlotAddr(n)), n, Encode(e))
  }

  /** The store once storage_flight_plan_set_st has made sure there is room. */
  function MakeRoom(cfg: Config, st: Store, junk: seq<byte>): (r: Store)
    requires Shape(cfg, st) && |junk| == PAGE * cfg.cps && RoomSafe(cfg, st)
    ensures Shape(cfg, r)
  {
    if Used(cfg, st) > cfg.cps then Rebuild(cfg, st, junk) else st
  }

  predicate SameTimes(cfg: Config, a: Store, b: Store)
    requires Shape(cfg, a) && Shape(cfg, b)
  {
    forall k | 0 <= k < cfg.max :: a.tlb[k].time == b.tlb[k].time
  }

  lemma {:induction false} RebuildFromUsed(cfg: Config, st: Store, buffer: seq<byte>, i: nat)
    requires Shape(cfg, st) && i <= cfg.max && |buffer| == PAGE * cfg.cps && Rebuildable(cfg, st, i)
    ensures Used(cfg, RebuildFrom(cfg, st, buffer, i)) == LiveUpTo(st.tlb, cfg.max)
    ensures SameTimes(cfg, RebuildFrom(cfg, st, buffer, i), st)
    decreases cfg.max - i
  {
    if i < cfg.max {
      RebuildableStep(cfg, st, buffer, i);
      var st' := RebuildStep(cfg, st, buffer, i);
      LiveByTimes(st.tlb, st'.tlb, cfg.max);
      RebuildFromUsed(cfg, st', buffer, i + 1);
    }
  }

  /** The space check leaves room in section 0, or just past it, and changes no time. */
  lemma MakeRoomUsed(cfg: Config, st: Store, junk: seq<byte>)
    requires Shape(cfg, st) && |junk| == PAGE * cfg.cps && RoomSafe(cfg, st)
    ensures Used(cfg, MakeRoom(cfg, st, junk)) == NextSlot(cfg, st) <= cfg.cps
    ensures SameTimes(cfg, MakeRoom(cfg, st, junk), st)
  {
    if Used(cfg, st) > cfg.cps {
      var start := RebuildStart(cfg, st);
      LiveByTimes(st.tlb, start.tlb, cfg.max);
      RebuildFromUsed(cfg, start, BulkRead(cfg, st, junk), 0);
    }
  }

  /** storage_flight_plan_set */
  function Set(cfg: Config, st: Store, e: Entry, junk: seq<byte>): (r: Outcome)
    requires Shape(cfg, st) && |junk| == PAGE * cfg.cps && SetSafe(cfg, st, e)
    ensures Shape(cfg, r.st)
  {
    if e.time < 0 then Outcome(false, st) else
      var st1 := MakeRoom(cfg, st, junk);
      MakeRoomUsed(cfg, st, junk);
      var i := Find(cfg, st1.tlb, FP_NULL, 0);
      if i == -1 || i >= cfg.entries then Outcome(false, st1) else Outcome(true, Write(cfg, st1, i, e))
  }

  /** A live row's address can be read. */
  predicate Readable(cfg: Config, st: Store, i: nat)
    requires Shape(cfg, st) && i <= cfg.max
  {
    IsLive(st, i) ==> st.tlb[i].addr + PAGE <= |st.flash|
  }

  /** storage_flight_plan_get_args */
  function Get(cfg: Config, st: Store, t: int32): (bool, Entry)
    requires Shape(cfg, st) && forall i | 0 <= i < cfg.max :: Readable(cfg, st, i)
  {
    var i := Find(cfg, st.tlb, t, 0);
    if i == -1 || i >= cfg.entries || !IsLive(st, i) then (false, Cleared(0))
    else assert Readable(cfg, st, i); (true, Decode(Peek(st.flash, st.tlb[i].addr, PAGE)))
  }

  /** storage_flight_plan_delete_row_idx; only the TLB and its image forget the row */
  function DeleteIdx(cfg: Config, st: Store, i: int): (r: Outcome)
    requires Shape(cfg, st)
    ensures Shape(cfg, r.st)
  {
    if i >= cfg.entries || i < 0 then Outcome(false, st)
    else Outcome(true, DumpOne(cfg, st.(tlb := st.tlb[i := TlbEntry(NULL_ADDR, FP_NULL)]), i))
  }

  /** storage_flight_plan_delete_row */
  function Delete(cfg: Config, st: Store, t: int32): (r: Outcome)
    requires Shape(cfg, st)
    ensures Shape(cfg, r.st)
  {
    DeleteIdx(cfg, st, Find(cfg, st.tlb, t, 0))
  }

  /** storage_status_set_value_idx: the address is cut to 16 bits */
  function StatusAddr(index: nat): nat { 4 * index % 65536 }

  function SetStatus(cfg: Config, st: Store, index: nat, v: uint32): (r: Store)
    requires Shape(cfg, st) && StatusAddr(index) + 4 <= FRAM_SIZE
    ensures Shape(cfg, r)
  {
    st.(fram := Poke(st.fram, StatusAddr(index), Word(v)))
  }

  /** storage_close, storage_init and storage_table_flight_plan_init: RAM is lost, the FRAM image is loaded. */
  function Reboot(cfg: Config, st: Store): (r: Store)
    requires Shape(cfg, st)
    ensures Shape(cfg, r)
  {
    st.(tlb := LoadFrom(cfg, st.fram, cfg.max + 1))
  }

  /** storage_erase_flash of the first `k` sections */
  function EraseSections(cfg: Config, flash: seq<byte>, k: nat): (r: seq<byte>)
    requires cfg.cps > 0 && cfg.base + k * (PAGE * cfg.cps) <= |flash|
    ensures |r| == |flash|
  {
    if k == 0 then flash else
      assert k * (PAGE * cfg.cps) == (k - 1) * (PAGE * cfg.cps) + PAGE * cfg.cps;
      Poke(EraseSections(cfg, flash, k - 1), cfg.base + (k - 1) * (PAGE * cfg.cps), Zeros(PAGE * cfg.cps))
  }

  /** storage_flight_plan_reset */
  function Reset(cfg: Config, st: Store): (r: Store)
    requires Shape(cfg, st) && cfg.base + cfg.Sections() * (PAGE * cfg.cps) <= |st.flash|
    ensures Shape(cfg, r)
  {
    var blank := seq(cfg.max + 1, i => if i == cfg.max then TlbEntry(0, 0) else TlbEntry(NULL_ADDR, FP_NULL));
    DumpAll(cfg, Store(EraseSections(cfg, st.flash, cfg.Sections()), st.fram, blank, {}, true))
  }
}
