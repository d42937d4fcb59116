/**
 * The functions of src/lib/storage/storage_flash.c as methods that update the driver's state in
 * place: the two memories, and the TLB array the loops of the source search and rewrite.
 */
module FlashDriver {
  import opened Memory
  import opened Arithmetic
  import opened PlanRecord
  import opened FlashPlan

  class Driver {
    const cfg: Config
    const tlb: array<TlbEntry>
    var flash: seq<byte>
    var fram: seq<byte>
    ghost var worn: set<nat>
    ghost var clean: bool

    /** The abstract store this object holds. */
    ghost function Abs(): Store
      reads this, tlb
    {
      Store(flash, fram, tlb[..], worn, clean)
    }

    ghost predicate Valid()
      reads this, tlb
    {
      Shape(cfg, Abs())
    }

    /** storage_init, then storage_table_flight_plan_init: the TLB comes from the FRAM image. */
    constructor (cfg: Config, flash: seq<byte>, fram: seq<byte>)
      requires Shape(cfg, Store(flash, fram, seq(cfg.max + 1, _ => TlbEntry(0, 0)), {}, true))
      ensures Valid() && fresh(tlb) && this.cfg == cfg
      ensures Abs() == Store(flash, fram, LoadFrom(cfg, fram, cfg.max + 1), {}, true)
    {
      this.cfg := cfg;
      this.flash, this.fram := flash, fram;
      worn, clean := {}, true;
      var image := LoadFrom(cfg, fram, cfg.max + 1);
      tlb := new TlbEntry[cfg.max + 1](i requires 0 <= i < |image| => image[i]);
    }

    method FindIndexTlb(t: int32) returns (i: int)
      requires Valid()
      ensures i == Find(cfg, tlb[..], t, 0)
    {
      var k := 0;
      while k < cfg.max
        invariant 0 <= k <= cfg.max
        invariant Find(cfg, tlb[..], t, 0) == Find(cfg, tlb[..], t, k)
      {
        if tlb[k].time == t { return k; }
        k := k + 1;
      }
      return -1;
    }

    method DumpTlb(i: int)
      requires Valid() && i <= cfg.max
      modifies this`fram
      ensures Valid()
      ensures Abs() == if i < 0 then DumpAll(cfg, old(Abs())) else DumpOne(cfg, old(Abs()), i)
    {
      if i < 0 {
        fram := Poke(fram, cfg.TlbBase(), EncodeAll(tlb[..]));
      } else {
        fram := Poke(fram, cfg.TlbBase() + 8 * i, EncodeTlb(tlb[i]));
      }
    }

    method UpdateEntry(i: nat, time: int32, addr: uint32)
      requires Valid() && i < cfg.max
      modifies this`fram, tlb
      ensures Valid() && Abs() == Update(cfg, old(Abs()), i, time, addr)
    {
      ghost var before := tlb[..];
      tlb[i] := TlbEntry(addr, time);
      var used := tlb[cfg.max].addr;
      tlb[cfg.max] := TlbEntry(if used == 0xFFFF_FFFF then 0 else used + 1, tlb[cfg.max].time);
      assert tlb[..] == Update(cfg, old(Abs()), i, time, addr).tlb;
      DumpTlb(i);
      DumpTlb(cfg.max);
    }

    method WriteContainer(n: nat, data: seq<byte>)
      requires Valid() && n <= cfg.cps && |data| == PAGE
      modifies this`flash, this`worn, this`clean
      ensures Valid() && Abs() == Program(cfg, old(Abs()), n, data)
    {
      SlotAddrIs(cfg, n);
      flash := Poke(flash, cfg.SlotAddr(n), data);
      clean := clean && n !in worn;
      worn := worn + {n};
    }

    /** Erase section 0 and start counting containers from zero. */
    method StartRebuild()
      requires Valid()
      modifies this`flash, this`worn, tlb
      ensures Valid() && Abs() == RebuildStart(cfg, old(Abs()))
    {
      flash := Poke(flash, cfg.base, Zeros(PAGE * cfg.cps));
      worn := set n | n in worn && n >= cfg.cps;
      tlb[cfg.max] := TlbEntry(0, 0);
    }

    /** The loop body of the rebuild: entry `i`, if live, goes to the next container. */
    method MoveEntry(i: nat, buffer: seq<byte>)
      requires Valid() && i < cfg.max && |buffer| == PAGE * cfg.cps
      requires IsLive(Abs(), i) ==>
        OnSlot(cfg, tlb[i].addr) && SlotOf(cfg, tlb[i].addr) < cfg.cps && Used(cfg, Abs()) < cfg.cps
      modifies this, tlb
      ensures Valid() && Abs() == RebuildStep(cfg, old(Abs()), buffer, i)
    {
      if tlb[i].time != FP_NULL {
        var block := Block(buffer, (tlb[i].addr - cfg.base) / PAGE);
        var n := tlb[cfg.max].addr;
        SlotAddrIs(cfg, n);
        UpdateEntry(i, tlb[i].time, cfg.SlotAddr(n));
        WriteContainer(n, block);
      }
    }

    /** flight_plan_rebuild_tlb */
    method RebuildTlb(junk: seq<byte>)
      requires Valid() && |junk| == PAGE * cfg.cps && RebuildSafe(cfg, Abs())
      modifies this, tlb
      ensures Valid() && Abs() == Rebuild(cfg, old(Abs()), junk)
    {
      StartRebuildable(cfg, Abs());
      ghost var start := RebuildStart(cfg, Abs());
      ReadLenFits(cfg);
      var buffer := Peek(flash, cfg.base, cfg.ReadLen()) + junk[cfg.ReadLen()..];
      assert buffer == BulkRead(cfg, old(Abs()), junk);
      StartRebuild();
      var i := 0;
      while i < cfg.max
        invariant 0 <= i <= cfg.max && Valid() && Rebuildable(cfg, Abs(), i)
        invariant RebuildFrom(cfg, Abs(), buffer, i) == RebuildFrom(cfg, start, buffer, 0)
      {
        RebuildableStep(cfg, Abs(), buffer, i);
        MoveEntry(i, buffer);
        i := i + 1;
      }
      DumpTlb(-1);
    }

    /** The part of a set that stores `e` in the free row `i`. */
    method StoreRow(i: nat, e: Entry)
      requires Valid() && i < cfg.max && Used(cfg, Abs()) <= cfg.cps
      modifies this, tlb
      ensures Valid() && Abs() == Write(cfg, old(Abs()), i, e)
    {
      var n := tlb[cfg.max].addr;
      SlotAddrIs(cfg, n);
      UpdateEntry(i, e.time, cfg.SlotAddr(n));
      WriteContainer(n, Encode(e));
    }

    /** storage_flight_plan_set */
    method SetRow(e: Entry, junk: seq<byte>) returns (ok: bool)
      requires Valid() && |junk| == PAGE * cfg.cps && SetSafe(cfg, Abs(), e)
      modifies this, tlb
      ensures Valid() && Outcome(ok, Abs()) == Set(cfg, old(Abs()), e, junk)
    {
      if e.time < 0 { return false; }
      MakeRoomUsed(cfg, Abs(), junk);
      if tlb[cfg.max].addr > cfg.cps {
        RebuildTlb(junk);
      }
      var i := FindIndexTlb(FP_NULL);
      if i == -1 || i >= cfg.entries { return false; }
      StoreRow(i, e);
      return true;
    }

    /** storage_flight_plan_get_args */
    method GetArgs(t: int32) returns (ok: bool, e: Entry)
      requires Valid() && forall i | 0 <= i < cfg.max :: Readable(cfg, Abs(), i)
      ensures (ok, e) == Get(cfg, Abs(), t)
    {
      var i := FindIndexTlb(t);
      if i == -1 || i >= cfg.entries || tlb[i].time == FP_NULL { return false, Cleared(0); }
      assert Readable(cfg, Abs(), i);
      return true, Decode(Peek(flash, tlb[i].addr, PAGE));
    }

    /** storage_flight_plan_delete_row_idx */
    method DeleteRowIdx(i: int) returns (ok: bool)
      requires Valid()
      modifies this`fram, tlb
      ensures Valid() && Outcome(ok, Abs()) == DeleteIdx(cfg, old(Abs()), i)
    {
      if i >= cfg.entries || i < 0 { return false; }
      tlb[i] := TlbEntry(NULL_ADDR, FP_NULL);
      DumpTlb(i);
      return true;
    }

    /** storage_flight_plan_delete_row */
    method DeleteRow(t: int32) returns (ok: bool)
      requires Valid()
      modifies this`fram, tlb
      ensures Valid() && Outcome(ok, Abs()) == Delete(cfg, old(Abs()), t)
    {
      var i := FindIndexTlb(t);
      if i < 0 { return false; }
      ok := DeleteRowIdx(i);
    }

    /** storage_status_set_value_idx */
    method SetStatusCell(index: nat, v: uint32)
      requires Valid() && StatusAddr(index) + 4 <= FRAM_SIZE
      modifies this`fram
      ensures Valid() && Abs() == SetStatus(cfg, old(Abs()), index, v)
    {
      fram := Poke(fram, StatusAddr(index), Word(v));
    }

    /** The erase loop of storage_flight_plan_reset. */
    method ErasePlan()
      requires Valid() && cfg.base + cfg.Sections() * (PAGE * cfg.cps) <= |flash|
      modifies this`flash
      ensures flash == EraseSections(cfg, old(flash), cfg.Sections())
    {
      var section := PAGE * cfg.cps;
      for i := 0 to cfg.Sections()
        invariant cfg.base + i * section <= |old(flash)| == |flash|
        invariant flash == EraseSections(cfg, old(flash), i)
      {
        EraseNext(cfg, old(flash), i);
        flash := Poke(flash, cfg.base + i * section, Zeros(section));
      }
    }

    method ClearTlb()
      requires tlb.Length == cfg.max + 1
      modifies tlb
      ensures tlb[..] == seq(cfg.max + 1, i => if i == cfg.max then TlbEntry(0, 0) else TlbEntry(NULL_ADDR, FP_NULL))
    {
      for i := 0 to cfg.max
        invariant forall k | 0 <= k < i :: tlb[k] == TlbEntry(NULL_ADDR, FP_NULL)
      {
        tlb[i] := TlbEntry(NULL_ADDR, FP_NULL);
      }
      tlb[cfg.max] := TlbEntry(0, 0);
    }

    /** storage_flight_plan_reset */
    method ResetPlan()
      requires Valid() && cfg.base + cfg.Sections() * (PAGE * cfg.cps) <= |flash|
      modifies this, tlb
      ensures Valid() && Abs() == Reset(cfg, old(Abs()))
    {
      ErasePlan();
      worn, clean := {}, true;
      ClearTlb();
      DumpTlb(-1);
    }
  }

  lemma EraseNext(cfg: Config, flash: seq<byte>, i: nat)
    requires cfg.cps > 0 && i < cfg.Sections() && cfg.base + cfg.Sections() * (PAGE * cfg.cps) <= |flash|
    ensures cfg.base + i * (PAGE * cfg.cps) + PAGE * cfg.cps <= |flash|
    ensures cfg.base + (i + 1) * (PAGE * cfg.cps) <= |flash|
    ensures EraseSections(cfg, flash, i + 1) ==
      Poke(EraseSections(cfg, flash, i), cfg.base + i * (PAGE * cfg.cps), Zeros(PAGE * cfg.cps))
  {
    SectionInside(cfg, i, |flash|);
  }

  lemma SectionInside(cfg: Config, i: nat, n: nat)
    requires cfg.cps > 0 && i < cfg.Sections() && cfg.base + cfg.Sections() * (PAGE * cfg.cps) <= n
    ensures cfg.base + i * (PAGE * cfg.cps) + PAGE * cfg.cps == cfg.base + (i + 1) * (PAGE * cfg.cps) <= n
  {
    BlockOrder(i, cfg.Sections(), PAGE * cfg.cps);
    Times(i + 1, PAGE * cfg.cps);
  }
}
