/** Payload samples kept in RAM: src/lib/storage/storage_ram.c, and the sample index of src/system/repoData.c. */
module RamPayload {
  import opened Options
  import opened Memory
  import opened Arithmetic
  import opened PayloadMap

  /** SCH_SIZE_PER_SECTION, SCH_SECTIONS_PER_PAYLOAD and the sample size of each payload. */
  datatype Config = Config(section: nat, perPayload: nat, sizes: seq<nat>)
  {
    predicate Ok() {
      perPayload <= section && forall s | s in sizes :: 0 < s <= section
    }

    function Total(): nat { |sizes| * perPayload * section }

    function PerSection(p: nat): (r: nat)
      requires Ok() && p < |sizes|
      ensures r > 0
    {
      assert sizes[p] in sizes;
      QuotientBelow(section, sizes[p], 1);
      section / sizes[p]
    }

    /** How many samples the sections of a payload hold. */
    function Capacity(p: nat): nat
      requires Ok() && p < |sizes|
    {
      perPayload * PerSection(p)
    }
  }

  /** What _get_sample_address answers; PastTable is a read beyond the table of section addresses. */
  datatype Where = Refused | PastTable | At(addr: nat)

  /** The section of the payload a sample is in, and its slot in that section. */
  function InPayload(cfg: Config, p: nat, index: nat): nat
    requires cfg.Ok() && p < |cfg.sizes|
  {
    index / cfg.PerSection(p)
  }

  function Slot(cfg: Config, p: nat, index: nat): nat
    requires cfg.Ok() && p < |cfg.sizes|
  {
    index % cfg.PerSection(p)
  }

  function Position(section: nat, bytes: nat, slot: nat, size: nat): nat { section * bytes + slot * size }

  function Address(cfg: Config, p: nat, index: nat): Where
    requires cfg.Ok() && p < |cfg.sizes|
  {
    var inPayload := InPayload(cfg, p, index);
    var section := SectionOf(p, cfg.perPayload, inPayload);
    if inPayload > cfg.perPayload then Refused
    else if section > |cfg.sizes| * cfg.section then Refused
    else if section >= |cfg.sizes| * cfg.perPayload then PastTable
    else
      var addr := Position(section, cfg.section, Slot(cfg, p, index), cfg.sizes[p]);
      if addr > cfg.Total() then Refused else At(addr)
  }

  /** Where a sample is, once the checks are known to pass. */
  function Offset(cfg: Config, p: nat, index: nat): nat
    requires cfg.Ok() && p < |cfg.sizes|
  {
    Position(SectionOf(p, cfg.perPayload, InPayload(cfg, p, index)), cfg.section, Slot(cfg, p, index), cfg.sizes[p])
  }

  lemma InSection(cfg: Config, p: nat, index: nat)
    requires cfg.Ok() && p < |cfg.sizes|
    ensures Slot(cfg, p, index) * cfg.sizes[p] + cfg.sizes[p] <= cfg.section
  {
    assert cfg.sizes[p] in cfg.sizes;
    SlotFits(index % cfg.PerSection(p), cfg.sizes[p], cfg.section);
  }

  /** The bounds of the table of sections and of the memory. */
  lemma SectionBound(cfg: Config, section: nat)
    requires cfg.Ok() && section < |cfg.sizes| * cfg.perPayload
    ensures section * cfg.section + cfg.section <= cfg.Total()
    ensures |cfg.sizes| * cfg.perPayload <= |cfg.sizes| * cfg.section
  {
    BlockOrder(section, |cfg.sizes| * cfg.perPayload, cfg.section);
    Scale(cfg.perPayload, cfg.section, |cfg.sizes|);
  }

  /** The section `inPayload` of payload `p` is in the table exactly when it is its own, or there is a next payload. */
  lemma SectionInTable(cfg: Config, p: nat, inPayload: nat)
    requires cfg.Ok() && p < |cfg.sizes| && inPayload <= cfg.perPayload
    ensures p * cfg.perPayload + inPayload < |cfg.sizes| * cfg.perPayload <==>
      inPayload < cfg.perPayload || (p + 1 < |cfg.sizes| && cfg.perPayload > 0)
  {
    var n := cfg.perPayload;
    BlockOrder(p, |cfg.sizes|, n);
    assert (p + 1) * n == p * n + n;
    if p + 1 < |cfg.sizes| { BlockOrder(p + 1, |cfg.sizes|, n); }
  }

  /**
   * Exactly what happens to every index: below the capacity it has its place; one section more is still
   * accepted, and is the next payload's first section; the rest is refused.
   */
  lemma AddressCases(cfg: Config, p: nat, index: nat)
    requires cfg.Ok() && p < |cfg.sizes|
    ensures Address(cfg, p, index) ==
      if index >= cfg.Capacity(p) + cfg.PerSection(p) then Refused
      else if index < cfg.Capacity(p) || (p + 1 < |cfg.sizes| && cfg.perPayload > 0) then At(Offset(cfg, p, index))
      else PastTable
  {
    var per := cfg.PerSection(p);
    QuotientBelow(index, per, cfg.perPayload);
    QuotientBelow(index, per, cfg.perPayload + 1);
    assert (cfg.perPayload + 1) * per == cfg.Capacity(p) + per;
    InSection(cfg, p, index);
    if index / per <= cfg.perPayload {
      SectionInTable(cfg, p, index / per);
      BlockOrder(p, |cfg.sizes|, cfg.perPayload);
      Scale(cfg.perPayload, cfg.section, |cfg.sizes|);
      var section := p * cfg.perPayload + index / per;
      if section < |cfg.sizes| * cfg.perPayload { SectionBound(cfg, section); }
    }
  }

  // ---------------------------------------------------------------- a map from keys to samples

  predicate Holds(cfg: Config, k: Key)
    requires cfg.Ok()
  {
    k.payload < |cfg.sizes| && k.index < cfg.Capacity(k.payload)
  }

  /** The layout of the samples that belong to their payload. */
  ghost function Samples(cfg: Config): Layout
    requires cfg.Ok()
  {
    imap k: Key | Holds(cfg, k) :: Place(Offset(cfg, k.payload, k.index), cfg.sizes[k.payload])
  }

  lemma OffsetFits(cfg: Config, k: Key)
    requires cfg.Ok() && Holds(cfg, k)
    ensures Offset(cfg, k.payload, k.index) + cfg.sizes[k.payload] <= cfg.Total()
  {
    var p := k.payload;
    QuotientBelow(k.index, cfg.PerSection(p), cfg.perPayload);
    SectionInTable(cfg, p, k.index / cfg.PerSection(p));
    SectionBound(cfg, SectionOf(p, cfg.perPayload, InPayload(cfg, p, k.index)));
    InSection(cfg, p, k.index);
  }

  lemma LayoutFits(cfg: Config)
    requires cfg.Ok()
    ensures Fits(Samples(cfg), cfg.Total())
  {
    forall k | k in Samples(cfg) ensures Samples(cfg)[k].addr + Samples(cfg)[k].size <= cfg.Total() {
      OffsetFits(cfg, k);
    }
  }

  /** Two samples in different sections. */
  lemma SectionsApart(cfg: Config, j: Key, k: Key)
    requires cfg.Ok() && Holds(cfg, j) && Holds(cfg, k)
    requires SectionOf(j.payload, cfg.perPayload, InPayload(cfg, j.payload, j.index)) <
      SectionOf(k.payload, cfg.perPayload, InPayload(cfg, k.payload, k.index))
    ensures Offset(cfg, j.payload, j.index) + cfg.sizes[j.payload] <= Offset(cfg, k.payload, k.index)
  {
    InSection(cfg, j.payload, j.index);
    BlockOrder(SectionOf(j.payload, cfg.perPayload, InPayload(cfg, j.payload, j.index)),
               SectionOf(k.payload, cfg.perPayload, InPayload(cfg, k.payload, k.index)), cfg.section);
  }

  /** Two samples in the same section are of the same payload, in different slots. */
  lemma SlotsApart(cfg: Config, j: Key, k: Key)
    requires cfg.Ok() && Holds(cfg, j) && Holds(cfg, k) && j != k
    requires SectionOf(j.payload, cfg.perPayload, InPayload(cfg, j.payload, j.index)) ==
      SectionOf(k.payload, cfg.perPayload, InPayload(cfg, k.payload, k.index))
    ensures j.payload == k.payload
    ensures var s, a, b := cfg.sizes[j.payload], Offset(cfg, j.payload, j.index), Offset(cfg, k.payload, k.index);
      a + s <= b || b + s <= a
  {
    QuotientBelow(j.index, cfg.PerSection(j.payload), cfg.perPayload);
    QuotientBelow(k.index, cfg.PerSection(k.payload), cfg.perPayload);
    DigitsUnique(j.payload, j.index / cfg.PerSection(j.payload),
                 k.payload, k.index / cfg.PerSection(k.payload), cfg.perPayload);
    var per := cfg.PerSection(j.payload);
    Division(j.index, per);
    Division(k.index, per);
    var x, y := j.index % per, k.index % per;
    if x < y { BlockOrder(x, y, cfg.sizes[j.payload]); } else { BlockOrder(y, x, cfg.sizes[j.payload]); }
  }

  lemma LayoutApart(cfg: Config)
    requires cfg.Ok()
    ensures Apart(Samples(cfg))
  {
    var l := Samples(cfg);
    forall j, k | j in l && k in l && j != k ensures Disjoint(l[j], l[k]) {
      var x := SectionOf(j.payload, cfg.perPayload, InPayload(cfg, j.payload, j.index));
      var y := SectionOf(k.payload, cfg.perPayload, InPayload(cfg, k.payload, k.index));
      if x < y {
        SectionsApart(cfg, j, k);
      } else if y < x {
        SectionsApart(cfg, k, j);
      } else {
        SlotsApart(cfg, j, k);
      }
    }
  }

  /** Below the capacity, the store is a map: after any run of writes each sample is the last one written. */
  lemma RamIsMap(cfg: Config, m: seq<byte>)
    requires cfg.Ok() && |m| == cfg.Total()
    ensures Fits(Samples(cfg), |m|) && Faithful(Samples(cfg), m)
  {
    LayoutFits(cfg);
    LayoutApart(cfg);
    forall k | k in Samples(cfg) ensures Samples(cfg)[k].size > 0 {
      assert cfg.sizes[k.payload] in cfg.sizes;
    }
    FaithfulIff(Samples(cfg), m);
  }

  /** An accepted write stays in the area of its payload exactly when its index is below the capacity. */
  lemma OwnAreaIff(cfg: Config, p: nat, index: nat)
    requires cfg.Ok() && p < |cfg.sizes| && Address(cfg, p, index).At?
    ensures var a, area := Address(cfg, p, index).addr, cfg.perPayload * cfg.section;
      p * area <= a && a + cfg.sizes[p] <= (p + 1) * area <==> index < cfg.Capacity(p)
  {
    AddressCases(cfg, p, index);
    InSection(cfg, p, index);
    QuotientBelow(index, cfg.PerSection(p), cfg.perPayload);
    InArea(p, cfg.perPayload, InPayload(cfg, p, index), cfg.section, Slot(cfg, p, index) * cfg.sizes[p]);
    assert cfg.sizes[p] in cfg.sizes;
  }

  /** The first index past the capacity is accepted, and is the first sample of the next payload. */
  lemma SpillAliases(cfg: Config, p: nat)
    requires cfg.Ok() && p + 1 < |cfg.sizes| && cfg.perPayload > 0
    ensures Address(cfg, p, cfg.Capacity(p)) == Address(cfg, p + 1, 0)
  {
    var per := cfg.PerSection(p);
    AddressCases(cfg, p, cfg.Capacity(p));
    AddressCases(cfg, p + 1, 0);
    Multiple(cfg.perPayload, per);
    assert (p + 1) * cfg.perPayload == p * cfg.perPayload + cfg.perPayload;
    assert 0 / cfg.PerSection(p + 1) == 0 && 0 % cfg.PerSection(p + 1) == 0;
    assert cfg.Capacity(p + 1) > 0 by { BlockOrder(0, cfg.perPayload, cfg.PerSection(p + 1)); }
  }

  // ---------------------------------------------------------------- the operations

  /** The store may be asked for this sample: it does not read past the table of sections. */
  predicate Defined(cfg: Config, p: nat, index: nat)
    requires cfg.Ok()
  {
    p < |cfg.sizes| && !Address(cfg, p, index).PastTable?
  }

  lemma AtFits(cfg: Config, p: nat, index: nat)
    requires cfg.Ok() && p < |cfg.sizes| && Address(cfg, p, index).At?
    ensures Address(cfg, p, index).addr + cfg.sizes[p] <= cfg.Total()
  {
    InSection(cfg, p, index);
    SectionBound(cfg, SectionOf(p, cfg.perPayload, InPayload(cfg, p, index)));
  }

  /** storage_payload_set_data */
  function SetData(cfg: Config, m: seq<byte>, p: nat, index: nat, data: seq<byte>): (r: (seq<byte>, bool))
    requires cfg.Ok() && |m| == cfg.Total() && Defined(cfg, p, index) && |data| == cfg.sizes[p]
    ensures |r.0| == |m|
  {
    match Address(cfg, p, index)
    case At(a) => AtFits(cfg, p, index); (Poke(m, a, data), true)
    case _ => (m, false)
  }

  /** storage_payload_get_data */
  function GetData(cfg: Config, m: seq<byte>, p: nat, index: nat): (r: Option<seq<byte>>)
    requires cfg.Ok() && |m| == cfg.Total() && Defined(cfg, p, index)
    ensures r.Some? ==> |r.value| == cfg.sizes[p]
  {
    match Address(cfg, p, index)
    case At(a) => AtFits(cfg, p, index); Some(Peek(m, a, cfg.sizes[p]))
    case _ => None
  }

  /** For every index that does not spill, the two operations are those of the map. */
  lemma OperationsAreMap(cfg: Config, m: seq<byte>, p: nat, index: nat, data: seq<byte>)
    requires cfg.Ok() && |m| == cfg.Total() && p < |cfg.sizes| && |data| == cfg.sizes[p]
    requires index < cfg.Capacity(p) || index >= cfg.Capacity(p) + cfg.PerSection(p)
    ensures var k := Key(p, index);
      Fits(Samples(cfg), |m|) && Sized(Samples(cfg), Write(k, data)) && Defined(cfg, p, index) &&
      SetData(cfg, m, p, index, data) == (Apply(Samples(cfg), m, Write(k, data)), Holds(cfg, k)) &&
      GetData(cfg, m, p, index) == if Holds(cfg, k) then Some(Sample(Samples(cfg), m, k)) else None
  {
    AddressCases(cfg, p, index);
    LayoutFits(cfg);
    assert Key(p, index) in Samples(cfg) <==> Holds(cfg, Key(p, index));
  }

  // ---------------------------------------------------------------- appending samples

  /** The memory, and the stored number of samples of each payload. */
  datatype Store = Store(m: seq<byte>, counts: seq<nat>)

  predicate Shape(cfg: Config, st: Store) {
    cfg.Ok() && |st.m| == cfg.Total() && |st.counts| == |cfg.sizes|
  }

  /** No payload has spilled past its capacity. */
  predicate Valid(cfg: Config, st: Store) {
    Shape(cfg, st) && forall p | 0 <= p < |cfg.sizes| :: st.counts[p] <= cfg.Capacity(p)
  }

  /** dat_add_payload_sample: the index advances only if the write succeeds. */
  function Add(cfg: Config, st: Store, p: nat, data: seq<byte>): (Store, bool)
    requires Shape(cfg, st) && p < |cfg.sizes| && Defined(cfg, p, st.counts[p]) && |data| == cfg.sizes[p]
  {
    var (m, ok) := SetData(cfg, st.m, p, st.counts[p], data);
    if ok then (Store(m, st.counts[p := st.counts[p] + 1]), true) else (st, false)
  }

  lemma AllPlaced(cfg: Config, p: nat, n: nat)
    requires cfg.Ok() && p < |cfg.sizes| && n <= cfg.Capacity(p)
    ensures Filled(Samples(cfg), p, n)
  {
    forall i: nat | i < n ensures Key(p, i) in Samples(cfg) {
      assert Holds(cfg, Key(p, i));
    }
  }

  /** All samples of a payload. */
  ghost function Log(cfg: Config, st: Store, q: nat): seq<seq<byte>>
    requires Valid(cfg, st) && q < |cfg.sizes|
  {
    LayoutFits(cfg);
    AllPlaced(cfg, q, st.counts[q]);
    SampleLog(Samples(cfg), st.m, q, st.counts[q])
  }

  /** What is read at each index of the log. */
  lemma LogAt(cfg: Config, st: Store, p: nat, i: nat)
    requires Valid(cfg, st) && p < |cfg.sizes| && i < st.counts[p]
    ensures |Log(cfg, st, p)| == st.counts[p] && Defined(cfg, p, i)
    ensures GetData(cfg, st.m, p, i) == Some(Log(cfg, st, p)[i])
  {
    AllPlaced(cfg, p, st.counts[p]);
    OperationsAreMap(cfg, st.m, p, i, Zeros(cfg.sizes[p]));
    SampleLogAt(Samples(cfg), st.m, p, st.counts[p], i);
  }

  /** A write to payload `p` leaves the log of another one alone. */
  lemma OtherLogKept(cfg: Config, st: Store, st': Store, w: Write, q: nat)
    requires Valid(cfg, st) && Valid(cfg, st') && q < |cfg.sizes| && w.key.payload != q && st'.counts[q] == st.counts[q]
    requires Fits(Samples(cfg), |st.m|) && Sized(Samples(cfg), w) && st'.m == Apply(Samples(cfg), st.m, w)
    ensures Log(cfg, st', q) == Log(cfg, st, q)
  {
    LayoutApart(cfg);
    AllPlaced(cfg, q, st.counts[q]);
    LogKept(Samples(cfg), st.m, w, q, st.counts[q]);
  }

  /** While there is room, adding a sample is a write of the map. */
  lemma AddIs(cfg: Config, st: Store, p: nat, data: seq<byte>)
    requires Valid(cfg, st) && p < |cfg.sizes| && st.counts[p] < cfg.Capacity(p) && |data| == cfg.sizes[p]
    ensures var n, w := st.counts[p], Write(Key(p, st.counts[p]), data);
      Defined(cfg, p, n) && Fits(Samples(cfg), |st.m|) && Sized(Samples(cfg), w) &&
      Add(cfg, st, p, data) == (Store(Apply(Samples(cfg), st.m, w), st.counts[p := n + 1]), true)
    ensures Valid(cfg, Add(cfg, st, p, data).0)
  {
    OperationsAreMap(cfg, st.m, p, st.counts[p], data);
  }

  lemma OwnLogGrows(cfg: Config, st: Store, st': Store, p: nat, data: seq<byte>)
    requires Valid(cfg, st) && Valid(cfg, st') && p < |cfg.sizes| && |data| == cfg.sizes[p]
    requires st'.counts[p] == st.counts[p] + 1 && Fits(Samples(cfg), |st.m|)
    requires Sized(Samples(cfg), Write(Key(p, st.counts[p]), data))
    requires st'.m == Apply(Samples(cfg), st.m, Write(Key(p, st.counts[p]), data))
    ensures Log(cfg, st', p) == Log(cfg, st, p) + [data]
  {
    LayoutApart(cfg);
    AllPlaced(cfg, p, st'.counts[p]);
    assert Holds(cfg, Key(p, st.counts[p]));
    LogAppend(Samples(cfg), st.m, p, st.counts[p], data);
  }

  /** While there is room, adding a sample appends it to its payload's log and leaves the others alone. */
  lemma AddAppends(cfg: Config, st: Store, p: nat, data: seq<byte>)
    requires Valid(cfg, st) && p < |cfg.sizes| && st.counts[p] < cfg.Capacity(p) && |data| == cfg.sizes[p]
    ensures Defined(cfg, p, st.counts[p])
    ensures var (st', ok) := Add(cfg, st, p, data);
      ok && Valid(cfg, st') && st'.counts == st.counts[p := st.counts[p] + 1] &&
      Log(cfg, st', p) == Log(cfg, st, p) + [data] &&
      forall q | 0 <= q < |cfg.sizes| && q != p :: Log(cfg, st', q) == Log(cfg, st, q)
  {
    AddIs(cfg, st, p, data);
    var st' := Add(cfg, st, p, data).0;
    OwnLogGrows(cfg, st, st', p, data);
    forall q | 0 <= q < |cfg.sizes| && q != p ensures Log(cfg, st', q) == Log(cfg, st, q) {
      OtherLogKept(cfg, st, st', Write(Key(p, st.counts[p]), data), q);
    }
  }

  /** The backend as the source has it: a buffer written in place, and the indexes. */
  class RamPayloads {
    const cfg: Config
    const db: array<byte>
    const counts: array<nat>

    ghost predicate Ready()
      reads this, db, counts
    {
      cfg.Ok() && db.Length == cfg.Total() && counts.Length == |cfg.sizes|
    }

    function State(): Store
      reads this, db, counts
    {
      Store(db[..], counts[..])
    }

    constructor (cfg: Config)
      requires cfg.Ok()
      ensures this.cfg == cfg && fresh(db) && fresh(counts) && Ready() && Valid(cfg, State())
      ensures State() == Store(Zeros(cfg.Total()), seq(|cfg.sizes|, _ => 0))
    {
      this.cfg := cfg;
      db := new byte[cfg.Total()](_ => 0);
      counts := new nat[|cfg.sizes|](_ => 0);
      new;
      assert db[..] == Zeros(cfg.Total());
      assert counts[..] == seq(|cfg.sizes|, _ => 0);
    }

    method Set(p: nat, index: nat, data: seq<byte>) returns (ok: bool)
      requires Ready() && Defined(cfg, p, index) && |data| == cfg.sizes[p]
      modifies db
      ensures (db[..], ok) == SetData(cfg, old(db[..]), p, index, data)
    {
      match Address(cfg, p, index) {
        case At(a) =>
          AtFits(cfg, p, index);
          MemCopy(db, a, data);
          ok := true;
        case _ =>
          ok := false;
      }
    }

    method Get(p: nat, index: nat) returns (r: Option<seq<byte>>)
      requires Ready() && Defined(cfg, p, index)
      ensures r == GetData(cfg, db[..], p, index)
    {
      match Address(cfg, p, index) {
        case At(a) =>
          AtFits(cfg, p, index);
          r := Some(db[a..a + cfg.sizes[p]]);
          assert db[a..a + cfg.sizes[p]] == db[..][a..a + cfg.sizes[p]];
        case _ =>
          r := None;
      }
    }

    /** dat_get_recent_payload_sample: `offset` counts back from the newest sample. */
    method GetRecent(p: nat, offset: int) returns (r: Option<seq<byte>>)
      requires Ready() && p < |cfg.sizes| && (counts[p] - 1 - offset >= 0 ==> Defined(cfg, p, counts[p] - 1 - offset))
      ensures r == if counts[p] - 1 - offset >= 0 then GetData(cfg, db[..], p, counts[p] - 1 - offset) else None
    {
      var index := counts[p];
      if index - 1 - offset >= 0 {
        r := Get(p, index - 1 - offset);
      } else {
        r := None;
      }
    }

    method AddSample(p: nat, data: seq<byte>) returns (ok: bool)
      requires Ready() && p < |cfg.sizes| && Defined(cfg, p, counts[p]) && |data| == cfg.sizes[p]
      modifies db, counts
      ensures (State(), ok) == Add(cfg, old(State()), p, data)
    {
      var index := counts[p];
      ok := Set(p, index, data);
      if ok {
        counts[p] := index + 1;
      }
    }
  }
}
