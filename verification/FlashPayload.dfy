/** Payload samples kept in flash: src/lib/storage/storage_flash.c, and the sample index of src/system/repoData.c. */
module FlashPayload {
  import opened Options
  import opened Memory
  import opened Arithmetic
  import opened PayloadMap

  /**
   * The sizes, in pages: of a section, and of what lies before SCH_FLASH_INIT_MEMORY.  `plan` is how many
   * sections the flight plan has, and `sizes` the sample size of each payload.
   */
  datatype Config = Config(pages: nat, perPayload: nat, init: nat, plan: nat, sizes: seq<nat>)
  {
    predicate Ok() {
      pages > 0 && perPayload > 0 && forall p | 0 <= p < |sizes| :: sizes[p] > 0
    }

    /** The page the first payload section starts at: after the flight-plan table and one more section. */
    function Base(): nat { init + pages + plan * pages }

    /** The last address _get_sample_address lets through. */
    function Limit(): nat { PAGE * (2 * init + pages + |sizes| * perPayload * pages) }

    function PerPage(p: nat): nat
      requires Ok() && p < |sizes|
    {
      PAGE / sizes[p]
    }
  }

  datatype Where = Refused | PastTable | At(addr: nat)

  /** A payload whose samples fit in a page. */
  predicate Payload(cfg: Config, p: nat) {
    cfg.Ok() && p < |cfg.sizes| && cfg.PerPage(p) > 0
  }

  function PageOf(cfg: Config, p: nat, index: nat): nat
    requires Payload(cfg, p)
  {
    index / cfg.PerPage(p)
  }

  function Slot(cfg: Config, p: nat, index: nat): nat
    requires Payload(cfg, p)
  {
    index % cfg.PerPage(p)
  }

  function PerSection(cfg: Config, p: nat): (r: nat)
    requires Payload(cfg, p)
    ensures r > 0
  {
    BlockOrder(0, cfg.PerPage(p), cfg.pages);
    cfg.PerPage(p) * cfg.pages
  }

  function InPayload(cfg: Config, p: nat, index: nat): nat
    requires Payload(cfg, p)
  {
    index / PerSection(cfg, p)
  }

  /** The page number the code computes: the section's first page plus the page number within the payload. */
  function PageNumber(base: nat, section: nat, pages: nat, page: nat): nat { base + section * pages + page }

  function ByteAddress(page: nat, slot: nat, size: nat): nat { page * PAGE + slot * size }

  /** Where a sample is, once the checks are known to pass. */
  function PageAt(cfg: Config, p: nat, index: nat): nat
    requires Payload(cfg, p)
  {
    PageNumber(cfg.Base(), SectionOf(p, cfg.perPayload, InPayload(cfg, p, index)), cfg.pages, PageOf(cfg, p, index))
  }

  function Offset(cfg: Config, p: nat, index: nat): nat
    requires Payload(cfg, p)
  {
    ByteAddress(PageAt(cfg, p, index), Slot(cfg, p, index), cfg.sizes[p])
  }

  /** _get_sample_address */
  function Address(cfg: Config, p: nat, index: nat): Where
    requires cfg.Ok() && p < |cfg.sizes|
  {
    if cfg.PerPage(p) == 0 then Refused else
      var inPayload := InPayload(cfg, p, index);
      var section := SectionOf(p, cfg.perPayload, inPayload);
      if inPayload > cfg.perPayload then Refused
      else if section > |cfg.sizes| * cfg.perPayload then Refused
      else if section == |cfg.sizes| * cfg.perPayload then PastTable
      else if Offset(cfg, p, index) > cfg.Limit() then Refused
      else At(Offset(cfg, p, index))
  }

  /** check_address_alignment */
  predicate Aligned(addr: nat, size: nat) {
    (addr + size) / PAGE <= addr / PAGE
  }

  /** The store accepts this sample, for writing and for reading. */
  predicate Accepts(cfg: Config, p: nat, index: nat)
    requires cfg.Ok() && p < |cfg.sizes|
  {
    Address(cfg, p, index).At? && Aligned(Address(cfg, p, index).addr, cfg.sizes[p])
  }

  // ---------------------------------------------------------------- pages

  lemma SlotInPage(cfg: Config, p: nat, index: nat)
    requires Payload(cfg, p)
    ensures Slot(cfg, p, index) * cfg.sizes[p] + cfg.sizes[p] <= PAGE
  {
    SlotFits(Slot(cfg, p, index), cfg.sizes[p], PAGE);
  }

  /** No accepted sample crosses a page boundary, whatever the address. */
  lemma NoPageCrossed(addr: nat, size: nat)
    requires size > 0 && Aligned(addr, size)
    ensures addr / PAGE == (addr + size - 1) / PAGE
  {
  }

  lemma AlignedAt(page: nat, offset: nat, size: nat)
    requires size > 0 && offset + size <= PAGE
    ensures Aligned(page * PAGE + offset, size) <==> offset + size < PAGE
  {
  }

  /** The slot that ends on the page boundary: the last one of a page whose size the samples divide. */
  lemma EndsPageIff(slot: nat, size: nat)
    requires size > 0 && slot < PAGE / size
    ensures slot * size + size == PAGE <==> PAGE % size == 0 && slot == PAGE / size - 1
  {
    Division(PAGE, size);
    assert (slot + 1) * size == slot * size + size;
    if slot + 1 < PAGE / size { BlockOrder(slot + 1, PAGE / size, size); }
  }

  /** The alignment check refuses exactly the last slot of each page of a payload whose size divides 512. */
  lemma AlignedIff(cfg: Config, p: nat, index: nat)
    requires Payload(cfg, p)
    ensures Aligned(Offset(cfg, p, index), cfg.sizes[p]) <==>
      !(PAGE % cfg.sizes[p] == 0 && Slot(cfg, p, index) == cfg.PerPage(p) - 1)
  {
    var size, slot := cfg.sizes[p], Slot(cfg, p, index);
    SlotInPage(cfg, p, index);
    AlignedAt(PageAt(cfg, p, index), slot * size, size);
    EndsPageIff(slot, size);
  }

  /**
   * The page number within the payload is not reduced to the section, so the section offset is counted
   * twice: what the code calls section `s` of the payload is where section `2 * s` would be.
   */
  lemma SectionsAreDoubled(cfg: Config, p: nat, index: nat)
    requires Payload(cfg, p)
    ensures PageAt(cfg, p, index) ==
      cfg.Base() + SectionOf(p, cfg.perPayload, 2 * InPayload(cfg, p, index)) * cfg.pages +
      PageOf(cfg, p, index) % cfg.pages
  {
    var page, s := PageOf(cfg, p, index), InPayload(cfg, p, index);
    assert PerSection(cfg, p) == cfg.PerPage(p) * cfg.pages;
    NestedDivision(index, cfg.PerPage(p), cfg.pages);
    Division(page, cfg.pages);
    var x := SectionOf(p, cfg.perPayload, s);
    assert (x + s) * cfg.pages == x * cfg.pages + s * cfg.pages;
  }

  // ---------------------------------------------------------------- a map from keys to samples

  /** The samples that are accepted and whose real section is one of their payload's. */
  predicate Holds(cfg: Config, k: Key)
    requires cfg.Ok()
  {
    k.payload < |cfg.sizes| && cfg.PerPage(k.payload) > 0 && Accepts(cfg, k.payload, k.index) &&
    2 * InPayload(cfg, k.payload, k.index) < cfg.perPayload
  }

  ghost function Samples(cfg: Config): Layout
    requires cfg.Ok()
  {
    imap k: Key | Holds(cfg, k) :: Place(Offset(cfg, k.payload, k.index), cfg.sizes[k.payload])
  }

  /** Samples on different pages. */
  lemma PagesApart(cfg: Config, j: Key, k: Key)
    requires cfg.Ok() && Holds(cfg, j) && Holds(cfg, k)
    requires PageAt(cfg, j.payload, j.index) < PageAt(cfg, k.payload, k.index)
    ensures Offset(cfg, j.payload, j.index) + cfg.sizes[j.payload] <= Offset(cfg, k.payload, k.index)
  {
    SlotInPage(cfg, j.payload, j.index);
    BytesApart(PageAt(cfg, j.payload, j.index), Slot(cfg, j.payload, j.index), cfg.sizes[j.payload],
               PageAt(cfg, k.payload, k.index), Slot(cfg, k.payload, k.index), cfg.sizes[k.payload]);
  }

  lemma BytesApart(x: nat, slot: nat, size: nat, y: nat, slot': nat, size': nat)
    requires x < y && slot * size + size <= PAGE
    ensures ByteAddress(x, slot, size) + size <= ByteAddress(y, slot', size')
  {
  }

  /** Samples on the same page are of the same payload and the same page of it. */
  lemma SamePage(cfg: Config, j: Key, k: Key)
    requires cfg.Ok() && Holds(cfg, j) && Holds(cfg, k)
    requires PageAt(cfg, j.payload, j.index) == PageAt(cfg, k.payload, k.index)
    ensures j.payload == k.payload && PageOf(cfg, j.payload, j.index) == PageOf(cfg, k.payload, k.index)
  {
    var s, t := InPayload(cfg, j.payload, j.index), InPayload(cfg, k.payload, k.index);
    var a, b := PageOf(cfg, j.payload, j.index), PageOf(cfg, k.payload, k.index);
    var x, y := SectionOf(j.payload, cfg.perPayload, 2 * s), SectionOf(k.payload, cfg.perPayload, 2 * t);
    SectionsAreDoubled(cfg, j.payload, j.index);
    SectionsAreDoubled(cfg, k.payload, k.index);
    DigitsUnique(x, a % cfg.pages, y, b % cfg.pages, cfg.pages);
    DigitsUnique(j.payload, 2 * s, k.payload, 2 * t, cfg.perPayload);
    assert SectionOf(j.payload, cfg.perPayload, s) == SectionOf(k.payload, cfg.perPayload, t);
  }

  lemma SlotsApart(cfg: Config, j: Key, k: Key)
    requires cfg.Ok() && Holds(cfg, j) && Holds(cfg, k) && j != k
    requires PageAt(cfg, j.payload, j.index) == PageAt(cfg, k.payload, k.index)
    ensures j.payload == k.payload
    ensures var s, a, b := cfg.sizes[j.payload], Offset(cfg, j.payload, j.index), Offset(cfg, k.payload, k.index);
      a + s <= b || b + s <= a
  {
    SamePage(cfg, j, k);
    var p := j.payload;
    Division(j.index, cfg.PerPage(p));
    Division(k.index, cfg.PerPage(p));
    var x, y := Slot(cfg, p, j.index), Slot(cfg, p, k.index);
    if x < y { BlockOrder(x, y, cfg.sizes[p]); } else { BlockOrder(y, x, cfg.sizes[p]); }
  }

  lemma LayoutApart(cfg: Config)
    requires cfg.Ok()
    ensures Apart(Samples(cfg))
  {
    var l := Samples(cfg);
    forall j, k | j in l && k in l && j != k ensures Disjoint(l[j], l[k]) {
      var x, y := PageAt(cfg, j.payload, j.index), PageAt(cfg, k.payload, k.index);
      if x < y {
        PagesApart(cfg, j, k);
      } else if y < x {
        PagesApart(cfg, k, j);
      } else {
        SlotsApart(cfg, j, k);
      }
    }
  }

  lemma AcceptedFits(cfg: Config, p: nat, index: nat)
    requires cfg.Ok() && p < |cfg.sizes| && Address(cfg, p, index).At?
    ensures Address(cfg, p, index).addr + cfg.sizes[p] <= cfg.Limit() + PAGE
  {
    SlotInPage(cfg, p, index);
  }

  /** On those samples the store is a map: after any run of writes each is the last one written. */
  lemma FlashIsMap(cfg: Config, m: seq<byte>)
    requires cfg.Ok() && |m| >= cfg.Limit() + PAGE
    ensures Fits(Samples(cfg), |m|) && Faithful(Samples(cfg), m)
  {
    var l := Samples(cfg);
    forall k | k in l ensures l[k].addr + l[k].size <= |m| && l[k].size > 0 {
      AcceptedFits(cfg, k.payload, k.index);
    }
    LayoutApart(cfg);
    FaithfulIff(l, m);
  }

  // ---------------------------------------------------------------- the first section

  lemma FirstSection(cfg: Config, p: nat, index: nat)
    requires Payload(cfg, p) && index < PerSection(cfg, p)
    ensures InPayload(cfg, p, index) == 0 && SectionOf(p, cfg.perPayload, 0) < |cfg.sizes| * cfg.perPayload
  {
    QuotientBelow(index, PerSection(cfg, p), 1);
    BlockOrder(p, |cfg.sizes|, cfg.perPayload);
  }

  /** Exactly which samples of the first section are accepted: within the limit, and not ending their page. */
  lemma FirstSectionAccepts(cfg: Config, p: nat, index: nat)
    requires Payload(cfg, p) && index < PerSection(cfg, p)
    ensures Accepts(cfg, p, index) <==>
      Offset(cfg, p, index) <= cfg.Limit() && !(PAGE % cfg.sizes[p] == 0 && Slot(cfg, p, index) == cfg.PerPage(p) - 1)
    ensures Holds(cfg, Key(p, index)) <==> Accepts(cfg, p, index)
  {
    FirstSection(cfg, p, index);
    AlignedIff(cfg, p, index);
  }

  /** The last sample of the first section. */
  function LastIndex(cfg: Config, p: nat): nat
    requires Payload(cfg, p)
  {
    PerSection(cfg, p) - 1
  }

  lemma LastIndexIs(cfg: Config, p: nat)
    requires Payload(cfg, p)
    ensures PageOf(cfg, p, LastIndex(cfg, p)) == cfg.pages - 1 && Slot(cfg, p, LastIndex(cfg, p)) == cfg.PerPage(p) - 1
  {
    LastOf(cfg.PerPage(p), cfg.pages);
  }

  /** It has the highest address of the section. */
  lemma LastIsHighest(cfg: Config, p: nat, index: nat)
    requires Payload(cfg, p) && index < PerSection(cfg, p)
    ensures Offset(cfg, p, index) <= Offset(cfg, p, LastIndex(cfg, p))
  {
    var per, last := cfg.PerPage(p), LastIndex(cfg, p);
    FirstSection(cfg, p, index);
    FirstSection(cfg, p, last);
    LastIndexIs(cfg, p);
    assert per * cfg.pages == cfg.pages * per;
    QuotientBelow(index, per, cfg.pages);
    Higher(PageAt(cfg, p, index), Slot(cfg, p, index), PageAt(cfg, p, last), Slot(cfg, p, last), cfg.sizes[p]);
  }

  lemma Higher(page: nat, slot: nat, page': nat, slot': nat, size: nat)
    requires page <= page' && slot <= slot'
    ensures ByteAddress(page, slot, size) <= ByteAddress(page', slot', size)
  {
    Scale(slot, slot', size);
  }

  /**
   * The whole first section is accepted, exactly when the sample size does not divide the page and the section
   * lies inside the limit.
   */
  lemma SectionAcceptedIff(cfg: Config, p: nat)
    requires Payload(cfg, p)
    ensures (forall i: nat | i < PerSection(cfg, p) :: Accepts(cfg, p, i)) <==>
      PAGE % cfg.sizes[p] != 0 && Offset(cfg, p, LastIndex(cfg, p)) <= cfg.Limit()
  {
    var last := LastIndex(cfg, p);
    LastIndexIs(cfg, p);
    FirstSectionAccepts(cfg, p, last);
    if PAGE % cfg.sizes[p] != 0 && Offset(cfg, p, last) <= cfg.Limit() {
      forall i: nat | i < PerSection(cfg, p) ensures Accepts(cfg, p, i) {
        FirstSectionAccepts(cfg, p, i);
        LastIsHighest(cfg, p, i);
      }
    }
  }

  /** A sample is in its payload's area exactly when twice its section number is. */
  lemma OwnAreaIff(cfg: Config, p: nat, index: nat)
    requires Payload(cfg, p)
    ensures var a, base, area := Offset(cfg, p, index), PAGE * cfg.Base(), PAGE * (cfg.perPayload * cfg.pages);
      base + p * area <= a &&
      (a + cfg.sizes[p] <= base + (p + 1) * area <==> 2 * InPayload(cfg, p, index) < cfg.perPayload)
  {
    var n, s, page := cfg.perPayload, InPayload(cfg, p, index), PageAt(cfg, p, index);
    SectionsAreDoubled(cfg, p, index);
    SlotInPage(cfg, p, index);
    InArea(p, n, 2 * s, cfg.pages, PageOf(cfg, p, index) % cfg.pages);
    Swap(p, n * cfg.pages);
    Swap(p + 1, n * cfg.pages);
  }

  lemma Swap(p: nat, x: nat)
    ensures p * (PAGE * x) == PAGE * (p * x)
  {
  }

  lemma HalfWayOffset(cfg: Config, p: nat, h: nat)
    requires Payload(cfg, p) && Payload(cfg, p + 1) && cfg.perPayload == 2 * h
    ensures InPayload(cfg, p, h * PerSection(cfg, p)) == h && Slot(cfg, p, h * PerSection(cfg, p)) == 0
    ensures InPayload(cfg, p + 1, 0) == 0 && Offset(cfg, p, h * PerSection(cfg, p)) == Offset(cfg, p + 1, 0)
  {
    var index := h * PerSection(cfg, p);
    Multiple(h, PerSection(cfg, p));
    assert PerSection(cfg, p) == cfg.PerPage(p) * cfg.pages;
    assert index == h * cfg.pages * cfg.PerPage(p) by { Product(h, cfg.pages, cfg.PerPage(p)); }
    Multiple(h * cfg.pages, cfg.PerPage(p));
    assert 0 / PerSection(cfg, p + 1) == 0 && 0 / cfg.PerPage(p + 1) == 0 && 0 % cfg.PerPage(p + 1) == 0;
    var x := p * cfg.perPayload;
    assert (p + 1) * cfg.perPayload == x + h + h;
    assert (x + h + h) * cfg.pages == (x + h) * cfg.pages + h * cfg.pages;
  }

  /**
   * With an even number of sections, the second half of a payload is the first half of the next one: the
   * checks pass both alike, and let the sample be written there whenever it is inside the limit and shorter
   * than a page.
   */
  lemma SpillAliases(cfg: Config, p: nat, h: nat)
    requires Payload(cfg, p) && Payload(cfg, p + 1) && cfg.perPayload == 2 * h
    ensures Address(cfg, p, h * PerSection(cfg, p)) == Address(cfg, p + 1, 0)
    ensures Accepts(cfg, p, h * PerSection(cfg, p)) <==> Offset(cfg, p + 1, 0) <= cfg.Limit() && cfg.sizes[p] < PAGE
  {
    HalfWayOffset(cfg, p, h);
    BlockOrder(p, p + 1, cfg.perPayload);
    BlockOrder(p + 1, |cfg.sizes|, cfg.perPayload);
    SlotInPage(cfg, p, h * PerSection(cfg, p));
    AlignedAt(PageAt(cfg, p, h * PerSection(cfg, p)), 0, cfg.sizes[p]);
  }

  // ---------------------------------------------------------------- the operations

  /** The store may be asked for this sample: it does not read past the table of sections. */
  predicate Defined(cfg: Config, p: nat, index: nat)
    requires cfg.Ok()
  {
    p < |cfg.sizes| && !Address(cfg, p, index).PastTable?
  }

  /** storage_payload_set_data */
  function SetData(cfg: Config, m: seq<byte>, p: nat, index: nat, data: seq<byte>): (r: (seq<byte>, bool))
    requires cfg.Ok() && |m| >= cfg.Limit() + PAGE && Defined(cfg, p, index) && |data| == cfg.sizes[p]
    ensures |r.0| == |m|
  {
    if Accepts(cfg, p, index) then
      AcceptedFits(cfg, p, index);
      (Poke(m, Address(cfg, p, index).addr, data), true)
    else (m, false)
  }

  /** storage_payload_get_data */
  function GetData(cfg: Config, m: seq<byte>, p: nat, index: nat): (r: Option<seq<byte>>)
    requires cfg.Ok() && |m| >= cfg.Limit() + PAGE && Defined(cfg, p, index)
    ensures r.Some? ==> |r.value| == cfg.sizes[p]
  {
    if Accepts(cfg, p, index) then
      AcceptedFits(cfg, p, index);
      Some(Peek(m, Address(cfg, p, index).addr, cfg.sizes[p]))
    else None
  }

  /** Where the real section belongs to the payload, the two operations are those of the map. */
  lemma OperationsAreMap(cfg: Config, m: seq<byte>, p: nat, index: nat, data: seq<byte>)
    requires cfg.Ok() && |m| >= cfg.Limit() + PAGE && Defined(cfg, p, index) && |data| == cfg.sizes[p]
    requires cfg.PerPage(p) > 0 ==> 2 * InPayload(cfg, p, index) < cfg.perPayload
    ensures var k := Key(p, index);
      Fits(Samples(cfg), |m|) && Sized(Samples(cfg), Write(k, data)) &&
      SetData(cfg, m, p, index, data) == (Apply(Samples(cfg), m, Write(k, data)), Holds(cfg, k)) &&
      GetData(cfg, m, p, index) == if Holds(cfg, k) then Some(Sample(Samples(cfg), m, k)) else None
  {
    FlashIsMap(cfg, m);
    assert Key(p, index) in Samples(cfg) <==> Holds(cfg, Key(p, index));
  }

  // ---------------------------------------------------------------- appending samples

  /** The flash, and the stored number of samples of each payload. */
  datatype Store = Store(m: seq<byte>, counts: seq<nat>)

  predicate Shape(cfg: Config, st: Store) {
    cfg.Ok() && |st.m| >= cfg.Limit() + PAGE && |st.counts| == |cfg.sizes|
  }

  /** dat_add_payload_sample: the index advances only if the write succeeds. */
  function Add(cfg: Config, st: Store, p: nat, data: seq<byte>): (Store, bool)
    requires Shape(cfg, st) && p < |cfg.sizes| && Defined(cfg, p, st.counts[p]) && |data| == cfg.sizes[p]
  {
    var (m, ok) := SetData(cfg, st.m, p, st.counts[p], data);
    (Store(m, st.counts[p := Advance(cfg, p, st.counts[p])]), ok)
  }

  /** Every sample counted is one the store holds. */
  ghost predicate Logged(cfg: Config, st: Store) {
    Shape(cfg, st) && forall q | 0 <= q < |cfg.sizes| :: Filled(Samples(cfg), q, st.counts[q])
  }

  ghost function Log(cfg: Config, st: Store, q: nat): seq<seq<byte>>
    requires Logged(cfg, st) && q < |cfg.sizes|
  {
    FlashIsMap(cfg, st.m);
    SampleLog(Samples(cfg), st.m, q, st.counts[q])
  }

  /** Adding a sample the store holds appends it to its payload's log and leaves the others alone. */
  lemma AddAppends(cfg: Config, st: Store, p: nat, data: seq<byte>)
    requires Logged(cfg, st) && p < |cfg.sizes| && Holds(cfg, Key(p, st.counts[p])) && |data| == cfg.sizes[p]
    ensures Defined(cfg, p, st.counts[p])
    ensures var (st', ok) := Add(cfg, st, p, data);
      ok && Logged(cfg, st') && st'.counts[p] == st.counts[p] + 1 &&
      Log(cfg, st', p) == Log(cfg, st, p) + [data] &&
      forall q | 0 <= q < |cfg.sizes| && q != p :: Log(cfg, st', q) == Log(cfg, st, q)
  {
    var l, n := Samples(cfg), st.counts[p];
    OperationsAreMap(cfg, st.m, p, n, data);
    LayoutApart(cfg);
    var st' := Add(cfg, st, p, data).0;
    AppendFilled(l, p, n);
    LogAppend(l, st.m, p, n, data);
    forall q | 0 <= q < |cfg.sizes| && q != p
      ensures Filled(l, q, st'.counts[q])
      ensures SampleLog(l, st'.m, q, st'.counts[q]) == SampleLog(l, st.m, q, st.counts[q])
    {
      LogKept(l, st.m, Write(Key(p, n), data), q, st.counts[q]);
    }
  }

  lemma AppendFilled(l: Layout, p: nat, n: nat)
    requires Filled(l, p, n) && Key(p, n) in l
    ensures Filled(l, p, n + 1)
  {
  }

  /** The index after one more sample. */
  function Advance(cfg: Config, p: nat, count: nat): nat
    requires cfg.Ok() && p < |cfg.sizes|
  {
    if Accepts(cfg, p, count) then count + 1 else count
  }

  /** The index after `n` samples were added. */
  function CountAfter(cfg: Config, p: nat, count: nat, n: nat): nat
    requires cfg.Ok() && p < |cfg.sizes|
  {
    if n == 0 then count else Advance(cfg, p, CountAfter(cfg, p, count, n - 1))
  }

  lemma {:induction false} CountAfterIff(cfg: Config, p: nat, n: nat)
    requires cfg.Ok() && p < |cfg.sizes|
    ensures CountAfter(cfg, p, 0, n) <= n
    ensures CountAfter(cfg, p, 0, n) == n <==> forall i: nat | i < n :: Accepts(cfg, p, i)
  {
    if n > 0 {
      CountAfterIff(cfg, p, n - 1);
      assert (forall i: nat | i < n :: Accepts(cfg, p, i)) <==>
        (forall i: nat | i < n - 1 :: Accepts(cfg, p, i)) && Accepts(cfg, p, n - 1);
    }
  }

  /**
   * A payload grows through its whole first section, exactly when its size does not divide 512 and the section is
   * inside the limit.
   */
  lemma FillsSectionIff(cfg: Config, p: nat)
    requires Payload(cfg, p)
    ensures CountAfter(cfg, p, 0, PerSection(cfg, p)) == PerSection(cfg, p) <==>
      PAGE % cfg.sizes[p] != 0 && Offset(cfg, p, LastIndex(cfg, p)) <= cfg.Limit()
  {
    CountAfterIff(cfg, p, PerSection(cfg, p));
    SectionAcceptedIff(cfg, p);
  }

  /** The samples of the payload's first page are within the limit. */
  predicate FirstPageInside(cfg: Config, p: nat)
    requires Payload(cfg, p)
  {
    PAGE * (PageAt(cfg, p, 0) + 1) <= cfg.Limit()
  }

  /** On its first page a payload accepts every slot but one that ends the page. */
  lemma FirstPageAccepts(cfg: Config, p: nat, index: nat)
    requires Payload(cfg, p) && FirstPageInside(cfg, p) && index < cfg.PerPage(p)
    ensures Accepts(cfg, p, index) <==> !(PAGE % cfg.sizes[p] == 0 && index == cfg.PerPage(p) - 1)
  {
    FirstPage(cfg, p, index);
    FirstPage(cfg, p, 0);
    AlignedIff(cfg, p, index);
    SlotInPage(cfg, p, index);
    assert p * cfg.perPayload < |cfg.sizes| * cfg.perPayload by { BlockOrder(p, |cfg.sizes|, cfg.perPayload); }
  }

  lemma FirstPage(cfg: Config, p: nat, index: nat)
    requires Payload(cfg, p) && index < cfg.PerPage(p)
    ensures PageOf(cfg, p, index) == 0 && Slot(cfg, p, index) == index && InPayload(cfg, p, index) == 0
  {
    QuotientBelow(index, cfg.PerPage(p), 1);
    Division(index, cfg.PerPage(p));
    BlockOrder(0, cfg.pages, cfg.PerPage(p));
    QuotientBelow(index, PerSection(cfg, p), 1);
    if cfg.pages > 1 { BlockOrder(1, cfg.pages, cfg.PerPage(p)); }
  }

  /**
   * A payload whose sample size divides 512 never gets past the last slot of its first page, however often it is
   * added to.
   */
  lemma {:induction false} AddingSticks(cfg: Config, p: nat, n: nat)
    requires Payload(cfg, p) && FirstPageInside(cfg, p) && PAGE % cfg.sizes[p] == 0
    ensures CountAfter(cfg, p, 0, n) == if n < cfg.PerPage(p) then n else cfg.PerPage(p) - 1
  {
    if n > 0 {
      AddingSticks(cfg, p, n - 1);
      FirstPageAccepts(cfg, p, CountAfter(cfg, p, 0, n - 1));
    }
  }

  /** The backend as the source has it. */
  class FlashPayloads {
    const cfg: Config
    const flash: array<byte>
    const counts: array<nat>

    ghost predicate Ready()
      reads this
    {
      cfg.Ok() && flash.Length >= cfg.Limit() + PAGE && counts.Length == |cfg.sizes|
    }

    constructor (cfg: Config, flash: array<byte>)
      requires cfg.Ok() && flash.Length >= cfg.Limit() + PAGE
      ensures this.cfg == cfg && this.flash == flash && fresh(counts) && Ready()
      ensures forall p | 0 <= p < |cfg.sizes| :: counts[p] == 0
    {
      this.cfg := cfg;
      this.flash := flash;
      counts := new nat[|cfg.sizes|](_ => 0);
    }

    /** write_data_with_check */
    method WriteChecked(addr: nat, data: seq<byte>) returns (ok: bool)
      requires addr + |data| <= flash.Length
      modifies flash
      ensures ok <==> Aligned(addr, |data|)
      ensures flash[..] == if ok then Poke(old(flash[..]), addr, data) else old(flash[..])
    {
      if (addr + |data|) / PAGE > addr / PAGE {
        return false;
      }
      MemCopy(flash, addr, data);
      ok := true;
    }

    method Set(p: nat, index: nat, data: seq<byte>) returns (ok: bool)
      requires Ready() && Defined(cfg, p, index) && |data| == cfg.sizes[p]
      modifies flash
      ensures (flash[..], ok) == SetData(cfg, old(flash[..]), p, index, data)
    {
      match Address(cfg, p, index) {
        case At(a) =>
          AcceptedFits(cfg, p, index);
          ok := WriteChecked(a, data);
        case _ =>
          ok := false;
      }
    }

    method Get(p: nat, index: nat) returns (r: Option<seq<byte>>)
      requires Ready() && Defined(cfg, p, index)
      ensures r == GetData(cfg, flash[..], p, index)
    {
      match Address(cfg, p, index) {
        case At(a) =>
          AcceptedFits(cfg, p, index);
          if (a + cfg.sizes[p]) / PAGE > a / PAGE {
            return None;
          }
          r := Some(flash[a..a + cfg.sizes[p]]);
          assert flash[a..a + cfg.sizes[p]] == flash[..][a..a + cfg.sizes[p]];
        case _ =>
          r := None;
      }
    }

    method AddSample(p: nat, data: seq<byte>) returns (ok: bool)
      requires Ready() && p < |cfg.sizes| && Defined(cfg, p, counts[p]) && |data| == cfg.sizes[p]
      modifies flash, counts
      ensures (Store(flash[..], counts[..]), ok) == Add(cfg, Store(old(flash[..]), old(counts[..])), p, data)
    {
      var index := counts[p];
      ok := Set(p, index, data);
      if ok {
        counts[p] := index + 1;
      }
      assert counts[..] == old(counts[..])[p := Advance(cfg, p, index)];
    }
  }
}
