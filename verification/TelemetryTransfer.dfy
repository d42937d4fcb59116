/** A range of samples from one satellite's payload store to another's: both ends of the link, and the round trip. */
module TelemetryTransfer {
  import opened Options
  import opened Memory
  import opened Arithmetic
  import opened RamPayload
  import opened Telemetry

  // ---------------------------------------------------------------- receiving

  /** The command com_receive_tm starts for a frame of some type, when there are `sensors` payloads. */
  datatype Parser = ParseStatus | ParseString | PrintPlan | ParsePayload(p: nat) | Unknown

  function Dispatch(kind: byte, sensors: nat): Parser {
    if kind == STATUS then ParseStatus
    else if kind == HELP then ParseString
    else if kind == PLAN then PrintPlan
    else if PAYLOAD <= kind < PAYLOAD + sensors then ParsePayload(kind - PAYLOAD)
    else Unknown
  }

  /** The type byte leads back to the payload exactly when it fits a byte and is not that of a flight plan. */
  lemma DispatchIff(p: nat, sensors: nat)
    requires p < sensors
    ensures Dispatch((PAYLOAD + p) % 256, sensors) == ParsePayload(p) <==> p < 246 && p != 95
  {
  }

  /** There is room for `n` more samples of payload `p`. */
  predicate Room(cfg: Config, st: Store, p: nat, n: nat) {
    Valid(cfg, st) && p < |cfg.sizes| && st.counts[p] + n <= cfg.Capacity(p)
  }

  /** None of `n` additions to payload `p` reads past the table of sections. */
  predicate Takes(cfg: Config, st: Store, p: nat, n: nat) {
    Shape(cfg, st) && p < |cfg.sizes| && forall i | st.counts[p] <= i < st.counts[p] + n :: Defined(cfg, p, i)
  }

  lemma RoomTakes(cfg: Config, st: Store, p: nat, n: nat)
    requires Room(cfg, st, p, n)
    ensures Takes(cfg, st, p, n)
  {
    forall i | st.counts[p] <= i < st.counts[p] + n ensures Defined(cfg, p, i) {
      AddressCases(cfg, p, i);
    }
  }

  /** The samples of a frame are added one by one; one that is refused is passed over. */
  function AddAll(cfg: Config, st: Store, p: nat, xs: seq<Sample>): (r: Store)
    requires Takes(cfg, st, p, |xs|) && AllSized(xs, cfg.sizes[p])
    ensures Shape(cfg, r) && st.counts[p] <= r.counts[p] <= st.counts[p] + |xs|
    ensures r.counts == st.counts[p := r.counts[p]]
  {
    if xs == [] then st else
      var before := AddAll(cfg, st, p, xs[..|xs| - 1]);
      Add(cfg, before, p, xs[|xs| - 1]).0
  }

  /** `after` has the samples `xs` more in payload `p`, and is otherwise as `before`. */
  ghost predicate Appended(cfg: Config, before: Store, after: Store, p: nat, xs: seq<Sample>) {
    Valid(cfg, before) && Valid(cfg, after) && p < |cfg.sizes| &&
    Log(cfg, after, p) == Log(cfg, before, p) + xs &&
    forall q | 0 <= q < |cfg.sizes| && q != p :: Log(cfg, after, q) == Log(cfg, before, q)
  }

  lemma AppendedTwice(cfg: Config, a: Store, b: Store, c: Store, p: nat, xs: seq<Sample>, ys: seq<Sample>)
    requires Appended(cfg, a, b, p, xs) && Appended(cfg, b, c, p, ys)
    ensures Appended(cfg, a, c, p, xs + ys)
  {
    assert Log(cfg, a, p) + xs + ys == Log(cfg, a, p) + (xs + ys);
  }

  lemma {:induction false} AddAllAppends(cfg: Config, st: Store, p: nat, xs: seq<Sample>)
    requires Room(cfg, st, p, |xs|) && AllSized(xs, cfg.sizes[p])
    ensures Takes(cfg, st, p, |xs|) && AddAll(cfg, st, p, xs).counts[p] == st.counts[p] + |xs|
    ensures Appended(cfg, st, AddAll(cfg, st, p, xs), p, xs)
  {
    RoomTakes(cfg, st, p, |xs|);
    if xs == [] {
      assert Log(cfg, st, p) + [] == Log(cfg, st, p);
    } else {
      var init, x := xs[..|xs| - 1], xs[|xs| - 1];
      var before := AddAll(cfg, st, p, init);
      AddAllAppends(cfg, st, p, init);
      AddAppends(cfg, before, p, x);
      AppendedTwice(cfg, st, before, Add(cfg, before, p, x).0, p, init, [x]);
      assert init + [x] == xs;
    }
  }

  /** What a receiver can take: the announced samples are inside the frame, and the additions inside the table. */
  predicate Acceptable(cfg: Config, st: Store, f: Frame) {
    Shape(cfg, st) &&
    match Dispatch(f.kind, |cfg.sizes|)
    case ParsePayload(p) => WellFormed(f, cfg.sizes[p]) && Takes(cfg, st, p, Swap32(f.ndata))
    case _ => true
  }

  lemma CutSized(data: seq<byte>, size: nat, n: nat)
    requires n * size <= |data|
    ensures AllSized(Cut(data, size, n), size)
  {
    if n > 0 {
      Times(n, size);
      CutSized(data, size, n - 1);
    }
  }

  /** com_receive_tm, then tm_parse_payload when the frame is one of a payload. */
  ghost function Receive(cfg: Config, st: Store, f: Frame): (r: Store)
    requires Acceptable(cfg, st, f)
    ensures Shape(cfg, r)
  {
    match Dispatch(f.kind, |cfg.sizes|)
    case ParsePayload(p) =>
      CutSized(SwapWords(f.data), cfg.sizes[p], Swap32(f.ndata));
      AddAll(cfg, st, p, Carried(f, cfg.sizes[p]))
    case _ => st
  }

  /** Every frame of a run can be taken when it arrives. */
  ghost predicate AllAcceptable(cfg: Config, st: Store, fs: seq<Frame>)
    decreases |fs|
  {
    fs == [] || (Acceptable(cfg, st, fs[0]) && AllAcceptable(cfg, Receive(cfg, st, fs[0]), fs[1..]))
  }

  ghost function ReceiveAll(cfg: Config, st: Store, fs: seq<Frame>): Store
    requires AllAcceptable(cfg, st, fs)
    decreases |fs|
  {
    if fs == [] then st else ReceiveAll(cfg, Receive(cfg, st, fs[0]), fs[1..])
  }

  /** One frame is taken in as the samples it was made of. */
  lemma ReceiveFrame(cfg: Config, st: Store, p: nat, xs: seq<Sample>, i: nat)
    requires p < 246 && p != 95 && Room(cfg, st, p, |xs|) && Framed(cfg.sizes[p])
    requires AllSized(xs, cfg.sizes[p]) && |xs| <= PerFrame(cfg.sizes[p])
    ensures |Concat(xs)| <= LEN && Acceptable(cfg, st, MakeFrame(xs, i, p))
    ensures Takes(cfg, st, p, |xs|) && AddAll(cfg, st, p, xs).counts[p] == st.counts[p] + |xs|
    ensures Receive(cfg, st, MakeFrame(xs, i, p)) == AddAll(cfg, st, p, xs)
    ensures Appended(cfg, st, AddAll(cfg, st, p, xs), p, xs)
  {
    FrameCarries(xs, cfg.sizes[p], i, p);
    DispatchIff(p, |cfg.sizes|);
    AddAllAppends(cfg, st, p, xs);
  }

  /** The frames of a range, received in order, append its samples to the payload and change nothing else. */
  lemma {:induction false} ReceiveFrames(cfg: Config, st: Store, p: nat, xs: seq<Sample>, i: nat)
    requires p < 246 && p != 95 && Room(cfg, st, p, |xs|) && Framed(cfg.sizes[p]) && AllSized(xs, cfg.sizes[p])
    ensures var fs := Frames(xs, cfg.sizes[p], i, p);
      AllAcceptable(cfg, st, fs) && Appended(cfg, st, ReceiveAll(cfg, st, fs), p, xs)
    decreases |xs|
  {
    var size := cfg.sizes[p];
    if xs == [] {
      assert Log(cfg, st, p) + [] == Log(cfg, st, p);
    } else {
      var n := Group(xs, size);
      var group, left := xs[..n], xs[n..];
      assert xs == group + left;
      ReceiveFrame(cfg, st, p, group, i);
      var next := AddAll(cfg, st, p, group);
      ReceiveFrames(cfg, next, p, left, i + 1);
      var f, rest := MakeFrame(group, i, p), Frames(left, size, i + 1, p);
      assert Frames(xs, size, i, p) == [f] + rest && ([f] + rest)[1..] == rest;
      AppendedTwice(cfg, st, next, ReceiveAll(cfg, next, rest), p, group, left);
    }
  }

  // ---------------------------------------------------------------- the round trip

  /** The stored samples `start` to `end - 1`. */
  ghost function Range(cfg: Config, st: Store, p: nat, start: nat, end: nat): seq<Sample>
    requires Valid(cfg, st) && p < |cfg.sizes| && start <= end <= st.counts[p]
  {
    Log(cfg, st, p)[start..end]
  }

  lemma RangeSized(cfg: Config, st: Store, p: nat, start: nat, end: nat)
    requires Valid(cfg, st) && p < |cfg.sizes| && start <= end <= st.counts[p]
    ensures AllSized(Range(cfg, st, p, start, end), cfg.sizes[p]) && |Range(cfg, st, p, start, end)| == end - start
  {
    forall i | 0 <= i < st.counts[p] ensures |Log(cfg, st, p)[i]| == cfg.sizes[p] {
      LogAt(cfg, st, p, i);
    }
  }

  lemma RangeAt(cfg: Config, st: Store, p: nat, start: nat, end: nat, k: nat)
    requires Valid(cfg, st) && p < |cfg.sizes| && start + k < end <= st.counts[p]
    ensures Defined(cfg, p, start + k) && GetData(cfg, st.m, p, start + k) == Some(Range(cfg, st, p, start, end)[k])
  {
    LogAt(cfg, st, p, start + k);
  }

  /** A call tm_send_tel_from_to can serve: the range is stored, and a frame can hold a sample. */
  predicate Sendable(cfg: Config, st: Store, p: nat, start: nat, end: nat) {
    Valid(cfg, st) && p < |cfg.sizes| && Framed(cfg.sizes[p]) && start <= end <= st.counts[p]
  }

  /** The frames such a call sends. */
  ghost function RangeFrames(cfg: Config, st: Store, p: nat, start: nat, end: nat): seq<Frame>
    requires Sendable(cfg, st, p, start, end)
  {
    RangeSized(cfg, st, p, start, end);
    Frames(Range(cfg, st, p, start, end), cfg.sizes[p], 0, p)
  }

  /**
   * Telemetry round trip.  The frames of a range announce `end - start` samples and carry exactly those
   * stored, in order; received in order they are appended unchanged, and nothing else changes.
   */
  lemma RoundTrip(cfg: Config, st: Store, ground: Config, gst: Store, p: nat, start: nat, end: nat)
    requires Sendable(cfg, st, p, start, end)
    requires Room(ground, gst, p, end - start) && ground.sizes[p] == cfg.sizes[p] && p < 246 && p != 95
    ensures var fs, xs, size := RangeFrames(cfg, st, p, start, end), Range(cfg, st, p, start, end), cfg.sizes[p];
      Announced(fs) == end - start && AllWellFormed(fs, size) && AllCarried(fs, size) == xs &&
      AllAcceptable(ground, gst, fs) && Appended(ground, gst, ReceiveAll(ground, gst, fs), p, xs)
  {
    RangeSized(cfg, st, p, start, end);
    FramesCarry(Range(cfg, st, p, start, end), cfg.sizes[p], 0, p);
    ReceiveFrames(ground, gst, p, Range(cfg, st, p, start, end), 0);
  }

  // ---------------------------------------------------------------- the two ends as they run

  /** A frame's data while it is filled: the first `j` samples of the group, and zeros. */
  ghost function Filled(group: seq<Sample>, j: nat, size: nat): (r: seq<byte>)
    requires Framed(size) && AllSized(group, size) && j <= |group| <= PerFrame(size)
    ensures |r| == LEN
  {
    GroupFits(group[..j], size);
    Concat(group[..j]) + Zeros(LEN - |Concat(group[..j])|)
  }

  lemma FillNext(group: seq<Sample>, j: nat, size: nat)
    requires Framed(size) && AllSized(group, size) && j < |group| <= PerFrame(size)
    ensures j * size + size <= LEN && Poke(Filled(group, j, size), j * size, group[j]) == Filled(group, j + 1, size)
  {
    GroupFits(group[..j], size);
    GroupFits(group[..j + 1], size);
    assert group[..j + 1][..j] == group[..j];
    Times(j + 1, size);
  }

  lemma FillEnds(group: seq<Sample>, size: nat)
    requires Framed(size) && AllSized(group, size) && |group| <= PerFrame(size)
    ensures Filled(group, 0, size) == Zeros(LEN) && |Concat(group)| <= LEN
    ensures Filled(group, |group|, size) == Concat(group) + Zeros(LEN - |Concat(group)|)
  {
    GroupFits(group, size);
    assert group[..|group|] == group;
  }

  /** Sample `k` of the range, asked for by its distance from the newest one. */
  method ReadSample(store: RamPayloads, ghost st: Store, p: nat, start: nat, end: nat, k: nat) returns (x: Sample)
    requires store.Ready() && store.State() == st && Sendable(store.cfg, st, p, start, end) && start + k < end
    ensures x == Range(store.cfg, st, p, start, end)[k]
  {
    RangeAt(store.cfg, st, p, start, end, k);
    var n, index := end - start, store.counts[p];
    var found := store.GetRecent(p, n + (index - end) - (k + 1));
    x := found.value;
  }

  /** The samples frame number `first / structs_per_frame` carries. */
  ghost function GroupAt(xs: seq<Sample>, first: nat, size: nat): (g: seq<Sample>)
    requires Framed(size) && AllSized(xs, size) && first <= |xs|
    ensures AllSized(g, size) && |Concat(g)| <= LEN && |g| <= PerFrame(size)
  {
    var left := xs[first..];
    GroupFits(left[..Group(left, size)], size);
    left[..Group(left, size)]
  }

  lemma GroupIs(xs: seq<Sample>, first: nat, size: nat, j: nat)
    requires Framed(size) && AllSized(xs, size) && first <= |xs|
    ensures var g := GroupAt(xs, first, size);
      |g| == Min(PerFrame(size), |xs| - first) && (j < |g| ==> g[j] == xs[first + j])
  {
  }

  /** The samples of the range that frame number `first / structs_per_frame` carries. */
  ghost function RangeGroup(cfg: Config, st: Store, p: nat, start: nat, end: nat, first: nat): (g: seq<Sample>)
    requires Sendable(cfg, st, p, start, end) && start + first <= end
    ensures AllSized(g, cfg.sizes[p]) && |Concat(g)| <= LEN && |g| == Min(PerFrame(cfg.sizes[p]), end - start - first)
  {
    RangeSized(cfg, st, p, start, end);
    GroupIs(Range(cfg, st, p, start, end), first, cfg.sizes[p], 0);
    GroupAt(Range(cfg, st, p, start, end), first, cfg.sizes[p])
  }

  /** Copy sample `j` of the group into the frame. */
  method PutSample(store: RamPayloads, ghost st: Store, p: nat, start: nat, end: nat, first: nat, j: nat,
      data: array<byte>)
    requires store.Ready() && store.State() == st && Sendable(store.cfg, st, p, start, end) && start + first + j < end
    requires data != store.db && j < PerFrame(store.cfg.sizes[p])
    requires data[..] == Filled(RangeGroup(store.cfg, st, p, start, end, first), j, store.cfg.sizes[p])
    modifies data
    ensures data[..] == Filled(RangeGroup(store.cfg, st, p, start, end, first), j + 1, store.cfg.sizes[p])
  {
    ghost var group := RangeGroup(store.cfg, st, p, start, end, first);
    var x := ReadSample(store, st, p, start, end, first + j);
    RangeSized(store.cfg, st, p, start, end);
    GroupIs(Range(store.cfg, st, p, start, end), first, store.cfg.sizes[p], j);
    FillNext(group, j, store.cfg.sizes[p]);
    MemCopy(data, j * store.cfg.sizes[p], x);
  }

  /** csp_buffer_get and memset */
  method BlankFrame() returns (data: array<byte>)
    ensures fresh(data) && data[..] == Zeros(LEN)
  {
    data := new byte[LEN](_ => 0);
  }

  /**
   * The loop over the samples of a frame in tm_send_tel_from_to; `first` is `i * structs_per_frame`.  It stops
   * early when the range ends, and the number of samples in the frame is how far it came.
   */
  method FillData(store: RamPayloads, ghost st: Store, p: nat, start: nat, end: nat, first: nat)
    returns (data: array<byte>, ndata: nat)
    requires store.Ready() && store.State() == st && Sendable(store.cfg, st, p, start, end) && start + first < end
    ensures var group := RangeGroup(store.cfg, st, p, start, end, first);
      fresh(data) && ndata == |group| && data[..] == Filled(group, |group|, store.cfg.sizes[p])
  {
    var perFrame := PerFrame(store.cfg.sizes[p]);
    ghost var group := RangeGroup(store.cfg, st, p, start, end, first);
    data := BlankFrame();
    FillEnds(group, store.cfg.sizes[p]);
    ndata := 0;
    while ndata < perFrame && first + ndata < end - start
      invariant ndata <= |group| && data[..] == Filled(group, ndata, store.cfg.sizes[p])
    {
      PutSample(store, st, p, start, end, first, ndata, data);
      ndata := ndata + 1;
    }
  }

  /** One frame of the loop over frames. */
  method FillFrame(store: RamPayloads, ghost st: Store, p: nat, start: nat, end: nat, i: nat, first: nat)
    returns (frame: Frame)
    requires store.Ready() && store.State() == st && Sendable(store.cfg, st, p, start, end) && start + first < end
    requires AllSized(Range(store.cfg, st, p, start, end), store.cfg.sizes[p])
    ensures frame == FrameAt(Range(store.cfg, st, p, start, end), store.cfg.sizes[p], first, i, p)
  {
    var data, ndata := FillData(store, st, p, start, end, first);
    FillEnds(RangeGroup(store.cfg, st, p, start, end, first), store.cfg.sizes[p]);
    SwapBuffer(data, LEN / 4);
    frame := Frame(Swap16(i % 65536), (PAYLOAD + p) % 256, Swap32(ndata), data[..]);
  }

  /** How many frames a range takes. */
  function Total(n: nat, per: nat): nat
    requires per > 0
  {
    n / per + if n % per != 0 then 1 else 0
  }

  /** The frame with number `k` whose first sample is `first`. */
  ghost function FrameAt(xs: seq<Sample>, size: nat, first: nat, k: nat, p: nat): Frame
    requires Framed(size) && AllSized(xs, size) && first <= |xs|
  {
    MakeFrame(GroupAt(xs, first, size), k, p)
  }

  lemma FrameShift(xs: seq<Sample>, size: nat, first: nat, k: nat, p: nat)
    requires Framed(size) && AllSized(xs, size) && PerFrame(size) + first <= |xs|
    ensures FrameAt(xs[PerFrame(size)..], size, first, k, p) == FrameAt(xs, size, PerFrame(size) + first, k, p)
  {
    assert xs[PerFrame(size)..][first..] == xs[PerFrame(size) + first..];
  }

  lemma FramesFirst(xs: seq<Sample>, size: nat, k: nat, p: nat)
    requires Framed(size) && AllSized(xs, size) && xs != []
    ensures |Frames(xs, size, k, p)| > 0 && Frames(xs, size, k, p)[0] == FrameAt(xs, size, 0, k, p)
    ensures |xs| > PerFrame(size) ==> Frames(xs, size, k, p)[1..] == Frames(xs[PerFrame(size)..], size, k + 1, p)
  {
    assert xs[0..] == xs;
  }

  /** The first sample of frame `i`. */
  function First(i: nat, per: nat): nat { if i == 0 then 0 else First(i - 1, per) + per }

  lemma {:induction false} FirstIs(i: nat, per: nat)
    ensures First(i, per) == i * per
  {
    if i > 0 {
      FirstIs(i - 1, per);
      Times(i, per);
    }
  }

  /** Frame `i` carries the samples from `first` on. */
  ghost predicate CarriesFrom(fs: seq<Frame>, i: nat, xs: seq<Sample>, size: nat, first: nat, k: nat, p: nat)
    requires Framed(size) && AllSized(xs, size) && first <= |xs|
  {
    i < |fs| && fs[i] == FrameAt(xs, size, first, k, p)
  }

  lemma CarriesNext(fs: seq<Frame>, rest: seq<Frame>, i: nat, xs: seq<Sample>, size: nat, first: nat, k: nat, p: nat)
    requires Framed(size) && AllSized(xs, size) && PerFrame(size) <= first < |xs| && i > 0 && |fs| > 0
    requires fs[1..] == rest
    requires CarriesFrom(rest, i - 1, xs[PerFrame(size)..], size, first - PerFrame(size), k, p)
    ensures CarriesFrom(fs, i, xs, size, first, k, p)
  {
    FrameShift(xs, size, first - PerFrame(size), k, p);
    assert fs[i] == rest[i - 1];
  }

  lemma FramesAtStep(xs: seq<Sample>, size: nat, start: nat, p: nat, i: nat, first: nat, k: nat)
    requires Framed(size) && AllSized(xs, size) && PerFrame(size) <= first < |xs| && i > 0
    requires CarriesFrom(Frames(xs[PerFrame(size)..], size, start + 1, p), i - 1, xs[PerFrame(size)..], size,
      first - PerFrame(size), k, p)
    ensures CarriesFrom(Frames(xs, size, start, p), i, xs, size, first, k, p)
  {
    FramesFirst(xs, size, start, p);
    CarriesNext(Frames(xs, size, start, p), Frames(xs[PerFrame(size)..], size, start + 1, p), i, xs, size, first, k, p);
  }

  /** In closed form: frame `i` has number `k` and carries the samples from `first`, `i * structs_per_frame`, on. */
  lemma {:induction false} FramesAt(xs: seq<Sample>, size: nat, start: nat, p: nat, i: nat, first: nat, k: nat)
    requires Framed(size) && AllSized(xs, size) && First(i, PerFrame(size)) == first < |xs| && k == start + i
    ensures CarriesFrom(Frames(xs, size, start, p), i, xs, size, first, k, p)
    decreases i
  {
    if i == 0 {
      FramesFirst(xs, size, start, p);
    } else {
      FramesAt(xs[PerFrame(size)..], size, start + 1, p, i - 1, first - PerFrame(size), k);
      FramesAtStep(xs, size, start, p, i, first, k);
    }
  }

  lemma {:induction false} FramesTotal(xs: seq<Sample>, size: nat, k: nat, p: nat, i: nat)
    requires Framed(size) && AllSized(xs, size) && i < |Frames(xs, size, k, p)|
    ensures First(i, PerFrame(size)) < |xs|
    decreases i
  {
    if i > 0 {
      FramesTotal(xs[Group(xs, size)..], size, k + 1, p, i - 1);
    }
  }

  lemma FrameCount(n: nat, per: nat, i: nat)
    requires per > 0
    ensures First(i, per) == i * per
    ensures i < Total(n, per) <==> First(i, per) < n
  {
    FirstIs(i, per);
    Division(n, per);
    if i < n / per { BlockOrder(i, n / per, per); } else if i > n / per { BlockOrder(n / per, i, per); }
  }

  lemma FramesCount(xs: seq<Sample>, size: nat, k: nat, p: nat)
    requires Framed(size) && AllSized(xs, size)
    ensures |Frames(xs, size, k, p)| == Total(|xs|, PerFrame(size))
  {
    var n, total := |Frames(xs, size, k, p)|, Total(|xs|, PerFrame(size));
    FrameCount(|xs|, PerFrame(size), n);
    FrameCount(|xs|, PerFrame(size), total);
    if n > total { FramesTotal(xs, size, k, p, total); }
    if n < total { FramesAt(xs, size, k, p, n, First(n, PerFrame(size)), k + n); }
  }

  lemma RangeCount(cfg: Config, st: Store, p: nat, start: nat, end: nat)
    requires Sendable(cfg, st, p, start, end)
    ensures |RangeFrames(cfg, st, p, start, end)| == Total(end - start, PerFrame(cfg.sizes[p]))
  {
    RangeSized(cfg, st, p, start, end);
    FramesCount(Range(cfg, st, p, start, end), cfg.sizes[p], 0, p);
  }

  /** The frame of round `i` of the loop over frames. */
  method NextFrame(store: RamPayloads, ghost st: Store, p: nat, start: nat, end: nat, i: nat) returns (frame: Frame)
    requires store.Ready() && store.State() == st && Sendable(store.cfg, st, p, start, end)
    requires i < |RangeFrames(store.cfg, st, p, start, end)|
    ensures frame == RangeFrames(store.cfg, st, p, start, end)[i]
  {
    var size := store.cfg.sizes[p];
    var perFrame := PerFrame(size);
    RangeCount(store.cfg, st, p, start, end);
    FrameCount(end - start, perFrame, i);
    RangeSized(store.cfg, st, p, start, end);
    FramesAt(Range(store.cfg, st, p, start, end), size, 0, p, i, i * perFrame, i);
    frame := FillFrame(store, st, p, start, end, i, i * perFrame);
  }

  /** tm_send_tel_from_to over a link that takes `accepts` frames; an empty range is reported as an error. */
  method SendFromTo(store: RamPayloads, p: nat, start: nat, end: nat, accepts: nat) returns (ok: bool, sent: seq<Frame>)
    requires store.Ready() && Sendable(store.cfg, store.State(), p, start, end)
    ensures var all := RangeFrames(store.cfg, store.State(), p, start, end);
      sent == all[..Min(accepts, |all|)] && (ok <==> all != [] && accepts >= |all|)
  {
    ghost var st := store.State();
    ghost var all := RangeFrames(store.cfg, st, p, start, end);
    RangeCount(store.cfg, st, p, start, end);
    var nFrames := Total(end - start, PerFrame(store.cfg.sizes[p]));
    sent, ok := [], false;
    for i := 0 to nFrames
      invariant i == |sent| <= accepts && (ok <==> i > 0) && sent == all[..i]
    {
      var frame := NextFrame(store, st, p, start, end, i);
      if |sent| == accepts {
        return false, sent;
      }
      sent, ok := sent + [frame], true;
    }
  }

  /** What the receiver's store holds after the first `j` samples of a buffer were added. */
  ghost function AddedSoFar(cfg: Config, st: Store, p: nat, data: seq<byte>, n: nat, j: nat): (r: Store)
    requires Takes(cfg, st, p, n) && j <= n && n * cfg.sizes[p] <= |data|
    ensures Shape(cfg, r) && st.counts[p] <= r.counts[p] <= st.counts[p] + j
  {
    Scale(j, n, cfg.sizes[p]);
    CutSized(data, cfg.sizes[p], j);
    AddAll(cfg, st, p, Cut(data, cfg.sizes[p], j))
  }

  lemma CutNext(data: seq<byte>, size: nat, n: nat, j: nat)
    requires j < n && n * size <= |data|
    ensures j * size + size == (j + 1) * size <= |data|
    ensures Cut(data, size, j + 1) == Cut(data, size, j) + [Peek(data, j * size, size)]
  {
    Times(j + 1, size);
    Scale(j + 1, n, size);
  }

  lemma AddAllNext(cfg: Config, st: Store, p: nat, xs: seq<Sample>, x: Sample)
    requires Takes(cfg, st, p, |xs| + 1) && AllSized(xs, cfg.sizes[p]) && |x| == cfg.sizes[p]
    ensures var now := AddAll(cfg, st, p, xs);
      Defined(cfg, p, now.counts[p]) && Add(cfg, now, p, x).0 == AddAll(cfg, st, p, xs + [x])
  {
    assert (xs + [x])[..|xs|] == xs;
  }

  lemma AddNext(cfg: Config, st: Store, p: nat, data: seq<byte>, n: nat, j: nat)
    requires Takes(cfg, st, p, n) && j < n && n * cfg.sizes[p] <= |data|
    ensures var size, now := cfg.sizes[p], AddedSoFar(cfg, st, p, data, n, j);
      j * size + size <= |data| && Defined(cfg, p, now.counts[p]) &&
      Add(cfg, now, p, Peek(data, j * size, size)).0 == AddedSoFar(cfg, st, p, data, n, j + 1)
  {
    CutNext(data, cfg.sizes[p], n, j);
    CutSized(data, cfg.sizes[p], j);
    AddAllNext(cfg, st, p, Cut(data, cfg.sizes[p], j), Peek(data, j * cfg.sizes[p], cfg.sizes[p]));
  }

  /** The loop of tm_parse_payload over the samples of a frame. */
  method AddSamples(store: RamPayloads, p: nat, data: seq<byte>, n: nat)
    requires store.Ready() && Takes(store.cfg, store.State(), p, n) && n * store.cfg.sizes[p] <= |data|
    modifies store.db, store.counts
    ensures store.State() == AddedSoFar(store.cfg, old(store.State()), p, data, n, n)
  {
    ghost var st := store.State();
    var size := store.cfg.sizes[p];
    for j := 0 to n
      invariant store.State() == AddedSoFar(store.cfg, st, p, data, n, j)
    {
      AddNext(store.cfg, st, p, data, n, j);
      var ok := store.AddSample(p, Peek(data, j * size, size));
    }
  }

  /** com_receive_tm and tm_parse_payload */
  method ReceiveTelemetry(store: RamPayloads, f: Frame)
    requires store.Ready() && Acceptable(store.cfg, store.State(), f)
    modifies store.db, store.counts
    ensures store.State() == Receive(store.cfg, old(store.State()), f)
  {
    match Dispatch(f.kind, |store.cfg.sizes|) {
      case ParsePayload(p) =>
        var buff := new byte[LEN](i requires 0 <= i < LEN => f.data[i]);
        assert buff[..] == f.data;
        SwapBuffer(buff, LEN / 4);
        AddSamples(store, p, buff[..], Swap32(f.ndata));
      case _ =>
    }
  }
}
