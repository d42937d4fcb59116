/** What arrives of a file: over a link that loses, repeats and reorders frames, and over one that does not. */
module FileTransfer {
  import opened Memory
  import opened Arithmetic
  import opened FileFrames
  import opened Options
  import opened FileReceiver

  /** The number of full slices, and so the number of the last DATA frame. */
  function Slices(data: seq<byte>): nat { |data| / LEN }

  function DataFrame(data: seq<byte>, id: uint16, k: nat): Frame
    requires 1 <= k <= Slices(data)
  {
    MakeFrame(data[LEN * (k - 1)..LEN * k], id, k, Slices(data) + 1, Data)
  }

  function Tail(data: seq<byte>): (r: seq<byte>)
    ensures |r| == |data| % LEN
  {
    data[LEN * Slices(data)..]
  }

  function EndFrame(data: seq<byte>, id: uint16): Frame {
    MakeFrame(Tail(data), id, Slices(data) + 1, Slices(data) + 1, End)
  }

  /** A DATA or END frame that the sender of this file put on the link. */
  predicate Sent(data: seq<byte>, id: uint16, f: Frame) {
    (exists k | 1 <= k <= Slices(data) :: f == DataFrame(data, id, k)) || (Tail(data) != [] && f == EndFrame(data, id))
  }

  /** A DATA or END frame of some other transfer. */
  predicate Foreign(id: uint16, f: Frame) {
    (f.kind.Data? || f.kind.End?) && f.fileid != id
  }

  /** What the whole file becomes: its tail loses the 0xAA bytes it ends with. */
  function Received(data: seq<byte>): seq<byte> { data[..LEN * Slices(data)] + Strip(Tail(data)) }

  /**
   * The receiver is in the middle of the file, holding exactly its first `lastFrame` slices, or has
   * finished it; no other file has changed.
   */
  predicate OnTrack(r: Receiver, data: seq<byte>, id: uint16, target: Name, others: map<Name, seq<byte>>) {
    r.files - {target} == others - {target} &&
    if r.fname.Some? then
      r.fname.value == target && r.lastId == id && 0 <= r.lastFrame <= Slices(data) &&
      r.Content(target) == data[..LEN * r.lastFrame]
    else Tail(data) != [] && r.lastId == 0 && r.lastFrame == 0 && r.Content(target) == Received(data)
  }

  /** Every frame number, that of END included, fits its 16-bit field. */
  predicate Numbered(data: seq<byte>) { Slices(data) + 1 <= 65535 }

  lemma ParseSentData(r: Receiver, data: seq<byte>, id: uint16, target: Name, others: map<Name, seq<byte>>, k: nat)
    requires OnTrack(r, data, id, target, others) && Bounded(data) && 1 <= k <= Slices(data)
    ensures OnTrack(Parse(r, DataFrame(data, id, k)).0, data, id, target, others)
    ensures Parse(r, DataFrame(data, id, k)).1 <==> r.fname.Some? && r.lastFrame == k - 1 && k < 65536
  {
    var chunk := data[LEN * (k - 1)..LEN * k];
    assert Pad(chunk) == chunk;
    if r.fname.Some? && r.lastFrame == k - 1 {
      assert data[..LEN * (k - 1)] + chunk == data[..LEN * k];
    }
  }

  lemma EndFrameIs(data: seq<byte>, id: uint16)
    ensures var f := EndFrame(data, id);
      f.kind.End? && f.fileid == id && f.nframe == (Slices(data) + 1) % 65536 && Useful(f) == Strip(Tail(data))
  {
    StripPad(Tail(data));
  }

  /**
   * END is accepted exactly when its number, cut to 16 bits, follows the last one, and then it closes the
   * file.  In a file within the bound that means in sequence.
   */
  lemma ParseSentEnd(r: Receiver, data: seq<byte>, id: uint16, target: Name, others: map<Name, seq<byte>>)
    requires OnTrack(r, data, id, target, others) && Tail(data) != []
    ensures var (r', ok) := Parse(r, EndFrame(data, id));
      (ok <==> r.fname.Some? && r.lastFrame + 1 == (Slices(data) + 1) % 65536) &&
      (ok ==> r'.fname.None?) &&
      (Bounded(data) ==> OnTrack(r', data, id, target, others) && (ok ==> r.lastFrame == Slices(data)))
  {
    EndFrameIs(data, id);
    ParseEnd(r, EndFrame(data, id));
    if Bounded(data) { assert Slices(data) <= 65535; }
  }

  /** An END frame closes the open file if it is the next one, and is refused otherwise. */
  lemma ParseEnd(r: Receiver, f: Frame)
    requires f.kind.End?
    ensures Parse(r, f) ==
      if InSequence(r, f) then
        (Receiver(None, 0, 0, r.files[r.fname.value := r.Content(r.fname.value) + Useful(f)]), true)
      else (r, false)
  {
  }

  lemma ParseForeign(r: Receiver, data: seq<byte>, id: uint16, target: Name, others: map<Name, seq<byte>>, f: Frame)
    requires OnTrack(r, data, id, target, others) && Foreign(id, f)
    ensures Parse(r, f) == (r, false)
  {
  }

  /**
   * Safety on an unreliable link.  After one START, whatever sequence of this file's DATA and END
   * frames and of other files' DATA and END frames arrives -- any loss, repetition or order -- the
   * open file always holds the slices 1 .. last_frame, without gap or repeat; once the END frame has
   * been accepted in sequence it holds the whole file and never changes again.
   */
  lemma {:induction false} SafeOnUnreliableLink(
    r: Receiver, data: seq<byte>, id: uint16, target: Name, others: map<Name, seq<byte>>, arriving: seq<Frame>)
    requires OnTrack(r, data, id, target, others) && Bounded(data)
    requires forall f | f in arriving :: Sent(data, id, f) || Foreign(id, f)
    ensures OnTrack(Deliver(r, arriving), data, id, target, others)
    ensures r.fname.None? ==> Deliver(r, arriving) == r
    decreases |arriving|
  {
    if arriving != [] {
      var f := arriving[0];
      assert Sent(data, id, f) || Foreign(id, f);
      if Foreign(id, f) {
        ParseForeign(r, data, id, target, others, f);
      } else if f.kind.End? {
        ParseSentEnd(r, data, id, target, others);
      } else {
        var k :| 1 <= k <= Slices(data) && f == DataFrame(data, id, k);
        ParseSentData(r, data, id, target, others, k);
      }
      SafeOnUnreliableLink(Parse(r, f).0, data, id, target, others, arriving[1..]);
    }
  }

  /** The START frame of this transfer. */
  function StartFrame(name: seq<byte>, data: seq<byte>, id: uint16): Frame
    requires |name| < LEN
  {
    MakeFrame(name + [0], id, 0, Slices(data) + 1, Start)
  }

  /** A START frame puts any receiver on track for its file, provided the file it opens is a new one. */
  lemma StartsOnTrack(r: Receiver, name: seq<byte>, data: seq<byte>, id: uint16)
    requires |name| < LEN && 0 !in name
    requires Target(r.files, StartFrame(name, data, id)) !in r.files
    ensures var f := StartFrame(name, data, id);
      OnTrack(Parse(r, f).0, data, id, Target(r.files, f), r.files) && Parse(r, f).0.lastFrame == 0 &&
      CString(f.data) == name
  {
    var f := StartFrame(name, data, id);
    var fill := [0] + Filler(LEN - 1 - |name|);
    assert f.data == name + fill;
    CStringOf(name, fill);
    assert data[..0] == [];
  }

  // ---------------------------------------------------------------- in order, nothing lost

  /** The open file holds exactly the first `m` slices. */
  predicate Holds(r: Receiver, data: seq<byte>, id: uint16, target: Name, m: nat) {
    m <= Slices(data) && r.fname == Some(target) && r.lastId == id && r.lastFrame == m &&
    r.Content(target) == data[..LEN * m]
  }

  /** Frame `k` extends the file by slice `k` as long as its number fits 16 bits; after that it is refused. */
  lemma HoldsStep(r: Receiver, data: seq<byte>, id: uint16, target: Name, k: nat)
    requires 1 <= k <= Slices(data) && Holds(r, data, id, target, Min(k - 1, 65535))
    ensures Holds(Parse(r, DataFrame(data, id, k)).0, data, id, target, Min(k, 65535))
  {
    var chunk := data[LEN * (k - 1)..LEN * k];
    assert Pad(chunk) == chunk;
    assert data[..LEN * (k - 1)] + chunk == data[..LEN * k];
  }

  lemma DataFramesAre(data: seq<byte>, id: uint16, k: nat)
    requires 1 <= k <= Slices(data)
    ensures var fs := Frames(data[..LEN * Slices(data)], id, 1, Slices(data) + 1, Data);
      |fs| == Slices(data) && fs[k - 1] == DataFrame(data, id, k)
  {
    var full := data[..LEN * Slices(data)];
    FramesCount(full, id, 1, Slices(data) + 1, Data);
    FramesAt(full, id, 1, Slices(data) + 1, Data, k - 1);
    SliceOfSlice(data, 0, |full|, LEN * (k - 1), LEN);
  }

  lemma {:induction false} DeliverData(r: Receiver, data: seq<byte>, id: uint16, target: Name, k: nat)
    requires k <= Slices(data) && Holds(r, data, id, target, 0)
    ensures var fs := Frames(data[..LEN * Slices(data)], id, 1, Slices(data) + 1, Data);
      |fs| == Slices(data) && Holds(Deliver(r, fs[..k]), data, id, target, Min(k, 65535))
    decreases k
  {
    var fs := Frames(data[..LEN * Slices(data)], id, 1, Slices(data) + 1, Data);
    FramesCount(data[..LEN * Slices(data)], id, 1, Slices(data) + 1, Data);
    if k > 0 {
      DeliverData(r, data, id, target, k - 1);
      DataFramesAre(data, id, k);
      assert fs[..k] == fs[..k - 1] + [fs[k - 1]];
      DeliverAppend(r, fs[..k - 1], [fs[k - 1]]);
      DeliverOne(Deliver(r, fs[..k - 1]), fs[k - 1]);
      HoldsStep(Deliver(r, fs[..k - 1]), data, id, target, k);
    }
  }

  lemma DeliverOne(r: Receiver, f: Frame)
    ensures Deliver(r, [f]) == Parse(r, f).0
  {
    assert [f][1..] == [];
  }

  lemma OneFrame(b: seq<byte>, id: uint16, part: int, total: int, kind: Kind)
    requires |b| <= LEN
    ensures Frames(b, id, part, total, kind) == if b == [] then [] else [MakeFrame(b, id, part, total, kind)]
  {
    if b != [] { assert b[..Taken(b)] == b && b[Taken(b)..] == []; }
  }

  predicate Idle(r: Receiver) { r.fname.None? && r.lastId == 0 && r.lastFrame == 0 }

  /** How an in-order transfer ends: whole and closed, or open with the slices that could be numbered. */
  predicate EndsAs(r: Receiver, data: seq<byte>, id: uint16, target: Name) {
    if Tail(data) != [] && Numbered(data) then Idle(r) && r.Content(target) == Received(data)
    else Holds(r, data, id, target, Min(Slices(data), 65535))
  }

  lemma ParseTail(r: Receiver, data: seq<byte>, id: uint16, target: Name)
    requires Holds(r, data, id, target, Min(Slices(data), 65535)) && Tail(data) != []
    ensures EndsAs(Parse(r, EndFrame(data, id)).0, data, id, target)
  {
    EndFrameIs(data, id);
    assert InSequence(r, EndFrame(data, id)) <==> Numbered(data);
  }

  /** The last frame closes the file if its number fits 16 bits, and is refused otherwise. */
  lemma DeliverTail(r: Receiver, data: seq<byte>, id: uint16, target: Name)
    requires Holds(r, data, id, target, Min(Slices(data), 65535))
    ensures EndsAs(Deliver(r, Frames(Tail(data), id, Slices(data) + 1, Slices(data) + 1, End)), data, id, target)
  {
    OneFrame(Tail(data), id, Slices(data) + 1, Slices(data) + 1, End);
    if Tail(data) != [] {
      DeliverOne(r, EndFrame(data, id));
      ParseTail(r, data, id, target);
    }
  }

  lemma DeliverStart(r: Receiver, name: seq<byte>, data: seq<byte>, id: uint16, target: Name)
    requires |name| < LEN && 0 !in name
    requires target == Target(r.files, StartFrame(name, data, id)) && target !in r.files
    ensures Holds(Deliver(r, Frames(name + [0], id, 0, Slices(data) + 1, Start)), data, id, target, 0)
  {
    OneFrame(name + [0], id, 0, Slices(data) + 1, Start);
    StartsOnTrack(r, name, data, id);
    DeliverOne(r, StartFrame(name, data, id));
  }

  /**
   * In-order delivery, in general: the file ends up as the data with only the tail's trailing 0xAA
   * run removed, and closed -- unless there is no tail, or the frame numbers ran past 16 bits, and
   * then it stays open with what could be numbered.
   */
  lemma DeliverInOrder(r: Receiver, name: seq<byte>, data: seq<byte>, id: uint16, target: Name)
    requires |name| < LEN && 0 !in name
    requires target == Target(r.files, StartFrame(name, data, id)) && target !in r.files
    ensures EndsAs(Deliver(r, WholeFile(name, data, id)), data, id, target)
  {
    var d := Slices(data);
    var start := Frames(name + [0], id, 0, d + 1, Start);
    var body := Frames(data[..LEN * d], id, 1, d + 1, Data);
    var tail := Frames(Tail(data), id, d + 1, d + 1, End);
    assert WholeFile(name, data, id) == start + body + tail;
    DeliverStart(r, name, data, id, target);
    DeliverData(Deliver(r, start), data, id, target, d);
    assert body[..d] == body;
    DeliverTail(Deliver(Deliver(r, start), body), data, id, target);
    DeliverAppend(r, start, body);
    DeliverAppend(r, start + body, tail);
  }

  lemma ReceivedIff(data: seq<byte>)
    requires Tail(data) != []
    ensures Received(data) == data <==> data[|data| - 1] != FILL
  {
    var tail := Tail(data);
    StripPad(tail);
    assert data == data[..LEN * Slices(data)] + tail;
    assert tail[|tail| - 1] == data[|data| - 1];
    if Received(data) == data { assert |Strip(tail)| == |tail|; }
  }

  /**
   * Round trip, exactly: a file sent whole and in order to a new name is reproduced and leaves the
   * receiver idle if and only if its length is not a multiple of 192, its last byte is not 0xAA, and
   * its frames can be numbered in 16 bits.
   */
  lemma RoundTripIff(r: Receiver, name: seq<byte>, data: seq<byte>, id: uint16, target: Name)
    requires |name| < LEN && 0 !in name
    requires target == Target(r.files, StartFrame(name, data, id)) && target !in r.files
    ensures var end := Deliver(r, WholeFile(name, data, id));
      (end.Content(target) == data && Idle(end)) <==>
      (|data| % LEN != 0 && data[|data| - 1] != FILL && |data| / LEN + 1 <= 65535)
  {
    DeliverInOrder(r, name, data, id, target);
    if Tail(data) != [] { ReceivedIff(data); }
  }

  // ---------------------------------------------------------------- safety, for the frames the sender emits

  function Body(data: seq<byte>, id: uint16): seq<Frame> {
    Frames(data[..LEN * Slices(data)], id, 1, Slices(data) + 1, Data)
  }

  function Closing(data: seq<byte>, id: uint16): seq<Frame> {
    Frames(Tail(data), id, Slices(data) + 1, Slices(data) + 1, End)
  }

  lemma WholeFileIs(name: seq<byte>, data: seq<byte>, id: uint16)
    requires |name| < LEN
    ensures WholeFile(name, data, id) == [StartFrame(name, data, id)] + (Body(data, id) + Closing(data, id))
  {
    OneFrame(name + [0], id, 0, Slices(data) + 1, Start);
    var start, body, tail := [StartFrame(name, data, id)], Body(data, id), Closing(data, id);
    assert start + body + tail == start + (body + tail);
  }

  lemma DataFramesCount(data: seq<byte>, id: uint16)
    ensures |Body(data, id)| == Slices(data)
  {
    FramesCount(data[..LEN * Slices(data)], id, 1, Slices(data) + 1, Data);
  }

  /** Every frame com_send_file emits after the START frame is one the safety argument is about. */
  lemma EmittedIsSent(name: seq<byte>, data: seq<byte>, id: uint16, f: Frame)
    requires |name| < LEN && f in WholeFile(name, data, id) && !f.kind.Start?
    ensures Sent(data, id, f)
  {
    WholeFileIs(name, data, id);
    if f in Body(data, id) {
      BodyIsSent(data, id, f);
    } else if f in Closing(data, id) {
      ClosingIsSent(data, id, f);
    }
  }

  lemma ClosingIsSent(data: seq<byte>, id: uint16, f: Frame)
    requires f in Closing(data, id)
    ensures Sent(data, id, f)
  {
    OneFrame(Tail(data), id, Slices(data) + 1, Slices(data) + 1, End);
  }

  lemma BodyIsSent(data: seq<byte>, id: uint16, f: Frame)
    requires f in Body(data, id)
    ensures Sent(data, id, f)
  {
    var body := Body(data, id);
    DataFramesCount(data, id);
    var k :| 0 <= k < |body| && body[k] == f;
    DataFramesAre(data, id, k + 1);
    assert f == DataFrame(data, id, k + 1);
  }

  /**
   * The receiver over an unreliable link.  Whatever the receiver was doing, after the START frame of
   * a file with a new name, and after any sequence of that file's other frames and of other files'
   * DATA and END frames, the file holds exactly the slices received in sequence, or -- once END was
   * accepted -- the whole file, and no other file has changed.
   */
  lemma FileSafety(r: Receiver, name: seq<byte>, data: seq<byte>, id: uint16, arriving: seq<Frame>)
    requires |name| < LEN && 0 !in name && Bounded(data)
    requires Target(r.files, StartFrame(name, data, id)) !in r.files
    requires forall f | f in arriving :: (f in WholeFile(name, data, id) && !f.kind.Start?) || Foreign(id, f)
    ensures var start := StartFrame(name, data, id);
      OnTrack(Deliver(r, [start] + arriving), data, id, Target(r.files, start), r.files)
  {
    var start := StartFrame(name, data, id);
    StartsOnTrack(r, name, data, id);
    assert ([start] + arriving)[1..] == arriving;
    forall f | f in arriving ensures Sent(data, id, f) || Foreign(id, f) {
      if !Foreign(id, f) { EmittedIsSent(name, data, id, f); }
    }
    SafeOnUnreliableLink(Parse(r, start).0, data, id, Target(r.files, start), r.files, arriving);
  }

  // ---------------------------------------------------------------- files too long for their frame numbers

  /** A receiver that has nothing, and the START frame of a file called "A". */
  const Fresh := Receiver(None, 0, 0, map[])
  const A: seq<byte> := [65]

  /** `arriving` are frames of this file after its START, or of others. */
  ghost predicate Plausible(name: seq<byte>, data: seq<byte>, id: uint16, arriving: seq<Frame>)
    requires |name| < LEN
  {
    forall f | f in arriving :: (f in WholeFile(name, data, id) && !f.kind.Start?) || Foreign(id, f)
  }

  /** Every file of `n` bytes stays on track, whatever arrives. */
  ghost predicate AlwaysOnTrack(n: nat) {
    forall r: Receiver, name: seq<byte>, data: seq<byte>, id: uint16, arriving: seq<Frame> |
      |data| == n && |name| < LEN && 0 !in name && Target(r.files, StartFrame(name, data, id)) !in r.files &&
      Plausible(name, data, id, arriving) ::
      var start := StartFrame(name, data, id);
      OnTrack(Deliver(r, [start] + arriving), data, id, Target(r.files, start), r.files)
  }

  /** In a longer file, the frame whose number wraps around to 1. */
  function Wrapped(data: seq<byte>, id: uint16): Frame
    requires !Bounded(data)
  {
    if Slices(data) > 65536 then DataFrame(data, id, 65537) else EndFrame(data, id)
  }

  lemma DataIsEmitted(name: seq<byte>, data: seq<byte>, id: uint16, k: nat)
    requires |name| < LEN && 1 <= k <= Slices(data)
    ensures DataFrame(data, id, k) in WholeFile(name, data, id)
  {
    WholeFileIs(name, data, id);
    DataFramesAre(data, id, k);
    assert Body(data, id)[k - 1] in Body(data, id);
  }

  lemma EndIsEmitted(name: seq<byte>, data: seq<byte>, id: uint16)
    requires |name| < LEN && Tail(data) != []
    ensures EndFrame(data, id) in WholeFile(name, data, id)
  {
    WholeFileIs(name, data, id);
    OneFrame(Tail(data), id, Slices(data) + 1, Slices(data) + 1, End);
    assert EndFrame(data, id) in Closing(data, id);
  }

  lemma WrappedIsSent(data: seq<byte>, id: uint16)
    requires !Bounded(data)
    ensures Wrapped(data, id) in WholeFile(A, data, id) && !Wrapped(data, id).kind.Start?
    ensures Wrapped(data, id).fileid == id && Wrapped(data, id).nframe == 1
  {
    if Slices(data) > 65536 { DataIsEmitted(A, data, id, 65537); } else { EndIsEmitted(A, data, id); }
  }

  /** A frame numbered 1 is taken in right after START. */
  lemma AcceptedFirst(r: Receiver, f: Frame)
    requires r.fname.Some? && r.lastId == f.fileid && r.lastFrame == 0 && f.nframe == 1 && (f.kind.Data? || f.kind.End?)
    ensures var (r', ok) := Parse(r, f);
      ok && (r'.fname.None? <==> f.kind.End?) && (f.kind.Data? ==> r'.lastFrame == 1) &&
      r'.Content(r.fname.value) == r.Content(r.fname.value) + Useful(f)
  {
  }

  /** So it may be taken for the first slice: a file that is not what was sent. */
  lemma WrapsAround(data: seq<byte>, id: uint16)
    requires !Bounded(data) && data[LEN * 65536] != data[0]
    ensures var start := StartFrame(A, data, id); var target := Target(map[], start);
      !OnTrack(Deliver(Fresh, [start, Wrapped(data, id)]), data, id, target, map[])
  {
    var start, f := StartFrame(A, data, id), Wrapped(data, id);
    var target := Target(map[], start);
    StartsOnTrack(Fresh, A, data, id);
    WrappedIsSent(data, id);
    var r := Parse(Fresh, start).0;
    assert [start, f] == [start] + [f];
    DeliverAppend(Fresh, [start], [f]);
    DeliverOne(Fresh, start);
    DeliverOne(r, f);
    AcceptedFirst(r, f);
    var end := Parse(r, f).0;
    assert r.Content(target) == [];
    if Slices(data) > 65536 {
      var chunk := data[LEN * 65536..LEN * 65537];
      assert Pad(chunk) == chunk && Useful(f) == chunk;
      assert end.Content(target)[0] == data[LEN * 65536];
      assert data[..LEN][0] == data[0];
    } else {
      EndFrameIs(data, id);
      assert |end.Content(target)| <= LEN < |Received(data)|;
    }
  }

  /** Exactly which files the receiver is safe for: those of at most 65536 slices. */
  lemma AlwaysOnTrackIff(n: nat)
    ensures AlwaysOnTrack(n) <==> n <= LEN * 65536
  {
    if n <= LEN * 65536 {
      forall r: Receiver, name: seq<byte>, data: seq<byte>, id: uint16, arriving: seq<Frame> |
        |data| == n && |name| < LEN && 0 !in name && Target(r.files, StartFrame(name, data, id)) !in r.files &&
        Plausible(name, data, id, arriving)
        ensures var start := StartFrame(name, data, id);
          OnTrack(Deliver(r, [start] + arriving), data, id, Target(r.files, start), r.files)
      {
        FileSafety(r, name, data, id, arriving);
      }
    } else {
      var data := Marked(n);
      var start, f := StartFrame(A, data, 0), Wrapped(data, 0);
      WrapsAround(data, 0);
      WrappedIsSent(data, 0);
      assert [start, f] == [start] + [f];
      assert Plausible(A, data, 0, [f]);
      assert Target(Fresh.files, start) !in Fresh.files;
    }
  }
}
