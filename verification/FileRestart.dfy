/** A START frame that arrives a second time in the middle of its transfer. */
module FileRestart {
  import opened Memory
  import opened Arithmetic
  import opened FileFrames
  import opened FileReceiver
  import opened FileTransfer

  /** The frames of a file in order, with START again after its first `j` DATA frames. */
  function StartTwice(name: seq<byte>, data: seq<byte>, id: uint16, j: nat): seq<Frame>
    requires |name| < LEN && j <= |Body(data, id)|
  {
    [StartFrame(name, data, id)] + Body(data, id)[..j] +
    ([StartFrame(name, data, id)] + (Body(data, id)[j..] + Closing(data, id)))
  }

  /** A frame that cannot follow a START. */
  predicate TooLate(f: Frame) { (f.kind.Data? || f.kind.End?) && f.nframe != 1 }

  predicate AllTooLate(fs: seq<Frame>) { forall i | 0 <= i < |fs| :: TooLate(fs[i]) }

  lemma {:induction false} AllRefused(r: Receiver, fs: seq<Frame>)
    requires r.lastFrame == 0 && AllTooLate(fs)
    ensures Deliver(r, fs) == r
    decreases |fs|
  {
    if fs != [] { AllRefused(r, fs[1..]); }
  }

  /** The DATA frames after the first, up to the one numbered 0. */
  lemma BodyTooLate(data: seq<byte>, id: uint16, j: nat, m: nat)
    requires 1 <= j <= m <= |Body(data, id)| && m <= 65536
    ensures AllTooLate(Body(data, id)[j..m])
  {
    DataFramesCount(data, id);
    forall i | 0 <= i < m - j ensures TooLate(Body(data, id)[j..m][i]) {
      DataFramesAre(data, id, j + i + 1);
    }
  }

  lemma ClosingTooLate(data: seq<byte>, id: uint16)
    requires 0 < Slices(data) <= 65535
    ensures AllTooLate(Closing(data, id))
  {
    OneFrame(Tail(data), id, Slices(data) + 1, Slices(data) + 1, End);
    EndTooLate(data, id);
  }

  lemma EndTooLate(data: seq<byte>, id: uint16)
    requires 0 < Slices(data) <= 65535
    ensures TooLate(EndFrame(data, id))
  {
    var d := Slices(data);
    assert (d + 1) % 65536 != 1;
  }

  /** After START, `j` DATA frames and START again: the two parts of what is still to come. */
  lemma SecondStart(r: Receiver, name: seq<byte>, data: seq<byte>, id: uint16, j: nat, m: nat) returns (r2: Receiver)
    requires |name| < LEN && 1 <= j <= m <= |Body(data, id)| && (j == m || m <= 65536)
    ensures var start := StartFrame(name, data, id);
      r2 == Parse(Deliver(r, [start] + Body(data, id)[..j]), start).0
    ensures Deliver(r, StartTwice(name, data, id, j)) == Deliver(r2, Body(data, id)[m..] + Closing(data, id))
  {
    var start, body, tail := StartFrame(name, data, id), Body(data, id), Closing(data, id);
    var r1 := Deliver(r, [start] + body[..j]);
    r2 := Parse(r1, start).0;
    DeliverAppend(r, [start] + body[..j], [start] + (body[j..] + tail));
    DeliverAppend(r1, [start], body[j..] + tail);
    DeliverOne(r1, start);
    assert body[j..] + tail == body[j..m] + (body[m..] + tail);
    DeliverAppend(r2, body[j..m], body[m..] + tail);
    if j < m { BodyTooLate(data, id, j, m); }
    AllRefused(r2, body[j..m]);
  }

  /** Once a DATA frame has been taken in, a second START opens a file that the rest of the frames do not fit. */
  lemma LateStartStaysOpen(r: Receiver, name: seq<byte>, data: seq<byte>, id: uint16, j: nat)
    requires |name| < LEN && 1 <= j <= |Body(data, id)| && Slices(data) <= 65535
    ensures Deliver(r, StartTwice(name, data, id, j)).fname.Some?
  {
    DataFramesCount(data, id);
    var m := Slices(data);
    var r2 := SecondStart(r, name, data, id, j, m);
    assert Body(data, id)[m..] + Closing(data, id) == Closing(data, id);
    ClosingTooLate(data, id);
    AllRefused(r2, Closing(data, id));
  }

  /** The bytes a sequence of frames can add to a file. */
  function Bytes(fs: seq<Frame>): nat {
    if fs == [] then 0 else |Useful(fs[0])| + Bytes(fs[1..])
  }

  predicate Appending(fs: seq<Frame>) { forall i | 0 <= i < |fs| :: fs[i].kind.Data? || fs[i].kind.End? }

  lemma ParseGrows(r: Receiver, f: Frame, t: Name)
    requires f.kind.Data? || f.kind.End?
    ensures |Parse(r, f).0.Content(t)| <= |r.Content(t)| + |Useful(f)|
  {
  }

  lemma {:induction false} DeliverGrows(r: Receiver, fs: seq<Frame>, t: Name)
    requires Appending(fs)
    ensures |Deliver(r, fs).Content(t)| <= |r.Content(t)| + Bytes(fs)
    decreases |fs|
  {
    if fs != [] {
      ParseGrows(r, fs[0], t);
      DeliverGrows(Parse(r, fs[0]).0, fs[1..], t);
    }
  }

  lemma {:induction false} BytesAppend(a: seq<Frame>, b: seq<Frame>)
    ensures Bytes(a + b) == Bytes(a) + Bytes(b)
  {
    if a == [] {
      assert a + b == b;
    } else {
      assert (a + b)[1..] == a[1..] + b;
      BytesAppend(a[1..], b);
    }
  }

  /** Full slices: DATA frames of 192 bytes. */
  predicate AllFull(fs: seq<Frame>) { forall i | 0 <= i < |fs| :: fs[i].kind.Data? && |fs[i].data| == LEN }

  lemma {:induction false} FullBytes(fs: seq<Frame>)
    requires AllFull(fs)
    ensures Bytes(fs) == LEN * |fs|
  {
    if fs != [] { FullBytes(fs[1..]); }
  }

  lemma RestBytes(data: seq<byte>, id: uint16, m: nat)
    requires m <= |Body(data, id)|
    ensures Appending(Body(data, id)[m..] + Closing(data, id))
    ensures Bytes(Body(data, id)[m..] + Closing(data, id)) <= |data| - LEN * m
  {
    var body, tail := Body(data, id)[m..], Closing(data, id);
    DataFramesCount(data, id);
    forall i | 0 <= i < |body| ensures body[i].kind.Data? && |body[i].data| == LEN {
      DataFramesAre(data, id, m + i + 1);
    }
    FullBytes(body);
    BytesAppend(body, tail);
    ClosingBytes(data, id);
  }

  lemma ClosingBytes(data: seq<byte>, id: uint16)
    ensures Appending(Closing(data, id)) && Bytes(Closing(data, id)) <= |Tail(data)|
  {
    OneFrame(Tail(data), id, Slices(data) + 1, Slices(data) + 1, End);
    EndFrameIs(data, id);
    if Tail(data) != [] { assert [EndFrame(data, id)][1..] == []; }
  }

  lemma AfterStart(r: Receiver, name: seq<byte>, data: seq<byte>, id: uint16, target: Name, j: nat)
    requires |name| < LEN && 0 !in name && j <= |Body(data, id)| == Slices(data)
    requires target == Target(r.files, StartFrame(name, data, id)) && target !in r.files
    ensures Holds(Deliver(r, [StartFrame(name, data, id)] + Body(data, id)[..j]), data, id, target, Min(j, 65535))
  {
    var start := StartFrame(name, data, id);
    DeliverAppend(r, [start], Body(data, id)[..j]);
    DeliverStart(r, name, data, id, target);
    OneFrame(name + [0], id, 0, Slices(data) + 1, Start);
    DeliverData(Deliver(r, [start]), data, id, target, j);
  }

  /** In a file long enough for numbers to wrap around, the frames taken in after a second START are too few. */
  lemma LateStartTooShort(r: Receiver, name: seq<byte>, data: seq<byte>, id: uint16, target: Name, j: nat)
    requires |name| < LEN && 0 !in name && 1 <= j <= |Body(data, id)| && Slices(data) >= 65536
    requires target == Target(r.files, StartFrame(name, data, id)) && target !in r.files
    ensures |Deliver(r, StartTwice(name, data, id, j)).Content(target)| < |data|
  {
    DataFramesCount(data, id);
    var start, m := StartFrame(name, data, id), if j < 65536 then 65536 else j;
    var r2 := SecondStart(r, name, data, id, j, m);
    AfterStart(r, name, data, id, target, j);
    RestBytes(data, id, m);
    DeliverGrows(r2, Body(data, id)[m..] + Closing(data, id), target);
  }

  /**
   * Exactly when a repeated START does no harm: a file that would have been reproduced still is, and leaves the
   * receiver idle, if and only if the second START comes before the first DATA frame.
   */
  lemma DuplicateStartIff(r: Receiver, name: seq<byte>, data: seq<byte>, id: uint16, target: Name, j: nat)
    requires |name| < LEN && 0 !in name && j <= |Body(data, id)|
    requires target == Target(r.files, StartFrame(name, data, id)) && target !in r.files
    ensures var end := Deliver(r, StartTwice(name, data, id, j));
      (end.Content(target) == data && Idle(end)) <==>
      (j == 0 && |data| % LEN != 0 && data[|data| - 1] != FILL && |data| / LEN + 1 <= 65535)
  {
    if j == 0 {
      var start, whole := StartFrame(name, data, id), WholeFile(name, data, id);
      WholeFileIs(name, data, id);
      assert Body(data, id)[..0] == [] && Body(data, id)[0..] == Body(data, id);
      assert StartTwice(name, data, id, 0) == [start] + whole;
      DeliverAppend(r, [start], whole);
      DeliverOne(r, start);
      RoundTripIff(Parse(r, start).0, name, data, id, target);
    } else if Slices(data) <= 65535 {
      LateStartStaysOpen(r, name, data, id, j);
    } else {
      LateStartTooShort(r, name, data, id, target, j);
    }
  }
}
