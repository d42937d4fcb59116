/** Splitting a file into numbered 192-byte frames: com_send_file and com_send_file_parts of src/system/cmdCOM.c. */
module FileFrames {
  import opened Memory
  import opened Arithmetic

  const FILL: byte := 0xAA         // what a short frame is filled with

  /** TM_TYPE_FILE_START, _DATA, _END and _PART */
  datatype Kind = Start | Data | End | Part

  /** com_frame_file_t, with the byte order of the host */
  datatype Frame = Frame(kind: Kind, nframe: uint16, fileid: uint16, total: uint16, data: seq<byte>)

  function Filler(n: nat): (r: seq<byte>)
    ensures |r| == n && forall i | 0 <= i < n :: r[i] == FILL
  {
    seq(n, _ => FILL)
  }

  function Pad(chunk: seq<byte>): (r: seq<byte>)
    requires |chunk| <= LEN
    ensures |r| == LEN
  {
    chunk + Filler(LEN - |chunk|)
  }

  /** The bytes the next frame takes. */
  function Taken(left: seq<byte>): nat { if |left| >= LEN then LEN else |left| }

  /** The frames that carry `left`, the first of them with number `part`. */
  function Frames(left: seq<byte>, id: int, part: int, total: int, kind: Kind): seq<Frame>
    decreases |left|
  {
    if left == [] then [] else
      [MakeFrame(left[..Taken(left)], id, part, total, kind)] + Frames(left[Taken(left)..], id, part + 1, total, kind)
  }

  /** One frame: the header fields are cut to 16 bits, the data is padded. */
  function MakeFrame(chunk: seq<byte>, id: int, part: int, total: int, kind: Kind): Frame
    requires |chunk| <= LEN
  {
    Frame(kind, part % 65536, id % 65536, total % 65536, Pad(chunk))
  }

  /** The k-th slice of 192 bytes; the last one may be shorter. */
  function Chunk(data: seq<byte>, k: nat): (r: seq<byte>)
    requires LEN * k < |data|
    ensures |r| == Min(LEN, |data| - LEN * k)
  {
    data[LEN * k..LEN * k + Min(LEN, |data| - LEN * k)]
  }

  /** At most 65536 slices, so that no two of them get the same 16-bit number. */
  predicate Bounded(data: seq<byte>) { |data| <= LEN * 65536 }

  lemma {:induction false} FramesCount(data: seq<byte>, id: int, part: int, total: int, kind: Kind)
    ensures LEN * |Frames(data, id, part, total, kind)| < |data| + LEN
    ensures LEN * |Frames(data, id, part, total, kind)| >= |data|
    decreases |data|
  {
    if data != [] { FramesCount(data[Taken(data)..], id, part + 1, total, kind); }
  }

  lemma FramesFirst(data: seq<byte>, id: int, part: int, total: int, kind: Kind)
    requires data != []
    ensures |Frames(data, id, part, total, kind)| > 0
    ensures Frames(data, id, part, total, kind)[0] == MakeFrame(Chunk(data, 0), id, part, total, kind)
  {
    assert data[..Taken(data)] == Chunk(data, 0);
  }

  lemma FramesNext(data: seq<byte>, id: int, part: int, total: int, kind: Kind)
    requires |data| > LEN
    ensures |Frames(data, id, part, total, kind)| > 0
    ensures Frames(data, id, part, total, kind)[1..] == Frames(data[LEN..], id, part + 1, total, kind)
  {
    assert Taken(data) == LEN;
  }

  lemma ChunkShift(data: seq<byte>, k: nat)
    requires k > 0 && LEN * k < |data|
    ensures Chunk(data[LEN..], k - 1) == Chunk(data, k)
  {
    var rest := data[LEN..];
    SliceOfSlice(data, LEN, |rest|, LEN * (k - 1), Min(LEN, |rest| - LEN * (k - 1)));
  }

  /** In closed form: frame `k` has number `part + k`, cut to 16 bits, and carries slice `k`, padded. */
  lemma {:induction false} FramesAt(data: seq<byte>, id: int, part: int, total: int, kind: Kind, k: nat)
    requires LEN * k < |data|
    ensures k < |Frames(data, id, part, total, kind)|
    ensures Frames(data, id, part, total, kind)[k] == MakeFrame(Chunk(data, k), id, part + k, total, kind)
    decreases k
  {
    if k == 0 {
      FramesFirst(data, id, part, total, kind);
    } else {
      FramesNext(data, id, part, total, kind);
      FramesAt(data[LEN..], id, part + 1, total, kind, k - 1);
      ChunkShift(data, k);
    }
  }

  /** What a link that takes `n` frames lets through. */
  function First(s: seq<Frame>, n: nat): seq<Frame> { s[..Min(n, |s|)] }

  lemma FirstJoin(a: seq<Frame>, b: seq<Frame>, n: nat)
    ensures First(a + b, n) == if n <= |a| then First(a, n) else a + First(b, n - |a|)
  {
  }

  /**
   * com_send_file_parts.  `accepts` is how many frames the link takes before csp_send fails; a call
   * with nothing to send reports an error, because its send status never becomes 1.
   */
  method SendFileParts(data: seq<byte>, id: int, first: int, total: int, kind: Kind, accepts: nat)
    returns (ok: bool, sent: seq<Frame>)
    ensures var all := Frames(data, id, first, total, kind);
      sent == First(all, accepts) && (ok <==> data != [] && accepts >= |all|)
  {
    ghost var all := Frames(data, id, first, total, kind);
    sent := [];
    ok := false;
    var left := data;
    var part := first;
    while left != []
      invariant left != data ==> data != []
      invariant part == first + |sent| && |sent| <= accepts && (ok <==> left != data)
      invariant |sent| <= |all| && sent == all[..|sent|] && all[|sent|..] == Frames(left, id, part, total, kind)
      decreases |left|
    {
      var n := if |left| >= LEN then LEN else |left|;
      var frame := MakeFrame(left[..n], id, part, total, kind);
      assert all[|sent|..] == [frame] + Frames(left[n..], id, part + 1, total, kind);
      assert all[|sent|] == frame && all[|sent| + 1..] == all[|sent|..][1..];
      if |sent| == accepts {
        return false, sent;
      }
      sent := sent + [frame];
      ok := true;
      part := part + 1;
      left := left[n..];
    }
  }

  /** The next group of frames of com_send_file, sent only if everything before it went through. */
  method SendNext(before: bool, sofar: seq<Frame>, ghost lead: seq<Frame>,
                  data: seq<byte>, id: int, first: int, total: int, kind: Kind, accepts: nat)
    returns (ok: bool, sent: seq<Frame>)
    requires sofar == First(lead, accepts) && (before <==> accepts >= |lead|)
    ensures var all := lead + Frames(data, id, first, total, kind);
      sent == First(all, accepts) && (ok <==> data != [] && accepts >= |all|)
  {
    FirstJoin(lead, Frames(data, id, first, total, kind), accepts);
    ok, sent := before, sofar;
    if ok {
      var more;
      ok, more := SendFileParts(data, id, first, total, kind, accepts - |sofar|);
      sent := sofar + more;
    } else {
      FramesCount(data, id, first, total, kind);
    }
  }

  /** The frames of a whole file: its name, the full slices, and the tail if there is one. */
  function WholeFile(name: seq<byte>, data: seq<byte>, id: int): seq<Frame> {
    var d := |data| / LEN;
    Frames(name + [0], id, 0, d + 1, Start) + Frames(data[..LEN * d], id, 1, d + 1, Data) +
    Frames(data[LEN * d..], id, d + 1, d + 1, End)
  }

  /** com_send_file: a file whose length is a multiple of 192 has no END frame and is reported as an error. */
  method SendFile(name: seq<byte>, data: seq<byte>, id: int, accepts: nat) returns (ok: bool, sent: seq<Frame>)
    ensures sent == First(WholeFile(name, data, id), accepts)
    ensures ok <==> |data| % LEN != 0 && accepts >= |WholeFile(name, data, id)|
  {
    var d := |data| / LEN;
    var full := LEN * d;
    ghost var start := Frames(name + [0], id, 0, d + 1, Start);
    ghost var body := Frames(data[..full], id, 1, d + 1, Data);
    ghost var tail := Frames(data[full..], id, d + 1, d + 1, End);
    ok, sent := SendFileParts(name + [0], id, 0, d + 1, Start, accepts);
    if full > 0 {
      ok, sent := SendNext(ok, sent, start, data[..full], id, 1, d + 1, Data, accepts);
    }
    assert start + body == if full > 0 then start + body else start;
    ok, sent := SendNext(ok, sent, start + body, data[full..], id, d + 1, d + 1, End, accepts);
    assert data[full..] == [] <==> |data| % LEN == 0;
  }

  /** A file of more than 65536 slices, in which slice 65536 does not start as slice 0 does. */
  function Marked(n: nat): (r: seq<byte>)
    requires n > LEN * 65536
    ensures |r| == n && r[0] == 0 && r[LEN * 65536] == 1
  {
    Zeros(LEN * 65536) + [1] + Zeros(n - LEN * 65536 - 1)
  }

  // ---------------------------------------------------------------- the tail of the last frame

  /** A buffer without its trailing 0xAA bytes. */
  function Strip(b: seq<byte>): (r: seq<byte>)
    ensures r <= b && (r != [] ==> r[|r| - 1] != FILL) && forall i | |r| <= i < |b| :: b[i] == FILL
  {
    if b != [] && b[|b| - 1] == FILL then Strip(b[..|b| - 1]) else b
  }

  /** The backwards scan tm_parse_file finds the end of the data with. */
  method StripLength(b: seq<byte>) returns (n: nat)
    ensures n == |Strip(b)|
  {
    var i := |b| - 1;
    while i >= 0
      invariant -1 <= i < |b| && Strip(b) == Strip(b[..i + 1])
    {
      if b[i] != FILL { break; }
      assert b[..i + 1][..i] == b[..i];
      i := i - 1;
    }
    n := i + 1;
  }

  lemma StripUnique(b: seq<byte>, r: seq<byte>)
    requires r <= b && (r != [] ==> r[|r| - 1] != FILL) && forall i | |r| <= i < |b| :: b[i] == FILL
    ensures Strip(b) == r
  {
  }

  /** Padding is undone by stripping, except for 0xAA bytes the data itself ended with. */
  lemma StripPad(chunk: seq<byte>)
    requires |chunk| <= LEN
    ensures Strip(Pad(chunk)) == Strip(chunk)
    ensures Strip(chunk) == chunk <==> chunk == [] || chunk[|chunk| - 1] != FILL
  {
    StripUnique(Pad(chunk), Strip(chunk));
    if chunk == [] || chunk[|chunk| - 1] != FILL { StripUnique(chunk, chunk); }
  }
}
