/** Asking for parts of a file again: the range arithmetic of tm_send_file_parts in src/system/cmdTM.c. */
module FileRequests {
  import opened Memory
  import opened Arithmetic
  import opened Options
  import opened FileFrames

  const SIZE_T := 0x1_0000_0000_0000_0000      // size_t is 64 bits
  const WRAP := 0x400_0000                     // 192 * WRAP is a multiple of 2^32

  /** Conversion of a signed number to size_t, and of a size_t to int. */
  function AsSize(x: int): nat { x % SIZE_T }
  function AsInt(x: int): int32 { Signed(x % 0x1_0000_0000) }

  lemma AsSizeIs(x: int)
    requires -SIZE_T <= x < 2 * SIZE_T
    ensures AsSize(x) == if x < 0 then x + SIZE_T else if x < SIZE_T then x else x - SIZE_T
  {
  }

  /** How many frames a file of `n` bytes has. */
  function Total(n: nat): nat { n / LEN + if n % LEN != 0 then 1 else 0 }

  lemma TotalIs(n: nat, k: nat)
    ensures k < Total(n) <==> LEN * k < n
    ensures k == Total(n) - 1 <==> LEN * k < n <= LEN * (k + 1)
  {
  }

  // ---------------------------------------------------------------- the arithmetic of the source

  /** start_byte, an int: the offset of the first frame, cut to 32 bits. */
  function StartByte(first: int32): int32 { AsInt(LEN * first) }

  /** The frame numbers can be subtracted as ints. */
  predicate Nameable(first: int32, last: int32) {
    -0x8000_0000 <= last - first < 0x8000_0000
  }

  /** read_bytes before the limits are checked; a negative `last` asks for the whole file. */
  function Wanted(n: nat, first: int32, last: int32): nat {
    if last < 0 then n else Clipped(n, StartByte(first), (last - first) * LEN)
  }

  /** `width` bytes, or those up to the end of the file if they are fewer, in size_t. */
  function Clipped(n: nat, start: int, width: int): nat {
    if AsSize(start + AsSize(width)) > n then AsSize(n - start) else AsSize(width)
  }

  /** The bytes read.  None is an error return: outside the file, or a count no allocation can satisfy. */
  function ReadBytes(n: nat, first: int32, last: int32): Option<nat> {
    var count := Wanted(n, first, last);
    if StartByte(first) > n || AsSize(StartByte(first) + count) > n then None
    else if count >= SIZE_T / 2 then None
    else Some(count)
  }

  /**
   * The buffer sent.  A negative offset makes the seek fail, so the read starts at the beginning of the
   * file and may leave what malloc returned, `junk`, at the end of the buffer.
   */
  function Buffer(data: seq<byte>, start: int32, count: nat, junk: seq<byte>): (r: seq<byte>)
    requires |junk| == count && (start >= 0 ==> start + count <= |data|)
    ensures |r| == count
  {
    if start >= 0 then data[start..start + count]
    else data[..Min(count, |data|)] + junk[Min(count, |data|)..]
  }

  lemma ReadInside(n: nat, first: int32, last: int32)
    requires n < SIZE_T / 2 && ReadBytes(n, first, last).Some? && StartByte(first) >= 0
    ensures StartByte(first) + ReadBytes(n, first, last).value <= n
  {
    AsSizeIs(StartByte(first) + ReadBytes(n, first, last).value);
  }

  /** `junk` is as long as the buffer the request allocates. */
  predicate Allocated(n: nat, first: int32, last: int32, junk: seq<byte>) {
    ReadBytes(n, first, last).Some? ==> |junk| == ReadBytes(n, first, last).value
  }

  /** The frames a request puts on the link; an error return sends nothing. */
  function RequestFrames(data: seq<byte>, id: int, first: int32, last: int32, junk: seq<byte>): seq<Frame>
    requires |data| < SIZE_T / 2 && Allocated(|data|, first, last, junk)
  {
    match ReadBytes(|data|, first, last)
    case None => []
    case Some(count) =>
      if StartByte(first) >= 0 then
        ReadInside(|data|, first, last);
        Frames(Buffer(data, StartByte(first), count, junk), id, first, Total(|data|) - 1, Part)
      else Frames(Buffer(data, StartByte(first), count, junk), id, first, Total(|data|) - 1, Part)
  }

  /** Part `k` of a file. */
  function Piece(data: seq<byte>, id: int, k: nat): Frame
    requires LEN * k < |data|
  {
    MakeFrame(Chunk(data, k), id, k, Total(|data|) - 1, Part)
  }

  /** A frame that is some part of the file. */
  ghost predicate IsPiece(data: seq<byte>, id: int, f: Frame) {
    exists k: nat :: LEN * k < |data| && f == Piece(data, id, k)
  }

  // ---------------------------------------------------------------- requests whose offset is right

  /** The frame a request really starts at, and when the offset of that frame survives the cut to 32 bits. */
  function Base(first: int32): nat { first % WRAP }
  predicate Exact(first: int32) { LEN * Base(first) < 0x8000_0000 }

  /** The offset is that of frame `Base(first)`, or it is negative or inside some frame. */
  lemma StartByteIs(first: int32)
    ensures Exact(first) ==> StartByte(first) == LEN * Base(first)
    ensures !Exact(first) ==> StartByte(first) < 0 || StartByte(first) % LEN != 0
  {
    var b, q := Base(first), first / WRAP;
    assert first == q * WRAP + b;
    assert LEN * first == 3 * q * 0x1_0000_0000 + LEN * b;
    assert LEN * first % 0x1_0000_0000 == LEN * b % 0x1_0000_0000;
    var m := LEN * b / 0x1_0000_0000;
    assert 0 <= m <= 2 && LEN * b % 0x1_0000_0000 == LEN * b - m * 0x1_0000_0000;
  }

  /** The frame after the last one asked for, counted from the frame the request really starts at. */
  function EndFrame(first: int32, last: int32): int { last - (first - Base(first)) }

  /** What the arithmetic amounts to then. */
  lemma ReadBytesIs(n: nat, first: int32, last: int32)
    requires n < SIZE_T / 2 && Nameable(first, last) && Exact(first)
    ensures var b, end := LEN * Base(first), LEN * EndFrame(first, last);
      ReadBytes(n, first, last) ==
        if b > n then None
        else if last < 0 then (if b == 0 then Some(n) else None)
        else if last >= first then Some(Min(end, n) - b)
        else if end >= 0 then None else Some(n - b)
  {
    StartByteIs(first);
    var b, width := LEN * Base(first), (last - first) * LEN;
    assert LEN * EndFrame(first, last) == b + width;
    AsSizeIs(b + n);
    AsSizeIs(width);
    AsSizeIs(b + AsSize(width));
    AsSizeIs(n - b);
  }

  /** A request that is not refused reads whole frames, or up to the end of the file. */
  lemma RequestReads(data: seq<byte>, id: int, first: int32, last: int32, junk: seq<byte>) returns (end: nat)
    requires |data| < SIZE_T / 2 && Nameable(first, last) && Exact(first) && Allocated(|data|, first, last, junk)
    requires RequestFrames(data, id, first, last, junk) != []
    ensures LEN * Base(first) <= end <= |data| && (end == |data| || end == LEN * EndFrame(first, last))
    ensures RequestFrames(data, id, first, last, junk) ==
      Frames(data[LEN * Base(first)..end], id, first, Total(|data|) - 1, Part)
  {
    StartByteIs(first);
    ReadBytesIs(|data|, first, last);
    ReadInside(|data|, first, last);
    end := LEN * Base(first) + ReadBytes(|data|, first, last).value;
  }

  /** Slice `j` of the range that starts at frame `first` is slice `first + j` of the file. */
  lemma ChunkOfRange(data: seq<byte>, first: nat, last: int, end: nat, j: nat)
    requires LEN * first <= end <= |data| && LEN * j < end - LEN * first && (end == |data| || end == LEN * last)
    ensures LEN * (first + j) < |data| && Chunk(data[LEN * first..end], j) == Chunk(data, first + j)
  {
    var n := Min(LEN, end - LEN * first - LEN * j);
    ChunkSize(|data|, first, last, end, j);
    SliceOfSlice(data, LEN * first, end - LEN * first, LEN * j, n);
  }

  lemma ChunkSize(size: nat, first: nat, last: int, end: nat, j: nat)
    requires LEN * first <= end <= size && LEN * j < end - LEN * first && (end == size || end == LEN * last)
    ensures Min(LEN, end - LEN * first - LEN * j) == Min(LEN, size - LEN * (first + j))
  {
  }

  lemma FrameInRange(part: seq<byte>, id: int, first: int, total: int, j: nat)
    requires j < |Frames(part, id, first, total, Part)|
    ensures LEN * j < |part|
    ensures Frames(part, id, first, total, Part)[j] == MakeFrame(Chunk(part, j), id, first + j, total, Part)
  {
    FramesCount(part, id, first, total, Part);
    FramesAt(part, id, first, total, Part, j);
  }

  /** Frame numbers are cut to 16 bits, so they do not show where the request was thought to start. */
  lemma SameNumber(chunk: seq<byte>, id: int, first: int32, j: nat, total: int)
    requires |chunk| <= LEN
    ensures MakeFrame(chunk, id, first + j, total, Part) == MakeFrame(chunk, id, Base(first) + j, total, Part)
  {
    var q := first / WRAP;
    assert first + j == 65536 * (1024 * q) + (Base(first) + j);
    assert (first + j) % 65536 == (Base(first) + j) % 65536;
  }

  lemma PieceInRange(data: seq<byte>, id: int, first: int32, last: int, end: nat, j: nat)
    requires LEN * Base(first) <= end <= |data| && (end == |data| || end == LEN * last)
    requires j < |Frames(data[LEN * Base(first)..end], id, first, Total(|data|) - 1, Part)|
    ensures LEN * (Base(first) + j) < |data|
    ensures Frames(data[LEN * Base(first)..end], id, first, Total(|data|) - 1, Part)[j] ==
      Piece(data, id, Base(first) + j)
  {
    var b, total := Base(first), Total(|data|) - 1;
    FrameInRange(data[LEN * b..end], id, first, total, j);
    ChunkOfRange(data, b, last, end, j);
    SameNumber(Chunk(data, b + j), id, first, j, total);
  }

  /** Whatever range it is asked for in, part `k` is always the same frame. */
  lemma RequestSendsPieces(data: seq<byte>, id: int, first: int32, last: int32, junk: seq<byte>, j: nat)
    requires |data| < SIZE_T / 2 && Nameable(first, last) && Exact(first) && Allocated(|data|, first, last, junk)
    requires j < |RequestFrames(data, id, first, last, junk)|
    ensures LEN * (Base(first) + j) < |data|
    ensures RequestFrames(data, id, first, last, junk)[j] == Piece(data, id, Base(first) + j)
  {
    var end := RequestReads(data, id, first, last, junk);
    PieceInRange(data, id, first, EndFrame(first, last), end, j);
  }

  /** And a request for all of it sends them all. */
  lemma WholeRequest(data: seq<byte>, id: int, k: nat)
    requires |data| < SIZE_T / 2 && LEN * k < |data|
    ensures Allocated(|data|, 0, -1, data)
    ensures k < |RequestFrames(data, id, 0, -1, data)| && RequestFrames(data, id, 0, -1, data)[k] == Piece(data, id, k)
  {
    ReadBytesIs(|data|, 0, -1);
    StartByteIs(0);
    assert data[0..|data|] == data;
    FramesAt(data, id, 0, Total(|data|) - 1, Part, k);
  }

  // ---------------------------------------------------------------- requests whose offset is wrong

  /** Every request that starts at `first`, on any file, sends only parts of the file. */
  ghost predicate OnlyPieces(first: int32, id: int) {
    forall data: seq<byte>, last: int32, junk: seq<byte> |
      |data| < SIZE_T / 2 && Nameable(first, last) && Allocated(|data|, first, last, junk) ::
      forall f | f in RequestFrames(data, id, first, last, junk) :: IsPiece(data, id, f)
  }

  /** A range that shows it, in a file of `n` bytes: from the wrong offset to the end, or everything and more. */
  function StrayLast(first: int32): int32 {
    if first < 0 then 0 else if StartByte(first) < 0 || first == 0x7FFF_FFFF then first else first + 1
  }

  lemma StrayInside(first: int32)
    requires !Exact(first) && StartByte(first) >= 0
    ensures Nameable(first, StrayLast(first))
    ensures ReadBytes(StartByte(first) + 1, first, StrayLast(first)) == Some(1)
  {
    var s, last := StartByte(first), StrayLast(first);
    var width := (last - first) * LEN;
    assert width >= LEN;
    AsSizeIs(width);
    AsSizeIs(s + width);
    AsSizeIs(s + 1);
  }

  /** A negative offset, in a file of one byte: the count covers at least what lies before the file. */
  lemma ClippedBefore(start: int, width: int)
    requires -0x8000_0000 <= start <= -2 && 0 <= width < SIZE_T / 4 && (start + width <= 0 || start + width > 1)
    ensures var count := Clipped(1, start, width);
      0 <= start + count <= 1 && AsSize(start + count) <= 1 && count < SIZE_T / 2
  {
    AsSizeIs(width);
    AsSizeIs(start + width);
    AsSizeIs(1 - start);
    AsSizeIs(0);
    AsSizeIs(1);
  }

  lemma StrayBefore(first: int32)
    requires !Exact(first) && StartByte(first) < 0
    ensures Nameable(first, StrayLast(first))
    ensures var r := ReadBytes(1, first, StrayLast(first));
      r.Some? && r.value + StartByte(first) >= 0 && StartByte(first) <= -2
  {
    var s: int, last := StartByte(first), StrayLast(first);
    var q := StartBits(first);
    EvenOffset(first);
    ClippedBefore(s, (last - first) * LEN);
  }

  lemma EvenOffset(first: int32)
    ensures StartByte(first) % 2 == 0
  {
    var q := StartBits(first);
    assert StartByte(first) as int == 2 * (96 * first - q * 0x8000_0000);
  }

  /** The offset is the true one but for a multiple of 2^32. */
  lemma StartBits(first: int32) returns (q: int)
    ensures LEN * first == StartByte(first) + q * 0x1_0000_0000
  {
    var x := LEN * first;
    var u := x % 0x1_0000_0000;
    q := x / 0x1_0000_0000;
    assert x == u + q * 0x1_0000_0000;
    if u >= 0x8000_0000 { q := q + 1; }
  }

  lemma FirstByte(part: seq<byte>, id: int, first: int, total: int, i: nat)
    requires i < |part| && i < LEN
    ensures |Frames(part, id, first, total, Part)| > 0 && Frames(part, id, first, total, Part)[0].data[i] == part[i]
  {
  }

  /** The request sends a frame that is no part of the file. */
  ghost predicate Stray(data: seq<byte>, id: int, first: int32, last: int32, junk: seq<byte>) {
    |data| < SIZE_T / 2 && Nameable(first, last) && Allocated(|data|, first, last, junk) &&
    |RequestFrames(data, id, first, last, junk)| > 0 &&
    !IsPiece(data, id, RequestFrames(data, id, first, last, junk)[0])
  }

  lemma StrayFromInside(first: int32, id: int)
    requires !Exact(first) && StartByte(first) >= 0
    ensures Stray(Zeros(StartByte(first)) + [1], id, first, StrayLast(first), [0])
  {
    var s, last := StartByte(first), StrayLast(first);
    StartByteIs(first);
    StrayInside(first);
    var data := Zeros(s) + [1];
    FirstByte(data[s..s + 1], id, first, Total(|data|) - 1, 0);
    var f := RequestFrames(data, id, first, last, [0])[0];
    assert f.data[0] == 1;
    forall k: nat | LEN * k < |data| ensures f != Piece(data, id, k) { PieceOfZeros(s, id, k); }
  }

  /** The one byte that is not zero starts no part. */
  lemma PieceOfZeros(s: nat, id: int, k: nat)
    requires s % LEN != 0 && LEN * k < s + 1
    ensures Piece(Zeros(s) + [1], id, k).data[0] == 0
  {
    var data := Zeros(s) + [1];
    assert LEN * k != s;
    assert Chunk(data, k)[0] == data[LEN * k] == 0;
  }

  lemma StrayFromBefore(first: int32, id: int)
    requires !Exact(first) && StartByte(first) < 0
    ensures ReadBytes(1, first, StrayLast(first)).Some?
    ensures Stray([0], id, first, StrayLast(first), Zeros(ReadBytes(1, first, StrayLast(first)).value))
  {
    var s, last := StartByte(first), StrayLast(first);
    StrayBefore(first);
    var data, junk := [0], Zeros(ReadBytes(1, first, last).value);
    FirstByte(Buffer(data, s, |junk|, junk), id, first, Total(|data|) - 1, 1);
    var f := RequestFrames(data, id, first, last, junk)[0];
    assert f.data[1] == 0;
    forall k: nat | LEN * k < |data| ensures f != Piece(data, id, k) {
      assert Piece(data, id, 0).data[1] == FILL;
    }
  }

  /** Outside `Exact` there is such a request. */
  lemma StrayRequest(first: int32, id: int) returns (data: seq<byte>, last: int32, junk: seq<byte>)
    requires !Exact(first)
    ensures Stray(data, id, first, last, junk)
  {
    last := StrayLast(first);
    if StartByte(first) >= 0 {
      StrayFromInside(first, id);
      data, junk := Zeros(StartByte(first)) + [1], [0];
    } else {
      StrayFromBefore(first, id);
      data, junk := [0], Zeros(ReadBytes(1, first, last).value);
    }
  }

  /** So a first frame is safe to ask for exactly when its number, modulo 2^26, is at most 11184810. */
  lemma OnlyPiecesIff(first: int32, id: int)
    ensures OnlyPieces(first, id) <==> first % 0x400_0000 <= 11184810
  {
    if Exact(first) {
      forall data: seq<byte>, last: int32, junk: seq<byte> |
        |data| < SIZE_T / 2 && Nameable(first, last) && Allocated(|data|, first, last, junk)
        ensures forall f | f in RequestFrames(data, id, first, last, junk) :: IsPiece(data, id, f)
      {
        forall f | f in RequestFrames(data, id, first, last, junk) ensures IsPiece(data, id, f) {
          var j: nat :| j < |RequestFrames(data, id, first, last, junk)| &&
            f == RequestFrames(data, id, first, last, junk)[j];
          RequestSendsPieces(data, id, first, last, junk, j);
        }
      }
    } else {
      var data, last, junk := StrayRequest(first, id);
    }
  }

  /**
   * A request for frames 22369622 to 22369623 of a file of 320 bytes: the offset is cut to 128, and the last
   * 192 bytes of the file go out as part 21846 of two.
   */
  lemma TruncatedStart(data: seq<byte>, id: int, junk: seq<byte>)
    requires |data| == 320 && |junk| == 192
    ensures Allocated(320, 22369622, 22369623, junk)
    ensures RequestFrames(data, id, 22369622, 22369623, junk) == [MakeFrame(data[128..320], id, 21846, 1, Part)]
    ensures !IsPiece(data, id, MakeFrame(data[128..320], id, 21846, 1, Part))
  {
    var first := 22369622;
    assert StartByte(first) == 128;
    assert AsSize(LEN) == LEN && AsSize(128 + LEN) == 320;
    assert ReadBytes(320, first, first + 1) == Some(192);
    assert Buffer(data, 128, 192, junk) == data[128..320];
    assert Total(320) == 2;
    var part := data[128..320];
    assert part[..Taken(part)] == part && part[Taken(part)..] == [];
    assert Frames(part, id, first, 1, Part) == [MakeFrame(part, id, first, 1, Part)];
    assert first % 65536 == 21846;
    forall k: nat | LEN * k < |data| ensures Piece(data, id, k).nframe < 2 {}
  }

  // ---------------------------------------------------------------- sending

  /** A frame some request with a right offset puts on the link. */
  ghost predicate Requested(data: seq<byte>, id: int, f: Frame)
    requires |data| < SIZE_T / 2
  {
    exists first: int32, last: int32, junk: seq<byte> ::
      Exact(first) && Nameable(first, last) && Allocated(|data|, first, last, junk) &&
      f in RequestFrames(data, id, first, last, junk)
  }

  /** Those requests send the parts of the file and nothing else. */
  lemma RequestedIff(data: seq<byte>, id: int, f: Frame)
    requires |data| < SIZE_T / 2
    ensures Requested(data, id, f) <==> IsPiece(data, id, f)
  {
    if Requested(data, id, f) {
      var first: int32, last: int32, junk: seq<byte> :|
        Exact(first) && Nameable(first, last) && Allocated(|data|, first, last, junk) &&
        f in RequestFrames(data, id, first, last, junk);
      var j: nat :| j < |RequestFrames(data, id, first, last, junk)| &&
        f == RequestFrames(data, id, first, last, junk)[j];
      RequestSendsPieces(data, id, first, last, junk, j);
    }
    if IsPiece(data, id, f) {
      var k: nat :| LEN * k < |data| && f == Piece(data, id, k);
      WholeRequest(data, id, k);
      assert Exact(0) && Nameable(0, -1);
    }
  }

  /** The byte count, in the statements of the source. */
  method SelectBytes(n: nat, first: int32, last: int32) returns (count: Option<nat>)
    ensures count == ReadBytes(n, first, last)
  {
    var startByte := AsInt(LEN * first);
    var readBytes := AsSize((last - first) * LEN);
    if last < 0 {
      readBytes := n;
    } else if AsSize(startByte + readBytes) > n {
      readBytes := AsSize(n - startByte);
    }
    if startByte > n || AsSize(startByte + readBytes) > n || readBytes >= SIZE_T / 2 {
      return None;
    }
    count := Some(readBytes);
  }

  /** tm_send_file_parts, from the file read onwards, over a link that takes `accepts` frames. */
  method SendParts(data: seq<byte>, id: int, first: int32, last: int32, junk: seq<byte>, accepts: nat)
    returns (ok: bool, sent: seq<Frame>)
    requires |data| < SIZE_T / 2 && Nameable(first, last) && Allocated(|data|, first, last, junk)
    ensures var all := RequestFrames(data, id, first, last, junk);
      sent == First(all, accepts) && (ok <==> all != [] && accepts >= |all|)
  {
    var count := SelectBytes(|data|, first, last);
    if count.None? {
      return false, [];
    }
    var start := AsInt(LEN * first);
    if start >= 0 { ReadInside(|data|, first, last); }
    var buffer := Buffer(data, start, count.value, junk);
    ok, sent := SendFileParts(buffer, id, first, Total(|data|) - 1, Part, accepts);
  }
}
