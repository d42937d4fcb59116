/** Selective resend at the receiver: the PART frames of tm_parse_file in src/system/cmdTM.c. */
module FileParts {
  import opened Memory
  import opened Arithmetic
  import opened Options
  import opened FileFrames
  import opened FileReceiver
  import opened FileRequests

  // ---------------------------------------------------------------- names

  /** The bytes before the first `sep`. */
  function Before(s: Name, sep: byte): Name {
    if s == [] || s[0] == sep then [] else [s[0]] + Before(s[1..], sep)
  }

  lemma {:induction false} BeforeOf(s: Name, rest: Name, sep: byte)
    requires sep !in s && rest != [] && rest[0] == sep
    ensures Before(s + rest, sep) == s
  {
    if s == [] {
      assert s + rest == rest;
    } else {
      assert (s + rest)[1..] == s[1..] + rest;
      BeforeOf(s[1..], rest, sep);
    }
  }

  function Undec(s: Name): int {
    if s == [] then 0 else 10 * Undec(s[..|s| - 1]) + ((s[|s| - 1] as int) - 48)
  }

  lemma {:induction false} DecRoundTrip(n: nat)
    ensures Undec(Dec(n)) == n
  {
    if n >= 10 {
      DecRoundTrip(n / 10);
      assert Dec(n)[..|Dec(n)| - 1] == Dec(n / 10);
    } else {
      assert Dec(n)[..0] == [];
    }
  }

  lemma DecShort(n: nat)
    requires n < 65536
    ensures |Dec(n)| <= 5
  {
    assert n >= 10 ==> |Dec(n)| == |Dec(n / 10)| + 1;
    assert n >= 100 ==> |Dec(n / 10)| == |Dec(n / 100)| + 1 by { assert n / 10 / 10 == n / 100; }
    assert n >= 1000 ==> |Dec(n / 100)| == |Dec(n / 1000)| + 1 by { assert n / 100 / 10 == n / 1000; }
    assert n >= 10000 ==> |Dec(n / 1000)| == |Dec(n / 10000)| + 1 by { assert n / 1000 / 10 == n / 10000; }
    assert n / 10000 < 10;
  }

  /** What follows the directory and the id in a part's name. */
  lemma NameShape(id: uint16, k: uint16, total: uint16) returns (rest: Name)
    ensures var lead := DIR + Dec(id) + [UNDERSCORE];
      |lead| <= |PartName(id, k, total)| && PartName(id, k, total)[|lead|..] == Dec(k) + rest
    ensures rest != [] && rest[0] == UNDERSCORE
  {
    DecShort(id);
    DecShort(k);
    var lead := DIR + Dec(id) + [UNDERSCORE];
    var full := FullPartName(id, k, total);
    var tail := [UNDERSCORE] + Dec(total) + SUFFIX;
    var m := Min(PART_NAME_MAX, |full|);
    assert full == lead + (Dec(k) + tail);
    rest := tail[..m - |lead| - |Dec(k)|];
    assert full[..m][|lead|..] == full[|lead|..][..m - |lead|];
    assert full[|lead|..] == Dec(k) + tail;
    assert (Dec(k) + tail)[..m - |lead|] == Dec(k) + rest;
  }

  /** Cut or not, the names of different parts of a file are different. */
  lemma NamesDiffer(id: uint16, k: uint16, m: uint16, total: uint16)
    requires k != m
    ensures PartName(id, k, total) != PartName(id, m, total)
  {
    var restK := NameShape(id, k, total);
    var restM := NameShape(id, m, total);
    BeforeOf(Dec(k), restK, UNDERSCORE);
    BeforeOf(Dec(m), restM, UNDERSCORE);
    DecRoundTrip(k);
    DecRoundTrip(m);
  }

  /** The merge looks for names ending in ".part". */
  predicate EndsInPart(name: Name) {
    |name| >= |SUFFIX| && name[|name| - |SUFFIX|..] == SUFFIX
  }

  /** The 31-byte buffer keeps the suffix exactly when the three numbers have at most 12 digits together. */
  lemma SuffixKeptIff(id: uint16, k: uint16, total: uint16)
    ensures EndsInPart(PartName(id, k, total)) <==> |Dec(id)| + |Dec(k)| + |Dec(total)| <= 12
  {
    var full := FullPartName(id, k, total);
    var stem := DIR + Dec(id) + [UNDERSCORE] + Dec(k) + [UNDERSCORE] + Dec(total);
    assert full == stem + SUFFIX;
    var name := PartName(id, k, total);
    if |full| <= PART_NAME_MAX {
      assert name == full && name[|name| - |SUFFIX|..] == SUFFIX;
    } else {
      assert name[PART_NAME_MAX - |SUFFIX|] == stem[PART_NAME_MAX - |SUFFIX|];
      assert stem[PART_NAME_MAX - |SUFFIX|] in stem && DOT !in stem;
    }
  }

  // ---------------------------------------------------------------- convergence

  /** The file a PART frame writes. */
  function NameOf(f: Frame): Name { PartName(f.fileid, f.nframe, f.total) }

  /** The number of the last part, as frames and names carry it. */
  function LastNumber(data: seq<byte>): uint16
    requires data != []
  {
    (Total(|data|) - 1) % 65536
  }

  /** The file part `k` goes to: its number, too, is cut to 16 bits. */
  function PieceName(data: seq<byte>, id: uint16, k: nat): Name
    requires LEN * k < |data|
  {
    PartName(id, k % 65536, LastNumber(data))
  }

  lemma PieceFields(data: seq<byte>, id: uint16, k: nat)
    requires LEN * k < |data|
    ensures var f := Piece(data, id, k);
      f.kind.Part? && f.nframe == k % 65536 && f.fileid == id && f.total == LastNumber(data) &&
      NameOf(f) == PieceName(data, id, k)
  {
  }

  lemma SameNameIff(data: seq<byte>, id: uint16, k: nat, m: nat)
    requires LEN * k < |data| && LEN * m < |data|
    ensures PieceName(data, id, k) == PieceName(data, id, m) <==> k % 65536 == m % 65536
  {
    if k % 65536 != m % 65536 { NamesDiffer(id, k % 65536, m % 65536, LastNumber(data)); }
  }

  /** Exactly then have all parts of a file different names; beyond, parts 0 and 65536 share one. */
  lemma NamesDifferIff(data: seq<byte>, id: uint16)
    ensures (forall k: nat, m: nat | LEN * k < |data| && LEN * m < |data| && k != m ::
        PieceName(data, id, k) != PieceName(data, id, m)) <==> Bounded(data)
  {
    if Bounded(data) {
      forall k: nat, m: nat | LEN * k < |data| && LEN * m < |data| && k != m
        ensures PieceName(data, id, k) != PieceName(data, id, m)
      {
        DifferentParts(|data|, k, m);
        SameNameIff(data, id, k, m);
      }
    } else {
      SameNameIff(data, id, 0, 65536);
    }
  }

  lemma DifferentParts(n: nat, k: nat, m: nat)
    requires LEN * k < n && LEN * m < n && n <= LEN * 65536 && k != m
    ensures k % 65536 != m % 65536
  {
  }

  /** What part `k` should hold: its slice; the last one without the 0xAA bytes it ends with. */
  function PieceContent(data: seq<byte>, k: nat): seq<byte>
    requires LEN * k < |data|
  {
    if LEN * (k + 1) >= |data| then Strip(Chunk(data, k)) else Chunk(data, k)
  }

  lemma LastPieceIff(data: seq<byte>, id: uint16, k: nat)
    requires LEN * k < |data| && Bounded(data)
    ensures var f := Piece(data, id, k); f.nframe == f.total <==> LEN * (k + 1) >= |data|
  {
    PieceFields(data, id, k);
    TotalIs(|data|, 65536);
    TotalIs(|data|, k);
  }

  lemma PaddedContent(data: seq<byte>, k: nat)
    requires LEN * k < |data|
    ensures PieceContent(data, k) == if LEN * (k + 1) >= |data| then Strip(Pad(Chunk(data, k))) else Pad(Chunk(data, k))
  {
    StripPad(Chunk(data, k));
    if LEN * (k + 1) < |data| { assert Pad(Chunk(data, k)) == Chunk(data, k); }
  }

  /** What its frame writes is that, if the numbers are not cut. */
  lemma PieceUseful(data: seq<byte>, id: uint16, k: nat)
    requires LEN * k < |data|
    ensures |Useful(Piece(data, id, k))| <= LEN
    ensures Bounded(data) ==> Useful(Piece(data, id, k)) == PieceContent(data, k)
  {
    PieceFields(data, id, k);
    if Bounded(data) {
      LastPieceIff(data, id, k);
      PaddedContent(data, k);
    }
  }

  lemma ParsePiece(r: Receiver, data: seq<byte>, id: uint16, k: nat)
    requires LEN * k < |data|
    ensures Parse(r, Piece(data, id, k)) ==
      (Receiver(None, 0, 0, r.files[PieceName(data, id, k) := Useful(Piece(data, id, k))]), true)
  {
    var f := Piece(data, id, k);
    PieceFields(data, id, k);
    assert [] + Useful(f) == Useful(f);
    assert InSequence(Open(r, f), f);
  }

  // ---------------------------------------------------------------- convergence

  /** Every part of the file that is present holds its slice. */
  ghost predicate PartsOk(r: Receiver, data: seq<byte>, id: uint16) {
    forall k: nat | LEN * k < |data| && PieceName(data, id, k) in r.files ::
      r.files[PieceName(data, id, k)] == PieceContent(data, k)
  }

  /** `bytes` is what the frame of some part writes that goes to the same file as part `k`. */
  ghost predicate FromPart(data: seq<byte>, id: uint16, k: nat, bytes: seq<byte>) {
    exists m: nat :: LEN * m < |data| && m % 65536 == k % 65536 && bytes == Useful(Piece(data, id, m))
  }

  /** Every such file holds the bytes of one of the parts that go to it. */
  ghost predicate PartsFrom(r: Receiver, data: seq<byte>, id: uint16) {
    forall k: nat | LEN * k < |data| && PieceName(data, id, k) in r.files ::
      FromPart(data, id, k, r.files[PieceName(data, id, k)])
  }

  lemma FromPartIff(data: seq<byte>, id: uint16, k: nat, bytes: seq<byte>)
    requires LEN * k < |data| && Bounded(data)
    ensures FromPart(data, id, k, bytes) <==> bytes == PieceContent(data, k)
  {
    PieceUseful(data, id, k);
    if FromPart(data, id, k, bytes) {
      var m: nat :| LEN * m < |data| && m % 65536 == k % 65536 && bytes == Useful(Piece(data, id, m));
      SamePart(|data|, k, m);
    }
  }

  lemma SamePart(n: nat, k: nat, m: nat)
    requires LEN * k < n && LEN * m < n && n <= LEN * 65536 && m % 65536 == k % 65536
    ensures m == k
  {
    if m != k { DifferentParts(n, k, m); }
  }

  /** With numbers that are not cut the two are the same. */
  lemma PartsOkIff(r: Receiver, data: seq<byte>, id: uint16)
    requires Bounded(data)
    ensures PartsOk(r, data, id) <==> PartsFrom(r, data, id)
  {
    forall k: nat | LEN * k < |data| && PieceName(data, id, k) in r.files
      ensures FromPart(data, id, k, r.files[PieceName(data, id, k)]) <==>
        r.files[PieceName(data, id, k)] == PieceContent(data, k)
    {
      FromPartIff(data, id, k, r.files[PieceName(data, id, k)]);
    }
  }

  lemma PieceKeepsFrom(r: Receiver, data: seq<byte>, id: uint16, k: nat)
    requires LEN * k < |data| && PartsFrom(r, data, id)
    ensures PartsFrom(Parse(r, Piece(data, id, k)).0, data, id)
  {
    ParsePiece(r, data, id, k);
    var r' := Parse(r, Piece(data, id, k)).0;
    forall m: nat | LEN * m < |data| && PieceName(data, id, m) in r'.files
      ensures FromPart(data, id, m, r'.files[PieceName(data, id, m)])
    {
      SameNameIff(data, id, m, k);
    }
  }

  lemma OneArrives(r: Receiver, data: seq<byte>, id: uint16, f: Frame)
    requires PartsFrom(r, data, id) && IsPiece(data, id, f)
    ensures PartsFrom(Parse(r, f).0, data, id) && Parse(r, f).0.files.Keys == r.files.Keys + {NameOf(f)}
  {
    var k: nat :| LEN * k < |data| && f == Piece(data, id, k);
    PieceKeepsFrom(r, data, id, k);
    ParsePiece(r, data, id, k);
    PieceFields(data, id, k);
  }

  function Names(frames: seq<Frame>): set<Name> { set f | f in frames :: NameOf(f) }

  lemma NamesFirst(frames: seq<Frame>)
    requires frames != []
    ensures Names(frames) == {NameOf(frames[0])} + Names(frames[1..])
  {
    assert frames == [frames[0]] + frames[1..];
  }

  ghost predicate AllPieces(data: seq<byte>, id: uint16, arriving: seq<Frame>) {
    forall f | f in arriving :: IsPiece(data, id, f)
  }

  /**
   * Selective resend, for files of any length.  Whatever requests were made, and however their frames were
   * lost, repeated or reordered, a file that is present holds the bytes of a part that goes to it, and the
   * files present are those that were there before plus those of the frames that arrived.
   */
  lemma {:induction false} ResendKeeps(r: Receiver, data: seq<byte>, id: uint16, arriving: seq<Frame>)
    requires PartsFrom(r, data, id) && AllPieces(data, id, arriving)
    ensures PartsFrom(Deliver(r, arriving), data, id)
    ensures Deliver(r, arriving).files.Keys == r.files.Keys + Names(arriving)
    decreases |arriving|
  {
    if arriving != [] {
      OneArrives(r, data, id, arriving[0]);
      ResendKeeps(Parse(r, arriving[0]).0, data, id, arriving[1..]);
      NamesFirst(arriving);
    }
  }

  /** For every file of `n` bytes, a part that is present always holds its slice. */
  ghost predicate Converges(n: nat) {
    forall r: Receiver, data: seq<byte>, id: uint16, arriving: seq<Frame> |
      |data| == n && PartsOk(r, data, id) && AllPieces(data, id, arriving) :: PartsOk(Deliver(r, arriving), data, id)
  }

  /** Part 65536 overwrites part 0. */
  lemma PartOverwrites(data: seq<byte>, id: uint16)
    requires !Bounded(data) && data[LEN * 65536] == 1 && data[0] == 0
    ensures !PartsOk(Deliver(Receiver(None, 0, 0, map[]), [Piece(data, id, 65536)]), data, id)
  {
    var r, f := Receiver(None, 0, 0, map[]), Piece(data, id, 65536);
    ParsePiece(r, data, id, 65536);
    SameNameIff(data, id, 0, 65536);
    assert [f][1..] == [] && Deliver(r, [f]) == Parse(r, f).0;
    assert f.data[0] == Chunk(data, 65536)[0] == 1;
    assert Useful(f)[0] == 1;
    assert PieceContent(data, 0)[0] == Chunk(data, 0)[0] == 0;
  }

  /** Selective resend converges, exactly for files of at most 65536 parts. */
  lemma ConvergesIff(n: nat)
    ensures Converges(n) <==> n <= LEN * 65536
  {
    if n <= LEN * 65536 {
      forall r: Receiver, data: seq<byte>, id: uint16, arriving: seq<Frame> |
        |data| == n && PartsOk(r, data, id) && AllPieces(data, id, arriving)
        ensures PartsOk(Deliver(r, arriving), data, id)
      {
        ResendConverges(r, data, id, arriving);
      }
    } else {
      var r, data := Receiver(None, 0, 0, map[]), Marked(n);
      PartOverwrites(data, 0);
      assert PartsOk(r, data, 0) && AllPieces(data, 0, [Piece(data, 0, 65536)]);
    }
  }

  /** With numbers that are not cut, a part that is present holds its slice. */
  lemma ResendConverges(r: Receiver, data: seq<byte>, id: uint16, arriving: seq<Frame>)
    requires Bounded(data) && PartsOk(r, data, id) && AllPieces(data, id, arriving)
    ensures PartsOk(Deliver(r, arriving), data, id)
  {
    PartsOkIff(r, data, id);
    ResendKeeps(r, data, id, arriving);
    PartsOkIff(Deliver(r, arriving), data, id);
  }

  /** A frame of a part that goes to the same file as part `k`. */
  ghost predicate SharesFile(data: seq<byte>, id: uint16, k: nat, f: Frame) {
    exists m: nat :: LEN * m < |data| && m % 65536 == k % 65536 && f == Piece(data, id, m)
  }

  /** The file of part `k` is there at the end exactly when it was there before or a frame for it arrived. */
  lemma PresentIff(r: Receiver, data: seq<byte>, id: uint16, arriving: seq<Frame>, k: nat)
    requires PartsFrom(r, data, id) && AllPieces(data, id, arriving) && LEN * k < |data|
    ensures PieceName(data, id, k) in Deliver(r, arriving).files <==>
      PieceName(data, id, k) in r.files || exists f :: f in arriving && SharesFile(data, id, k, f)
  {
    ResendKeeps(r, data, id, arriving);
    var name := PieceName(data, id, k);
    if name in Names(arriving) {
      var f :| f in arriving && NameOf(f) == name;
      SharesFileIff(data, id, k, f);
    }
    if f :| f in arriving && SharesFile(data, id, k, f) {
      SharesFileIff(data, id, k, f);
      assert NameOf(f) in Names(arriving);
    }
  }

  /** With numbers that are not cut, only its own frame is for it. */
  lemma OwnFileIff(data: seq<byte>, id: uint16, k: nat, f: Frame)
    requires LEN * k < |data| && Bounded(data)
    ensures SharesFile(data, id, k, f) <==> f == Piece(data, id, k)
  {
    if SharesFile(data, id, k, f) {
      var m: nat :| LEN * m < |data| && m % 65536 == k % 65536 && f == Piece(data, id, m);
      SamePart(|data|, k, m);
    }
  }

  lemma SharesFileIff(data: seq<byte>, id: uint16, k: nat, f: Frame)
    requires LEN * k < |data| && IsPiece(data, id, f)
    ensures NameOf(f) == PieceName(data, id, k) <==> SharesFile(data, id, k, f)
  {
    var m: nat :| LEN * m < |data| && f == Piece(data, id, m);
    NameShared(data, id, k, m);
  }

  lemma NameShared(data: seq<byte>, id: uint16, k: nat, m: nat)
    requires LEN * k < |data| && LEN * m < |data|
    ensures NameOf(Piece(data, id, m)) == PieceName(data, id, k) <==> SharesFile(data, id, k, Piece(data, id, m))
  {
    var f := Piece(data, id, m);
    PieceFields(data, id, m);
    SameNameIff(data, id, k, m);
    if SharesFile(data, id, k, f) {
      var j: nat :| LEN * j < |data| && j % 65536 == k % 65536 && f == Piece(data, id, j);
      PieceFields(data, id, j);
    }
  }
}
