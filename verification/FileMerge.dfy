/**
 * Putting the parts of a file together, and reporting those that are not there: tm_merge_file of
 * src/system/cmdTM.c.
 */
module FileMerge {
  import opened Memory
  import opened Arithmetic
  import opened Options
  import opened FileFrames
  import opened FileReceiver
  import opened FileRequests
  import opened FileParts

  // ---------------------------------------------------------------- which parts the merge finds

  lemma {:induction false} DecGrows(k: nat, m: nat)
    requires k <= m
    ensures |Dec(k)| <= |Dec(m)|
  {
    if k >= 10 { DecGrows(k / 10, m / 10); }
  }

  /** `find -name "<id>_*.part"` sees part `k`. */
  predicate Visible(data: seq<byte>, id: uint16, k: nat)
    requires LEN * k < |data|
  {
    EndsInPart(PieceName(data, id, k))
  }

  /** The largest number a part of the file carries. */
  function Largest(data: seq<byte>): uint16
    requires data != []
  {
    if Total(|data|) <= 65536 then Total(|data|) - 1 else 65535
  }

  /** The id, the largest part number and that of the last part have at most 12 digits together. */
  predicate DigitsFit(data: seq<byte>, id: uint16)
    requires data != []
  {
    |Dec(id)| + |Dec(Largest(data))| + |Dec(LastNumber(data))| <= 12
  }

  lemma VisibleIff(data: seq<byte>, id: uint16, k: nat)
    requires LEN * k < |data|
    ensures Visible(data, id, k) <==> |Dec(id)| + |Dec(k % 65536)| + |Dec(LastNumber(data))| <= 12
  {
    SuffixKeptIff(id, k % 65536, LastNumber(data));
  }

  ghost predicate AllVisible(data: seq<byte>, id: uint16) {
    forall k: nat | LEN * k < |data| :: Visible(data, id, k)
  }

  lemma LargestIs(data: seq<byte>, k: nat)
    requires data != [] && LEN * k < |data|
    ensures LEN * Largest(data) < |data| && k % 65536 <= Largest(data)
  {
    TotalIs(|data|, k);
    TotalIs(|data|, Largest(data));
  }

  /** The merge sees every part exactly when the digits of the largest number fit. */
  lemma AllVisibleIff(data: seq<byte>, id: uint16)
    requires data != []
    ensures AllVisible(data, id) <==> DigitsFit(data, id)
  {
    LargestIs(data, 0);
    VisibleIff(data, id, Largest(data));
    forall k: nat | LEN * k < |data| ensures DigitsFit(data, id) ==> Visible(data, id, k) {
      LargestIs(data, k);
      VisibleIff(data, id, k);
      DecGrows(k % 65536, Largest(data));
    }
  }

  predicate InDir(name: Name) { |DIR| <= |name| && name[..|DIR|] == DIR }

  /** Named after the id, as the shell command looks for it. */
  predicate NamedAfter(name: Name, id: uint16) { InDir(name) && Dec(id) + [UNDERSCORE] <= name[|DIR|..] }

  /** Part number `x` of the id, as "%d_%d_%d" reads the name. */
  predicate ReadAs(name: Name, id: uint16, x: int) {
    InDir(name) && var s := Scan(name[|DIR|..]); s.Some? && s.value.id == id && s.value.frame == x
  }

  /** `name` is that of a part of the file. */
  ghost predicate OfPart(data: seq<byte>, id: uint16, name: Name) {
    exists k: nat :: LEN * k < |data| && name == PieceName(data, id, k)
  }

  /** The directory holds nothing but parts of the file under this id. */
  ghost predicate OnlyParts(r: Receiver, data: seq<byte>, id: uint16) {
    forall name | name in r.files && (NamedAfter(name, id) || exists x :: ReadAs(name, id, x)) :: OfPart(data, id, name)
  }

  /** What the shell command joins. */
  ghost predicate Selected(r: Receiver, id: uint16, name: Name) {
    name in r.files && NamedAfter(name, id) && EndsInPart(name)
  }

  lemma PartNamed(id: uint16, k: uint16, total: uint16)
    ensures NamedAfter(PartName(id, k, total), id)
  {
    var rest := NameParts(id, k, total);
    var head, tail := Dec(id) + [UNDERSCORE], Dec(k) + [UNDERSCORE] + Dec(total) + rest;
    assert PartName(id, k, total) == DIR + (head + tail);
    assert (DIR + (head + tail))[|DIR|..] == head + tail;
  }

  /** It joins exactly the visible ones among the files present. */
  lemma SelectedIff(r: Receiver, data: seq<byte>, id: uint16, k: nat)
    requires OnlyParts(r, data, id) && LEN * k < |data|
    ensures Selected(r, id, PieceName(data, id, k)) <==> PieceName(data, id, k) in r.files && Visible(data, id, k)
    ensures forall name | Selected(r, id, name) :: OfPart(data, id, name)
  {
    PartNamed(id, k % 65536, LastNumber(data));
  }

  // ---------------------------------------------------------------- what it joins

  /** How many files the parts go to. */
  function Files(data: seq<byte>): nat { if Total(|data|) <= 65536 then Total(|data|) else 65536 }

  /** What the file of part `k` adds: nothing if it is not found. */
  function Joined(r: Receiver, data: seq<byte>, id: uint16, k: nat): seq<byte>
    requires LEN * k < |data|
  {
    if Visible(data, id, k) then r.Content(PieceName(data, id, k)) else []
  }

  /** The first `n` of them. */
  function Pieces(r: Receiver, data: seq<byte>, id: uint16, n: nat): (parts: seq<seq<byte>>)
    requires n == 0 || LEN * (n - 1) < |data|
    ensures |parts| == n
  {
    if n == 0 then [] else Pieces(r, data, id, n - 1) + [Joined(r, data, id, n - 1)]
  }

  /** One after the other. */
  function Join(parts: seq<seq<byte>>): seq<byte> {
    if parts == [] then [] else Join(parts[..|parts| - 1]) + parts[|parts| - 1]
  }

  /** What the merge writes. */
  function Merged(r: Receiver, data: seq<byte>, id: uint16): seq<byte>
    requires data != []
  {
    FilesIs(data);
    Join(Pieces(r, data, id, Files(data)))
  }

  lemma {:induction false} PiecesAt(r: Receiver, data: seq<byte>, id: uint16, n: nat, i: nat)
    requires i < n && LEN * (n - 1) < |data|
    ensures LEN * i < |data| && Pieces(r, data, id, n)[i] == Joined(r, data, id, i)
  {
    if i < n - 1 { PiecesAt(r, data, id, n - 1, i); }
  }

  // ---------------------------------------------------------------- joining slices

  lemma PrefixGrows(data: seq<byte>, k: nat)
    requires LEN * k < |data|
    ensures data[..LEN * k] + Chunk(data, k) == data[..Min(LEN * (k + 1), |data|)]
  {
    var n := Min(LEN, |data| - LEN * k);
    assert LEN * k + n == Min(LEN * (k + 1), |data|);
    assert data[..LEN * k] + data[LEN * k..LEN * k + n] == data[..LEN * k + n];
  }

  /** Each of the parts is a slice of the file, or shorter than it. */
  ghost predicate SlicesOrShorter(data: seq<byte>, parts: seq<seq<byte>>) {
    forall i | 0 <= i < |parts| :: SliceOrShorter(data, i, parts[i])
  }

  predicate SliceOrShorter(data: seq<byte>, i: nat, part: seq<byte>) {
    LEN * i < |data| && (part == Chunk(data, i) || |part| < |Chunk(data, i)|)
  }

  ghost predicate AllSlices(data: seq<byte>, parts: seq<seq<byte>>) {
    forall i | 0 <= i < |parts| :: LEN * i < |data| && parts[i] == Chunk(data, i)
  }

  lemma JoinNext(data: seq<byte>, before: seq<byte>, whole: bool, k: nat, part: seq<byte>)
    requires SliceOrShorter(data, k, part) && if whole then before == data[..LEN * k] else |before| < LEN * k
    ensures if whole && part == Chunk(data, k) then before + part == data[..Min(LEN * (k + 1), |data|)]
      else |before + part| < Min(LEN * (k + 1), |data|)
  {
    PrefixGrows(data, k);
  }

  /** They add up to the beginning of the file if all are slices, and to fewer bytes otherwise. */
  lemma {:induction false} JoinIs(data: seq<byte>, parts: seq<seq<byte>>)
    requires SlicesOrShorter(data, parts)
    ensures var n := Min(LEN * |parts|, |data|);
      if AllSlices(data, parts) then Join(parts) == data[..n] else |Join(parts)| < n
  {
    if parts != [] {
      var k := |parts| - 1;
      var init := parts[..k];
      assert SliceOrShorter(data, k, parts[k]);
      assert forall i | 0 <= i < k :: init[i] == parts[i];
      JoinIs(data, init);
      JoinNext(data, Join(init), AllSlices(data, init), k, parts[k]);
      assert AllSlices(data, parts) <==> AllSlices(data, init) && parts[k] == Chunk(data, k);
    }
  }

  lemma {:induction false} JoinShort(parts: seq<seq<byte>>)
    requires forall i | 0 <= i < |parts| :: |parts[i]| <= LEN
    ensures |Join(parts)| <= LEN * |parts|
  {
    if parts != [] { JoinShort(parts[..|parts| - 1]); }
  }

  // ---------------------------------------------------------------- the merged file

  /** All parts of the file are present. */
  ghost predicate Complete(r: Receiver, data: seq<byte>, id: uint16) {
    forall m: nat | LEN * m < |data| :: PieceName(data, id, m) in r.files
  }

  /** Part `k` reaches the merge whole. */
  predicate Whole(data: seq<byte>, id: uint16, k: nat)
    requires LEN * k < |data|
  {
    Visible(data, id, k) && PieceContent(data, k) == Chunk(data, k)
  }

  lemma ContentIs(r: Receiver, data: seq<byte>, id: uint16, k: nat)
    requires PartsOk(r, data, id) && Complete(r, data, id) && LEN * k < |data|
    ensures r.Content(PieceName(data, id, k)) == PieceContent(data, k) <= Chunk(data, k)
  {
  }

  /** No part loses bytes to the removal of the fill. */
  ghost predicate AllKept(data: seq<byte>) {
    forall k: nat | LEN * k < |data| :: PieceContent(data, k) == Chunk(data, k)
  }

  /** Only the last part can lose bytes, and it does when the file ends in 0xAA. */
  lemma ContentsWholeIff(data: seq<byte>)
    requires data != []
    ensures AllKept(data) <==> data[|data| - 1] != FILL
  {
    var last := Total(|data|) - 1;
    TotalIs(|data|, last);
    StripPad(Chunk(data, last));
    assert Chunk(data, last)[|Chunk(data, last)| - 1] == data[|data| - 1];
    forall k: nat | LEN * k < |data| && k != last ensures PieceContent(data, k) == Chunk(data, k) {
      TotalIs(|data|, k);
    }
  }

  /** A part adds its slice exactly if it is whole, and fewer bytes otherwise. */
  lemma JoinedIs(r: Receiver, data: seq<byte>, id: uint16, k: nat)
    requires PartsOk(r, data, id) && Complete(r, data, id) && LEN * k < |data|
    ensures SliceOrShorter(data, k, Joined(r, data, id, k))
    ensures Joined(r, data, id, k) == Chunk(data, k) <==> Whole(data, id, k)
  {
    ContentIs(r, data, id, k);
  }

  lemma PieceJoins(r: Receiver, data: seq<byte>, id: uint16, n: nat, i: nat)
    requires PartsOk(r, data, id) && Complete(r, data, id) && i < n && LEN * (n - 1) < |data|
    ensures SliceOrShorter(data, i, Pieces(r, data, id, n)[i])
    ensures Pieces(r, data, id, n)[i] == Chunk(data, i) <==> Whole(data, id, i)
  {
    PiecesAt(r, data, id, n, i);
    JoinedIs(r, data, id, i);
  }

  /** With all parts there, the merge gives the file back exactly when all are visible and none loses bytes. */
  lemma MergedIff(r: Receiver, data: seq<byte>, id: uint16)
    requires data != [] && Bounded(data) && PartsOk(r, data, id) && Complete(r, data, id)
    ensures Merged(r, data, id) == data <==> AllVisible(data, id) && AllKept(data)
  {
    var n := Files(data);
    FilesIs(data);
    var parts := Pieces(r, data, id, n);
    forall i | 0 <= i < n
      ensures SliceOrShorter(data, i, parts[i]) && (parts[i] == Chunk(data, i) <==> Whole(data, id, i))
    {
      PieceJoins(r, data, id, n, i);
    }
    JoinIs(data, parts);
    assert Min(LEN * n, |data|) == |data| && data[..|data|] == data;
    AllSlicesIff(data, id, parts);
  }

  lemma AllSlicesIff(data: seq<byte>, id: uint16, parts: seq<seq<byte>>)
    requires data != [] && |data| <= LEN * |parts| && LEN * (|parts| - 1) < |data|
    requires forall i | 0 <= i < |parts| :: LEN * i < |data| && (parts[i] == Chunk(data, i) <==> Whole(data, id, i))
    ensures AllSlices(data, parts) <==> AllVisible(data, id) && AllKept(data)
  {
    if AllSlices(data, parts) {
      forall k: nat | LEN * k < |data| ensures Whole(data, id, k) { assert k < |parts|; }
    }
  }

  lemma FilesIs(data: seq<byte>)
    requires data != []
    ensures Files(data) > 0 && LEN * (Files(data) - 1) < |data|
    ensures Bounded(data) <==> |data| <= LEN * Files(data)
  {
    TotalIs(|data|, Files(data) - 1);
    TotalIs(|data|, Files(data));
    TotalIs(|data|, 65536);
  }

  /** However long the file is, its files hold at most a slice each. */
  lemma MergedShort(r: Receiver, data: seq<byte>, id: uint16)
    requires data != [] && PartsFrom(r, data, id) && Complete(r, data, id)
    ensures |Merged(r, data, id)| <= LEN * Files(data)
  {
    FilesIs(data);
    var n := Files(data);
    forall i | 0 <= i < n ensures |Pieces(r, data, id, n)[i]| <= LEN {
      PiecesAt(r, data, id, n, i);
      JoinedShort(r, data, id, i);
    }
    JoinShort(Pieces(r, data, id, n));
  }

  lemma JoinedShort(r: Receiver, data: seq<byte>, id: uint16, k: nat)
    requires PartsFrom(r, data, id) && Complete(r, data, id) && LEN * k < |data|
    ensures |Joined(r, data, id, k)| <= LEN
  {
    FromPartShort(data, id, k, r.files[PieceName(data, id, k)]);
  }

  lemma FromPartShort(data: seq<byte>, id: uint16, k: nat, bytes: seq<byte>)
    requires FromPart(data, id, k, bytes)
    ensures |bytes| <= LEN
  {
    var m: nat :| LEN * m < |data| && m % 65536 == k % 65536 && bytes == Useful(Piece(data, id, m));
    PieceUseful(data, id, m);
  }

  /** Every part was there before or has arrived. */
  ghost predicate AllArrived(r: Receiver, data: seq<byte>, id: uint16, arriving: seq<Frame>) {
    forall k: nat | LEN * k < |data| :: PieceName(data, id, k) in r.files || Piece(data, id, k) in arriving
  }

  lemma ArrivedComplete(r: Receiver, data: seq<byte>, id: uint16, arriving: seq<Frame>)
    requires PartsFrom(r, data, id) && AllPieces(data, id, arriving) && AllArrived(r, data, id, arriving)
    ensures PartsFrom(Deliver(r, arriving), data, id) && Complete(Deliver(r, arriving), data, id)
  {
    ResendKeeps(r, data, id, arriving);
    forall k: nat | LEN * k < |data| ensures PieceName(data, id, k) in Deliver(r, arriving).files {
      PieceFields(data, id, k);
      if Piece(data, id, k) in arriving { assert NameOf(Piece(data, id, k)) in Names(arriving); }
    }
  }

  /**
   * Once every part has arrived, the merge gives the file back, if and only if the file has at most 65536 parts,
   * does not end in 0xAA, and the digits of its last part's name fit.
   */
  lemma MergeGivesFileIff(r: Receiver, data: seq<byte>, id: uint16, arriving: seq<Frame>)
    requires data != [] && PartsFrom(r, data, id) && AllPieces(data, id, arriving) && AllArrived(r, data, id, arriving)
    ensures Merged(Deliver(r, arriving), data, id) == data <==>
      |data| <= LEN * 65536 && data[|data| - 1] != FILL && DigitsFit(data, id)
  {
    var end := Deliver(r, arriving);
    FilesIs(data);
    ArrivedComplete(r, data, id, arriving);
    if Bounded(data) {
      PartsOkIff(end, data, id);
      MergedIff(end, data, id);
      AllVisibleIff(data, id);
      ContentsWholeIff(data);
    } else {
      MergedShort(end, data, id);
    }
  }

  // ---------------------------------------------------------------- reading numbers from names

  predicate Digit(b: byte) { 48 <= b <= 57 }

  function LeadDigits(s: Name): (r: Name)
    ensures r <= s
  {
    if s == [] || !Digit(s[0]) then [] else [s[0]] + LeadDigits(s[1..])
  }

  lemma {:induction false} LeadDigitsOf(s: Name, rest: Name)
    requires (forall b | b in s :: Digit(b)) && (rest == [] || !Digit(rest[0]))
    ensures LeadDigits(s + rest) == s
  {
    if s == [] {
      assert s + rest == rest;
    } else {
      assert (s + rest)[1..] == s[1..] + rest;
      LeadDigitsOf(s[1..], rest);
    }
  }

  datatype Numbers = Numbers(id: int, frame: int, max: int)

  /** A number and, if an underscore follows it, the rest. */
  function ScanNumber(s: Name): (r: Option<(int, Name)>) {
    var d := LeadDigits(s);
    if d == [] || |d| == |s| || s[|d|] != UNDERSCORE then None else Some((Undec(d), s[|d| + 1..]))
  }

  /** sscanf with "%d_%d_%d.part" returns 3: what follows the third number does not matter. */
  function Scan(s: Name): Option<Numbers> {
    var a := ScanNumber(s);
    if a.None? then None else
      var b := ScanNumber(a.value.1);
      if b.None? then None else
        var d := LeadDigits(b.value.1);
        if d == [] then None else Some(Numbers(a.value.0, b.value.0, Undec(d)))
  }

  lemma ScanNumberOf(n: nat, rest: Name)
    ensures ScanNumber(Dec(n) + ([UNDERSCORE] + rest)) == Some((n as int, rest))
  {
    var s := Dec(n) + ([UNDERSCORE] + rest);
    LeadDigitsOf(Dec(n), [UNDERSCORE] + rest);
    DecRoundTrip(n);
    assert s[|Dec(n)| + 1..] == rest;
  }

  /** The 31-byte buffer never cuts the numbers themselves. */
  lemma NameParts(id: uint16, k: uint16, total: uint16) returns (rest: Name)
    ensures PartName(id, k, total) == DIR + Dec(id) + [UNDERSCORE] + Dec(k) + [UNDERSCORE] + Dec(total) + rest
    ensures rest <= SUFFIX
  {
    DecShort(id);
    DecShort(k);
    DecShort(total);
    var stem := DIR + Dec(id) + [UNDERSCORE] + Dec(k) + [UNDERSCORE] + Dec(total);
    var full := FullPartName(id, k, total);
    assert full == stem + SUFFIX;
    var m := Min(PART_NAME_MAX, |full|);
    rest := SUFFIX[..m - |stem|];
    assert full[..m] == stem + rest;
  }

  /** So a part's numbers are read back from its name, cut or not. */
  lemma ScanPart(id: uint16, k: uint16, total: uint16)
    ensures |DIR| <= |PartName(id, k, total)| && PartName(id, k, total)[..|DIR|] == DIR
    ensures Scan(PartName(id, k, total)[|DIR|..]) == Some(Numbers(id, k, total))
  {
    var rest := NameParts(id, k, total);
    var third := Dec(total) + rest;
    var second := Dec(k) + ([UNDERSCORE] + third);
    var first := Dec(id) + ([UNDERSCORE] + second);
    assert PartName(id, k, total) == DIR + first;
    ScanNumberOf(id, second);
    ScanNumberOf(k, third);
    LeadDigitsOf(Dec(total), rest);
    DecRoundTrip(total);
  }

  // ---------------------------------------------------------------- the report

  /** The merge reads the number `x` from the name of some file of this id. */
  ghost predicate Finds(r: Receiver, id: uint16, x: int) {
    exists name :: name in r.files && ReadAs(name, id, x)
  }

  lemma PieceReadAs(data: seq<byte>, id: uint16, k: nat, x: int)
    requires LEN * k < |data|
    ensures ReadAs(PieceName(data, id, k), id, x) <==> x == k % 65536
  {
    ScanPart(id, k % 65536, LastNumber(data));
  }

  /** Part `k` goes to the file of the part whose number it carries. */
  lemma NumberedFile(data: seq<byte>, id: uint16, k: nat)
    requires LEN * k < |data|
    ensures LEN * (k % 65536) < |data| && PieceName(data, id, k % 65536) == PieceName(data, id, k)
  {
  }

  lemma FoundIsPresent(r: Receiver, data: seq<byte>, id: uint16, x: int, name: Name)
    requires OnlyParts(r, data, id) && name in r.files && ReadAs(name, id, x)
    ensures 0 <= x < 65536 && LEN * x < |data| && PieceName(data, id, x) in r.files
  {
    assert OfPart(data, id, name);
    var k: nat :| LEN * k < |data| && name == PieceName(data, id, k);
    PieceReadAs(data, id, k, x);
    NumberedFile(data, id, k);
  }

  lemma PresentIsFound(r: Receiver, data: seq<byte>, id: uint16, x: nat)
    requires x < 65536 && LEN * x < |data| && PieceName(data, id, x) in r.files
    ensures Finds(r, id, x)
  {
    PieceReadAs(data, id, x, x);
    assert x % 65536 == x;
  }

  /** It finds exactly the files that are present, also those whose name was cut. */
  lemma FindsIff(r: Receiver, data: seq<byte>, id: uint16, x: int)
    requires OnlyParts(r, data, id)
    ensures Finds(r, id, x) <==> 0 <= x < 65536 && LEN * x < |data| && PieceName(data, id, x) in r.files
  {
    if Finds(r, id, x) {
      var name :| name in r.files && ReadAs(name, id, x);
      FoundIsPresent(r, data, id, x, name);
    } else if 0 <= x < 65536 && LEN * x < |data| && PieceName(data, id, x) in r.files {
      PresentIsFound(r, data, id, x);
    }
  }

  predicate Ascending(s: seq<int>) {
    forall i, j | 0 <= i < j < |s| :: s[i] < s[j]
  }

  lemma AscendingAppend(s: seq<int>, x: int)
    requires Ascending(s) && forall y | y in s :: y < x
    ensures Ascending(s + [x])
  {
    forall i | 0 <= i < |s| ensures s[i] < x { assert s[i] in s; }
  }

  /** The last number the merge looks at: the one the names carry, or one found beyond it. */
  function Reach(found: seq<int>, max: int): int
    requires found != []
  {
    if found[|found| - 1] > max then found[|found| - 1] else max
  }

  /**
   * The two loops of tm_merge_file over the part numbers found, in version order, and the total the last
   * name carries: they report exactly the numbers that are absent, in order, and stop.  If no part is found
   * at all nothing is reported.
   */
  method ReportMissing(found: seq<int>, max: int) returns (missing: seq<int>)
    requires Ascending(found) && forall x | x in found :: 0 <= x
    ensures found != [] ==> forall x :: x in missing <==> 0 <= x <= Reach(found, max) && x !in found
    ensures found == [] ==> missing == []
    ensures Ascending(missing)
  {
    missing := [];
    if found == [] { return; }
    var last := -1;
    assert found[0] in found;
    for i := 0 to |found|
      invariant -1 <= last && (i > 0 ==> last == found[i - 1]) && (i == 0 ==> last == -1)
      invariant forall x :: x in missing <==> 0 <= x <= last && x !in found
      invariant Ascending(missing)
    {
      assert found[i] in found;
      last := last + 1;
      while last != found[i]
        invariant (if i == 0 then -1 else found[i - 1]) < last <= found[i]
        invariant forall x :: x in missing <==> 0 <= x < last && x !in found
        invariant Ascending(missing)
        decreases found[i] - last
      {
        assert last !in found by {
          forall j | 0 <= j < |found| ensures found[j] != last {}
        }
        AscendingAppend(missing, last);
        missing := missing + [last];
        last := last + 1;
      }
    }
    while last < max
      invariant found[|found| - 1] <= last <= Reach(found, max)
      invariant forall x :: x in missing <==> 0 <= x <= last && x !in found
      invariant Ascending(missing)
      decreases max - last
    {
      last := last + 1;
      assert last !in found by {
        forall j | 0 <= j < |found| ensures found[j] != last {}
      }
      AscendingAppend(missing, last);
      missing := missing + [last];
    }
  }

  /**
   * The report of tm_merge_file on a receiver that holds nothing else under this id: `found` lists the numbers
   * read from the names.  Unless there is no part at all, it reports exactly the files that are absent, up to
   * the last number; in a file of at most 65536 parts, exactly the absent parts.
   */
  method ReportAbsent(ghost r: Receiver, ghost data: seq<byte>, ghost id: uint16, found: seq<int>, max: int)
    returns (missing: seq<int>)
    requires data != [] && OnlyParts(r, data, id) && max == LastNumber(data)
    requires Ascending(found) && forall x :: x in found <==> Finds(r, id, x)
    ensures found != [] ==> forall x: nat | LEN * x < |data| && x < 65536 ::
      x in missing <==> x <= Reach(found, max) && PieceName(data, id, x) !in r.files
    ensures found != [] && Bounded(data) ==>
      forall x: nat :: x in missing <==> LEN * x < |data| && PieceName(data, id, x) !in r.files
    ensures found == [] ==> missing == []
    ensures Ascending(missing)
  {
    forall x ensures x in found <==> 0 <= x < 65536 && LEN * x < |data| && PieceName(data, id, x) in r.files {
      FindsIff(r, data, id, x);
    }
    missing := ReportMissing(found, max);
    if found != [] && Bounded(data) { ReachIs(data, found, max); }
  }

  /** With numbers that are not cut, the last number is that of the last part. */
  lemma ReachIs(data: seq<byte>, found: seq<int>, max: int)
    requires data != [] && Bounded(data) && max == LastNumber(data) && found != []
    requires forall x | x in found :: 0 <= x && LEN * x < |data|
    ensures forall x: nat :: x <= Reach(found, max) <==> LEN * x < |data|
  {
    assert found[|found| - 1] in found;
    TotalIs(|data|, 65536);
    TotalIs(|data|, found[|found| - 1]);
    forall x: nat ensures x <= Reach(found, max) <==> LEN * x < |data| { TotalIs(|data|, x); }
  }
}
