/**
 * What a payload store is for: a map from (payload, index) to sample.  The two backends place samples
 * in a byte-addressed memory; here is what any placement must satisfy, and what it then gives.
 */
module PayloadMap {
  import opened Memory
  import opened Arithmetic

  datatype Key = Key(payload: nat, index: nat)
  datatype Place = Place(addr: nat, size: nat)
  datatype Write = Write(key: Key, data: seq<byte>)

  /** Where the samples go. */
  type Layout = imap<Key, Place>

  predicate Disjoint(a: Place, b: Place) {
    a.addr + a.size <= b.addr || b.addr + b.size <= a.addr
  }

  ghost predicate Fits(l: Layout, n: nat) {
    forall k | k in l :: l[k].addr + l[k].size <= n
  }

  ghost predicate Apart(l: Layout) {
    forall j, k | j in l && k in l && j != k :: Disjoint(l[j], l[k])
  }

  /** A write to a placed sample has that sample's size. */
  ghost predicate Sized(l: Layout, w: Write) {
    w.key in l ==> |w.data| == l[w.key].size
  }

  /** A write to a sample that has no place is refused and changes nothing. */
  ghost function Apply(l: Layout, m: seq<byte>, w: Write): (r: seq<byte>)
    requires Fits(l, |m|) && Sized(l, w)
    ensures |r| == |m|
  {
    if w.key in l then Poke(m, l[w.key].addr, w.data) else m
  }

  ghost function Run(l: Layout, m: seq<byte>, ws: seq<Write>): (r: seq<byte>)
    requires Fits(l, |m|) && forall w | w in ws :: Sized(l, w)
    ensures |r| == |m|
  {
    if ws == [] then m else Apply(l, Run(l, m, ws[..|ws| - 1]), ws[|ws| - 1])
  }

  ghost function Sample(l: Layout, m: seq<byte>, k: Key): seq<byte>
    requires Fits(l, |m|) && k in l
  {
    Peek(m, l[k].addr, l[k].size)
  }

  /** The abstract store: the data of the last write to each key. */
  function Last(ws: seq<Write>, k: Key, initial: seq<byte>): seq<byte> {
    if ws == [] then initial
    else if ws[|ws| - 1].key == k then ws[|ws| - 1].data
    else Last(ws[..|ws| - 1], k, initial)
  }

  /** One write is read back, and changes no other sample. */
  lemma WriteThenRead(l: Layout, m: seq<byte>, w: Write, k: Key)
    requires Fits(l, |m|) && Apart(l) && Sized(l, w) && k in l
    ensures Sample(l, Apply(l, m, w), k) == if w.key == k then w.data else Sample(l, m, k)
  {
    if w.key in l {
      PokeThenPeek(m, l[w.key].addr, w.data, l[k].addr, l[k].size);
    }
  }

  /** After any run of writes, each sample is the one last written for its key. */
  lemma {:induction false} ReadsLastWritten(l: Layout, m: seq<byte>, ws: seq<Write>, k: Key)
    requires Fits(l, |m|) && Apart(l) && k in l && forall w | w in ws :: Sized(l, w)
    ensures Sample(l, Run(l, m, ws), k) == Last(ws, k, Sample(l, m, k))
  {
    if ws != [] {
      var before := ws[..|ws| - 1];
      ReadsLastWritten(l, m, before, k);
      WriteThenRead(l, Run(l, m, before), ws[|ws| - 1], k);
    }
  }

  function Flip(s: seq<byte>): (r: seq<byte>)
    ensures |r| == |s| && forall i | 0 <= i < |s| :: r[i] != s[i]
  {
    if s == [] then [] else [if s[0] == 0 then 1 else 0] + Flip(s[1..])
  }

  /** Two samples that share a byte lose data: some write to one changes the other. */
  lemma OverlapLosesData(l: Layout, m: seq<byte>, j: Key, k: Key) returns (w: Write)
    requires Fits(l, |m|) && j in l && k in l && j != k && !Disjoint(l[j], l[k]) && l[j].size > 0 && l[k].size > 0
    ensures w.key == j && Sized(l, w) && Sample(l, Apply(l, m, w), k) != Sample(l, m, k)
  {
    var a, b := l[j], l[k];
    var at := if a.addr >= b.addr then a.addr else b.addr;
    var data := Flip(Peek(m, a.addr, a.size));
    w := Write(j, data);
    var after := Apply(l, m, w);
    assert after[at] == data[at - a.addr];
    assert Peek(m, a.addr, a.size)[at - a.addr] == m[at];
    assert Sample(l, after, k)[at - b.addr] == after[at] && Sample(l, m, k)[at - b.addr] == m[at];
  }

  /** The memory behaves as the abstract store. */
  ghost predicate Faithful(l: Layout, m: seq<byte>)
    requires Fits(l, |m|)
  {
    forall ws: seq<Write>, k: Key | k in l && (forall w | w in ws :: Sized(l, w)) ::
      Sample(l, Run(l, m, ws), k) == Last(ws, k, Sample(l, m, k))
  }

  /** It does exactly when no two samples overlap. */
  lemma FaithfulIff(l: Layout, m: seq<byte>)
    requires Fits(l, |m|) && forall k | k in l :: l[k].size > 0
    ensures Faithful(l, m) <==> Apart(l)
  {
    if Apart(l) {
      forall ws: seq<Write>, k: Key | k in l && (forall w | w in ws :: Sized(l, w))
        ensures Sample(l, Run(l, m, ws), k) == Last(ws, k, Sample(l, m, k))
      {
        ReadsLastWritten(l, m, ws, k);
      }
    } else {
      var j, k :| j in l && k in l && j != k && !Disjoint(l[j], l[k]);
      var w := OverlapLosesData(l, m, j, k);
      assert [w][..0] == [] && Run(l, m, []) == m && Run(l, m, [w]) == Apply(l, m, w);
      assert Last([w], k, Sample(l, m, k)) == Sample(l, m, k);
    }
  }

  // ---------------------------------------------------------------- logs of samples

  /** The first `n` indexes of a payload all have a place. */
  ghost predicate Filled(l: Layout, p: nat, n: nat) {
    forall i: nat | i < n :: Key(p, i) in l
  }

  /** The first `n` samples of a payload. */
  ghost function SampleLog(l: Layout, m: seq<byte>, p: nat, n: nat): (r: seq<seq<byte>>)
    requires Fits(l, |m|) && Filled(l, p, n)
    ensures |r| == n
  {
    if n == 0 then [] else SampleLog(l, m, p, n - 1) + [Sample(l, m, Key(p, n - 1))]
  }

  /** What is at each index of a log. */
  lemma {:induction false} SampleLogAt(l: Layout, m: seq<byte>, p: nat, n: nat, i: nat)
    requires Fits(l, |m|) && Filled(l, p, n) && i < n
    ensures SampleLog(l, m, p, n)[i] == Sample(l, m, Key(p, i))
  {
    if i < n - 1 { SampleLogAt(l, m, p, n - 1, i); }
  }

  /** A write leaves every log that does not reach it as it was. */
  lemma {:induction false} LogKept(l: Layout, m: seq<byte>, w: Write, q: nat, n: nat)
    requires Fits(l, |m|) && Apart(l) && Sized(l, w) && Filled(l, q, n) && (w.key.payload == q ==> w.key.index >= n)
    ensures SampleLog(l, Apply(l, m, w), q, n) == SampleLog(l, m, q, n)
  {
    if n > 0 {
      var k := Key(q, n - 1);
      assert k in l && k != w.key;
      WriteThenRead(l, m, w, k);
      LogKept(l, m, w, q, n - 1);
    }
  }

  /** A write just past the end of a log appends to it. */
  lemma LogAppend(l: Layout, m: seq<byte>, p: nat, n: nat, data: seq<byte>)
    requires Fits(l, |m|) && Apart(l) && Filled(l, p, n + 1) && |data| == l[Key(p, n)].size
    ensures SampleLog(l, Apply(l, m, Write(Key(p, n), data)), p, n + 1) == SampleLog(l, m, p, n) + [data]
  {
    var w := Write(Key(p, n), data);
    LogKept(l, m, w, p, n);
    WriteThenRead(l, m, w, Key(p, n));
  }

  /** Sections are numbered through all payloads. */
  function SectionOf(p: nat, perPayload: nat, inPayload: nat): nat { p * perPayload + inPayload }

  /** Section `i` of payload `p` is inside the payload's area exactly when `i < n`. */
  lemma InArea(p: nat, n: nat, i: nat, bytes: nat, offset: nat)
    requires offset < bytes
    ensures var a := SectionOf(p, n, i) * bytes + offset;
      p * (n * bytes) <= a && (a < (p + 1) * (n * bytes) <==> i < n)
    ensures i < n ==> SectionOf(p, n, i) * bytes + bytes <= (p + 1) * (n * bytes)
  {
    Product(p, n, bytes);
    Product(p + 1, n, bytes);
    var first, next := p * n, (p + 1) * n;
    assert next == first + n;
    if i < n { BlockOrder(first + i, next, bytes); } else if i > n { BlockOrder(next, first + i, bytes); }
    if i > 0 { BlockOrder(first, first + i, bytes); }
  }
}
