/**
 * Sending a range of payload samples and taking it in at the other end: tm_send_tel_from_to and
 * tm_parse_payload of src/system/cmdTM.c, com_receive_tm of src/system/taskCommunications.c.
 */
module Telemetry {
  import opened Memory
  import opened Arithmetic

  const STATUS := 1                            // TM_TYPE_STATUS
  const HELP := 2                              // TM_TYPE_HELP
  const PAYLOAD := 10                          // TM_TYPE_PAYLOAD
  const PLAN := 105                            // TM_TYPE_FP

  type Sample = seq<byte>

  /** com_frame_t as it travels: numbers and data words in network byte order. */
  datatype Frame = Frame(nframe: uint16, kind: byte, ndata: uint32, data: seq<byte>)

  // ---------------------------------------------------------------- byte order

  function Swap16(u: uint16): uint16 { u % 256 * 256 + u / 256 }

  function Reverse4(b: seq<byte>): (r: seq<byte>)
    requires |b| == 4
    ensures |r| == 4
  {
    [b[3], b[2], b[1], b[0]]
  }

  /** csp_hton32 and csp_ntoh32 */
  function Swap32(u: uint32): uint32 { Unword(Reverse4(Word(u))) }

  /** A buffer of 32-bit words with the bytes of each word reversed. */
  function SwapWords(b: seq<byte>): (r: seq<byte>)
    requires |b| % 4 == 0
    ensures |r| == |b|
  {
    if b == [] then [] else Reverse4(b[..4]) + SwapWords(b[4..])
  }

  lemma WordOf(b: seq<byte>)
    requires |b| == 4
    ensures Word(Unword(b)) == b
  {
    var u, b0, b1, b2, b3 := Unword(b) as int, b[0] as int, b[1] as int, b[2] as int, b[3] as int;
    Digit(u, b0, b1 + 256 * b2 + 65536 * b3);
    Digit(u / 256, b1, b2 + 256 * b3);
    assert u / 65536 == u / 256 / 256 && u / 16777216 == u / 65536 / 256;
    Digit(u / 65536, b2, b3);
  }

  lemma Digit(u: int, low: byte, high: nat)
    requires u == low + 256 * high
    ensures u % 256 == low && u / 256 == high
  {
  }

  lemma Swap32Twice(u: uint32)
    ensures Swap32(Swap32(u)) == u
  {
    WordOf(Reverse4(Word(u)));
    WordRoundTrip(u);
    assert Reverse4(Reverse4(Word(u))) == Word(u);
  }

  lemma {:induction false} SwapWordsTwice(b: seq<byte>)
    requires |b| % 4 == 0
    ensures SwapWords(SwapWords(b)) == b
    decreases |b|
  {
    if b != [] {
      SwapWordsTwice(b[4..]);
      var s := SwapWords(b);
      assert s[..4] == Reverse4(b[..4]) && s[4..] == SwapWords(b[4..]);
    }
  }

  method SwapWordAt(buff: array<byte>, k: nat)
    requires k + 4 <= buff.Length
    modifies buff
    ensures buff[..] == Poke(old(buff[..]), k, Reverse4(Peek(old(buff[..]), k, 4)))
  {
    buff[k], buff[k + 1], buff[k + 2], buff[k + 3] := buff[k + 3], buff[k + 2], buff[k + 1], buff[k];
  }

  /** The buffer with its first `n` words reversed. */
  ghost function Swapped(b: seq<byte>, n: nat): (r: seq<byte>)
    requires 4 * n <= |b|
    ensures |r| == |b|
  {
    SwapWords(b[..4 * n]) + b[4 * n..]
  }

  lemma SwapNext(b: seq<byte>, n: nat)
    requires 4 * n + 4 <= |b|
    ensures Poke(Swapped(b, n), 4 * n, Reverse4(Peek(Swapped(b, n), 4 * n, 4))) == Swapped(b, n + 1)
  {
    var k := 4 * n;
    var word := b[k..k + 4];
    SwapAppend(b[..k], word);
    assert b[..k + 4] == b[..k] + word;
    assert Peek(Swapped(b, n), k, 4) == word;
  }

  lemma SwapEnds(b: seq<byte>, n: nat)
    requires |b| == 4 * n
    ensures Swapped(b, 0) == b && Swapped(b, n) == SwapWords(b)
  {
    assert b[..0] == [] && b[..4 * n] == b;
  }

  /** _hton32_buff and _ntoh32_buff: the words of a buffer, in place. */
  method SwapBuffer(buff: array<byte>, words: nat)
    requires buff.Length == 4 * words
    modifies buff
    ensures buff[..] == SwapWords(old(buff[..]))
  {
    SwapEnds(buff[..], words);
    for k := 0 to words
      invariant buff[..] == Swapped(old(buff[..]), k)
    {
      SwapNext(old(buff[..]), k);
      SwapWordAt(buff, 4 * k);
    }
  }

  lemma {:induction false} SwapAppend(a: seq<byte>, word: seq<byte>)
    requires |a| % 4 == 0 && |word| == 4
    ensures SwapWords(a + word) == SwapWords(a) + Reverse4(word)
    decreases |a|
  {
    if a == [] {
      assert a + word == word && word[..4] == word && word[4..] == [];
    } else {
      SwapAppend(a[4..], word);
      assert (a + word)[..4] == a[..4] && (a + word)[4..] == a[4..] + word;
    }
  }

  // ---------------------------------------------------------------- samples in a buffer

  ghost predicate AllSized(xs: seq<Sample>, size: nat) {
    forall i | 0 <= i < |xs| :: |xs[i]| == size
  }

  /** Samples one after the other. */
  function Concat(xs: seq<Sample>): seq<byte> {
    if xs == [] then [] else Concat(xs[..|xs| - 1]) + xs[|xs| - 1]
  }

  lemma {:induction false} ConcatLength(xs: seq<Sample>, size: nat)
    requires AllSized(xs, size)
    ensures |Concat(xs)| == |xs| * size
  {
    if xs != [] {
      ConcatLength(xs[..|xs| - 1], size);
      Times(|xs|, size);
    }
  }

  /** The first `n` samples of a buffer. */
  function Cut(data: seq<byte>, size: nat, n: nat): (r: seq<Sample>)
    requires n * size <= |data|
    ensures |r| == n
  {
    if n == 0 then [] else
      Times(n, size);
      Cut(data, size, n - 1) + [Peek(data, (n - 1) * size, size)]
  }

  lemma {:induction false} CutKept(a: seq<byte>, b: seq<byte>, size: nat, n: nat)
    requires n * size <= |a|
    ensures Cut(a + b, size, n) == Cut(a, size, n)
  {
    if n > 0 {
      Times(n, size);
      CutKept(a, b, size, n - 1);
      assert Peek(a + b, (n - 1) * size, size) == Peek(a, (n - 1) * size, size);
    }
  }

  /** One more sample at the end is one more sample cut. */
  lemma CutAppend(data: seq<byte>, x: Sample, size: nat, n: nat)
    requires |data| == n * size && |x| == size
    ensures (n + 1) * size == |data| + size && Cut(data + x, size, n + 1) == Cut(data, size, n) + [x]
  {
    Times(n + 1, size);
    CutKept(data, x, size, n);
    assert Peek(data + x, |data|, size) == x;
  }

  /** Cutting undoes concatenation. */
  lemma {:induction false} CutConcat(xs: seq<Sample>, size: nat)
    requires AllSized(xs, size)
    ensures |xs| * size == |Concat(xs)| && Cut(Concat(xs), size, |xs|) == xs
  {
    ConcatLength(xs, size);
    if xs != [] {
      var init := xs[..|xs| - 1];
      CutConcat(init, size);
      CutAppend(Concat(init), xs[|xs| - 1], size, |xs| - 1);
    }
  }

  // ---------------------------------------------------------------- frames

  /** The frame that carries a group of samples. */
  function MakeFrame(xs: seq<Sample>, i: nat, p: nat): Frame
    requires |Concat(xs)| <= LEN && |xs| < 65536
  {
    Frame(Swap16(i % 65536), (PAYLOAD + p) % 256, Swap32(|xs|), SwapWords(Concat(xs) + Zeros(LEN - |Concat(xs)|)))
  }

  /** A size a frame can carry, and how many samples of it one frame carries. */
  predicate Framed(size: nat) { 1 <= size <= LEN }

  /** How many things of some size fit in `n` bytes: `n / size`, by subtraction. */
  function Fit(n: nat, size: nat): nat
    requires size > 0
  {
    if n < size then 0 else 1 + Fit(n - size, size)
  }

  lemma {:induction false} FitIs(n: nat, size: nat)
    requires size > 0
    ensures Fit(n, size) == n / size <= n && Fit(n, size) * size <= n
  {
    if n < size {
      DivIs(n, 0, n, size);
    } else {
      FitIs(n - size, size);
      var q := (n - size) / size;
      Division(n - size, size);
      Times(q + 1, size);
      DivIs(n, q + 1, (n - size) % size, size);
    }
  }

  /** structs_per_frame */
  function PerFrame(size: nat): (r: nat)
    requires Framed(size)
    ensures 1 <= r <= LEN
  {
    FitIs(LEN, size);
    Fit(LEN, size)
  }

  lemma GroupFits(xs: seq<Sample>, size: nat)
    requires Framed(size) && AllSized(xs, size) && |xs| <= PerFrame(size)
    ensures |Concat(xs)| == |xs| * size <= LEN
  {
    ConcatLength(xs, size);
    FitIs(LEN, size);
    Scale(|xs|, PerFrame(size), size);
  }

  function Group(xs: seq<Sample>, size: nat): (n: nat)
    requires Framed(size)
    ensures n <= |xs| && n <= PerFrame(size) && (xs != [] ==> n > 0)
  {
    if |xs| < PerFrame(size) then |xs| else PerFrame(size)
  }

  /** The frames that carry `xs`, the first of them with number `i`. */
  ghost function Frames(xs: seq<Sample>, size: nat, i: nat, p: nat): seq<Frame>
    requires Framed(size) && AllSized(xs, size)
    decreases |xs|
  {
    if xs == [] then [] else
      var n := Group(xs, size);
      GroupFits(xs[..n], size);
      [MakeFrame(xs[..n], i, p)] + Frames(xs[n..], size, i + 1, p)
  }

  /** The announced samples are inside the data, as tm_parse_payload asserts. */
  predicate WellFormed(f: Frame, size: nat) {
    |f.data| == LEN && Swap32(f.ndata) * size <= LEN
  }

  /** The samples a frame carries. */
  function Carried(f: Frame, size: nat): seq<Sample>
    requires WellFormed(f, size)
  {
    Cut(SwapWords(f.data), size, Swap32(f.ndata))
  }

  lemma FrameCarries(xs: seq<Sample>, size: nat, i: nat, p: nat)
    requires Framed(size) && AllSized(xs, size) && |xs| <= PerFrame(size)
    ensures |Concat(xs)| <= LEN
    ensures var f := MakeFrame(xs, i, p);
      WellFormed(f, size) && Swap32(f.ndata) == |xs| && Carried(f, size) == xs
  {
    GroupFits(xs, size);
    var f := MakeFrame(xs, i, p);
    Swap32Twice(|xs|);
    var fill := Zeros(LEN - |Concat(xs)|);
    SwapWordsTwice(Concat(xs) + fill);
    CutConcat(xs, size);
    CutKept(Concat(xs), fill, size, |xs|);
  }

  /** The number of samples a run of frames announces. */
  function Announced(fs: seq<Frame>): nat {
    if fs == [] then 0 else Swap32(fs[0].ndata) + Announced(fs[1..])
  }

  ghost predicate AllWellFormed(fs: seq<Frame>, size: nat) {
    forall f | f in fs :: WellFormed(f, size)
  }

  /** The samples a run of frames carries. */
  ghost function AllCarried(fs: seq<Frame>, size: nat): seq<Sample>
    requires AllWellFormed(fs, size)
  {
    if fs == [] then [] else Carried(fs[0], size) + AllCarried(fs[1..], size)
  }

  lemma FirstFrame(f: Frame, rest: seq<Frame>, size: nat)
    requires WellFormed(f, size) && AllWellFormed(rest, size)
    ensures AllWellFormed([f] + rest, size) && Announced([f] + rest) == Swap32(f.ndata) + Announced(rest)
    ensures AllCarried([f] + rest, size) == Carried(f, size) + AllCarried(rest, size)
  {
    assert ([f] + rest)[1..] == rest;
  }

  /** The frames carry exactly the samples given, in order, and announce as many. */
  lemma {:induction false} FramesCarry(xs: seq<Sample>, size: nat, i: nat, p: nat)
    requires Framed(size) && AllSized(xs, size)
    ensures var fs := Frames(xs, size, i, p);
      AllWellFormed(fs, size) && Announced(fs) == |xs| && AllCarried(fs, size) == xs
    decreases |xs|
  {
    if xs != [] {
      var n := Group(xs, size);
      var group, left := xs[..n], xs[n..];
      assert xs == group + left;
      FrameCarries(group, size, i, p);
      FramesCarry(left, size, i + 1, p);
      var f, rest := MakeFrame(group, i, p), Frames(left, size, i + 1, p);
      FirstFrame(f, rest, size);
      assert Frames(xs, size, i, p) == [f] + rest;
    }
  }
}
