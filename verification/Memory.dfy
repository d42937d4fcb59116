/** Byte-addressed memories (flash, FRAM, payload buffers) and the little-endian words kept in them. */
module Memory {

  const PAGE := 512                // ST_PAGE_SIZE and sizeof(fp_container_t)
  const LEN := 192                 // COM_FRAME_MAX_LEN

  type byte = x: int | 0 <= x < 256
  type uint16 = x: int | 0 <= x < 65536
  type uint32 = x: int | 0 <= x < 0x1_0000_0000
  type int32 = x: int | -0x8000_0000 <= x < 0x8000_0000

  function Peek(m: seq<byte>, a: nat, n: nat): (r: seq<byte>)
    requires a + n <= |m|
    ensures |r| == n
  {
    m[a..a + n]
  }

  function Poke(m: seq<byte>, a: nat, d: seq<byte>): (r: seq<byte>)
    requires a + |d| <= |m|
    ensures |r| == |m|
  {
    m[..a] + d + m[a + |d|..]
  }

  /** memcpy into a buffer */
  method MemCopy(dst: array<byte>, a: nat, data: seq<byte>)
    requires a + |data| <= dst.Length
    modifies dst
    ensures dst[..] == Poke(old(dst[..]), a, data)
  {
    ghost var before := dst[..];
    for i := 0 to |data|
      invariant dst[..] == Poke(before, a, data[..i])
    {
      dst[a + i] := data[i];
      assert data[..i + 1] == data[..i] + [data[i]];
    }
    assert data[..|data|] == data;
  }

  /** A write is read back whole, and a read that does not overlap it sees nothing of it. */
  lemma PokeThenPeek(m: seq<byte>, a: nat, d: seq<byte>, b: nat, n: nat)
    requires a + |d| <= |m| && b + n <= |m|
    ensures Peek(Poke(m, a, d), a, |d|) == d
    ensures b + n <= a || a + |d| <= b ==> Peek(Poke(m, a, d), b, n) == Peek(m, b, n)
  {
  }

  /** The part of a write that a smaller read inside it sees. */
  lemma PokeThenPeekInside(m: seq<byte>, a: nat, d: seq<byte>, b: nat, n: nat)
    requires a + |d| <= |m| && a <= b && b + n <= a + |d|
    ensures Peek(Poke(m, a, d), b, n) == d[b - a..b - a + n]
  {
  }

  lemma SliceOfSlice(m: seq<byte>, a: nat, n: nat, b: nat, k: nat)
    requires a + n <= |m| && b + k <= n
    ensures m[a..a + n][b..b + k] == m[a + b..a + b + k]
  {
    var s := m[a..a + n];
    var l, r := s[b..b + k], m[a + b..a + b + k];
    forall i | 0 <= i < k ensures l[i] == r[i] {
      assert l[i] == s[b + i];
    }
  }

  function Zeros(n: nat): (r: seq<byte>)
    ensures |r| == n && forall i | 0 <= i < n :: r[i] == 0
  {
    seq(n, _ => 0)
  }

  function Word(u: uint32): (r: seq<byte>)
    ensures |r| == 4
  {
    [u % 256, u / 256 % 256, u / 65536 % 256, u / 16777216]
  }

  function Unword(b: seq<byte>): uint32
    requires |b| == 4
  {
    (b[0] as int) + 256 * (b[1] as int) + 65536 * (b[2] as int) + 16777216 * (b[3] as int)
  }

  lemma WordRoundTrip(u: uint32)
    ensures Unword(Word(u)) == u
  {
    assert u == 256 * (u / 256) + u % 256;
    assert u / 256 == 256 * (u / 65536) + u / 256 % 256;
    assert u / 65536 == 256 * (u / 16777216) + u / 65536 % 256;
  }

  /** Two's complement. */
  function Unsigned(x: int32): uint32 { if x < 0 then x + 0x1_0000_0000 else x }
  function Signed(u: uint32): int32 { if u < 0x8000_0000 then u else u - 0x1_0000_0000 }

  lemma SignedRoundTrip(x: int32)
    ensures Signed(Unword(Word(Unsigned(x)))) == x
  {
    WordRoundTrip(Unsigned(x));
  }

  /** A C string at the start of a buffer: the bytes before the first NUL. */
  function CString(b: seq<byte>): (r: seq<byte>)
    ensures |r| <= |b| && r == b[..|r|] && 0 !in r && (|r| < |b| ==> b[|r|] == 0)
  {
    if b == [] || b[0] == 0 then [] else [b[0]] + CString(b[1..])
  }

  lemma {:induction false} CStringOf(s: seq<byte>, rest: seq<byte>)
    requires 0 !in s && rest != [] && rest[0] == 0
    ensures CString(s + rest) == s
  {
    if s == [] {
      assert s + rest == rest;
    } else {
      assert (s + rest)[1..] == s[1..] + rest;
      CStringOf(s[1..], rest);
    }
  }
}
