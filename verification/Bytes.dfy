/** Bytes, little-endian words and the device file, shared by every module. */
module Bytes {

  type byte = x: int | 0 <= x < 256

  const TWO32 := 0x1_0000_0000
  const TWO31 := 0x8000_0000

  /** Reduction to `uint32_t`. */
  function Wrap(x: int): (r: nat)
    ensures r < TWO32
    ensures 0 <= x < TWO32 ==> r == x
  {
    x % TWO32
  }

  /** Counting down one by one is subtracting at once. */
  lemma WrapDown(x: int)
    ensures Wrap(Wrap(x) - 1) == Wrap(x - 1)
  {
  }

  /** A multiple of 2^32 - 1 is a count below zero. */
  lemma WrapLast(b: nat)
    requires 0 < b < TWO32
    ensures Wrap(b * Wrap(-1)) == TWO32 - b
  {
    assert Wrap(-1) == TWO32 - 1;
    assert b * (TWO32 - 1) == (b - 1) * TWO32 + (TWO32 - b);
  }

  lemma WrapTurn(x: int)
    ensures Wrap(x + TWO32) == Wrap(x)
  {
  }

  /** A 32-bit word in memory order; negative numbers are stored in two's complement. */
  function Encode32(x: int): (s: seq<byte>)
    ensures |s| == 4
  {
    var u := Wrap(x);
    [u % 256, u / 0x100 % 256, u / 0x1_0000 % 256, u / 0x100_0000]
  }

  function DecodeU32(s: seq<byte>): (r: nat)
    requires |s| == 4
    ensures r < TWO32
  {
    var b0: int, b1: int, b2: int, b3: int := s[0], s[1], s[2], s[3];
    b0 + 0x100 * b1 + 0x1_0000 * b2 + 0x100_0000 * b3
  }

  /** A `uint32_t` stored into an `int32_t`. */
  function AsSigned(u: nat): (r: int)
    requires u < TWO32
    ensures -TWO31 <= r < TWO31 && Wrap(r) == u
    ensures r == u <==> u < TWO31
    ensures r < 0 <==> u >= TWO31
  {
    if u < TWO31 then u else u - TWO32
  }

  function DecodeI32(s: seq<byte>): (r: int)
    requires |s| == 4
    ensures -TWO31 <= r < TWO31
  {
    AsSigned(DecodeU32(s))
  }

  lemma U32RoundTrip(x: int)
    requires 0 <= x < TWO32
    ensures DecodeU32(Encode32(x)) == x
  {
    assert x / 0x100 / 0x100 == x / 0x1_0000;
    assert x / 0x1_0000 / 0x100 == x / 0x100_0000;
  }

  lemma WrapSigned(x: int)
    requires -TWO31 <= x < TWO31
    ensures Wrap(x) == if x < 0 then x + TWO32 else x
  {
  }

  lemma I32RoundTrip(x: int)
    requires -TWO31 <= x < TWO31
    ensures DecodeI32(Encode32(x)) == x
  {
    assert Encode32(x) == Encode32(Wrap(x));
    U32RoundTrip(Wrap(x));
    WrapSigned(x);
  }

  /** Byte `j` of a file; a byte that was never written reads as zero. */
  function At(f: seq<byte>, j: nat): byte {
    if j < |f| then f[j] else 0
  }

  function Slice(f: seq<byte>, off: nat, n: nat): (s: seq<byte>)
    ensures |s| == n
  {
    seq<byte>(n, k requires 0 <= k => At(f, off + k))
  }

  function Zeros(n: nat): (s: seq<byte>)
    ensures |s| == n
  {
    seq<byte>(n, _ => 0)
  }

  /** The file after `d` was written at `off`; a write past the end leaves a hole of zeros. */
  function Patch(f: seq<byte>, off: nat, d: seq<byte>): (r: seq<byte>)
    ensures d == [] ==> r == f
    ensures d != [] ==> |r| == if |f| < off + |d| then off + |d| else |f|
    ensures forall j: nat :: At(r, j) == if off <= j < off + |d| then d[j - off] else At(f, j)
  {
    if d == [] then f
    else
      var g := if |f| < off + |d| then f + Zeros(off + |d| - |f|) else f;
      g[..off] + d + g[off + |d|..]
  }

  /** Files are the same when their lengths and all their bytes are. */
  lemma SameFile(f: seq<byte>, g: seq<byte>)
    requires |f| == |g|
    requires forall j: nat | j < |f| :: At(f, j) == At(g, j)
    ensures f == g
  {
    forall j | 0 <= j < |f| ensures f[j] == g[j] {
      assert At(f, j) == At(g, j);
    }
  }

  /** Two consecutive writes are one write of the concatenation. */
  lemma PatchConcat(f: seq<byte>, off: nat, a: seq<byte>, b: seq<byte>)
    ensures Patch(Patch(f, off, a), off + |a|, b) == Patch(f, off, a + b)
  {
    if a == [] {
      assert a + b == b;
    } else if b == [] {
      assert a + b == a;
    } else {
      SameFile(Patch(Patch(f, off, a), off + |a|, b), Patch(f, off, a + b));
    }
  }

  /** A write is read back, and leaves every range it does not meet as it was. */
  lemma PatchSlice(f: seq<byte>, off: nat, d: seq<byte>)
    ensures Slice(Patch(f, off, d), off, |d|) == d
    ensures forall o: nat, n: nat | o + n <= off || off + |d| <= o ::
              Slice(Patch(f, off, d), o, n) == Slice(f, o, n)
  {
    forall o: nat, n: nat | o + n <= off || off + |d| <= o
      ensures Slice(Patch(f, off, d), o, n) == Slice(f, o, n)
    {
      forall k | 0 <= k < n ensures Slice(Patch(f, off, d), o, n)[k] == Slice(f, o, n)[k] {
        assert At(Patch(f, off, d), o + k) == At(f, o + k);
      }
    }
    forall k | 0 <= k < |d| ensures Slice(Patch(f, off, d), off, |d|)[k] == d[k] {
      assert At(Patch(f, off, d), off + k) == d[k];
    }
  }

  /** A range is the concatenation of its two parts. */
  lemma SliceSplit(f: seq<byte>, off: nat, a: nat, b: nat)
    ensures Slice(f, off, a + b) == Slice(f, off, a) + Slice(f, off + a, b)
  {
  }

  lemma SameSlice(f: seq<byte>, a: nat, g: seq<byte>, b: nat, n: nat)
    requires forall j: nat | a <= j < a + n :: At(f, j) == At(g, j - a + b)
    ensures Slice(f, a, n) == Slice(g, b, n)
  {
    forall k | 0 <= k < n ensures Slice(f, a, n)[k] == Slice(g, b, n)[k] {
      assert At(f, a + k) == At(g, a + k - a + b);
    }
  }

  lemma SubSlice(f: seq<byte>, off: nat, n: nat, from: nat, m: nat)
    requires from + m <= n
    ensures Slice(f, off, n)[from..from + m] == Slice(f, off + from, m)
  {
  }
}
