/**
 * Bytes, fixed-width integers and their little-endian object representation
 * on the x86 Windows target (two's complement for signed types).
 */
module Bytes {

  newtype byte = x: int | 0 <= x < 256

  /** 256^k: the number of values a k-byte unsigned integer can hold. */
  function Pow256(k: nat): (r: nat)
    ensures r >= 1
  {
    if k == 0 then 1 else 256 * Pow256(k - 1)
  }

  const U16_LIMIT: nat := 0x1_0000
  const U32_LIMIT: nat := 0x1_0000_0000
  const U64_LIMIT: nat := 0x1_0000_0000_0000_0000
  /** A non-negative LONG / int32_t is below this. */
  const I32_LIMIT: nat := 0x8000_0000

  /** WORD / uint16_t, DWORD / uint32_t, size_t / uint64_t and LONG / int32_t. */
  type u16 = x: nat | x < 0x1_0000
  type u32 = x: nat | x < 0x1_0000_0000
  type u64 = x: nat | x < 0x1_0000_0000_0000_0000
  type i32 = x: int | -0x8000_0000 <= x < 0x8000_0000

  lemma Pow256Widths()
    ensures Pow256(2) == U16_LIMIT && Pow256(4) == U32_LIMIT && Pow256(8) == U64_LIMIT
  {
  }

  /** The `width` object bytes of the unsigned value n, least significant byte first. */
  function LittleEndian(n: nat, width: nat): (r: seq<byte>)
    requires n < Pow256(width)
    ensures |r| == width
  {
    if width == 0 then []
    else [(n % 256) as byte] + LittleEndian(n / 256, width - 1)
  }

  /** Reads an unsigned value from its little-endian bytes. */
  function FromLittleEndian(s: seq<byte>): (n: nat)
    ensures n < Pow256(|s|)
  {
    if s == [] then 0
    else
      var rest := FromLittleEndian(s[1..]);
      assert rest <= Pow256(|s| - 1) - 1;
      s[0] as nat + 256 * rest
  }

  lemma {:induction false} LittleEndianRoundTrip(n: nat, width: nat)
    requires n < Pow256(width)
    ensures FromLittleEndian(LittleEndian(n, width)) == n
  {
    if width > 0 {
      var s := LittleEndian(n, width);
      LittleEndianRoundTrip(n / 256, width - 1);
      assert s[1..] == LittleEndian(n / 256, width - 1);
    }
  }

  lemma {:induction false} FromLittleEndianRoundTrip(s: seq<byte>)
    ensures LittleEndian(FromLittleEndian(s), |s|) == s
  {
    if s != [] {
      var n := FromLittleEndian(s);
      var rest := FromLittleEndian(s[1..]);
      assert n % 256 == s[0] as nat && n / 256 == rest;
      FromLittleEndianRoundTrip(s[1..]);
    }
  }

  /** The values a signed integer of `width` bytes can hold. */
  predicate SignedRange(v: int, width: nat)
  {
    width > 0 && 0 <= v + Pow256(width) / 2 && v < Pow256(width) / 2
  }

  /** The unsigned bit pattern of a signed value held in `width` bytes. */
  function TwosComplement(v: int, width: nat): (u: nat)
    requires SignedRange(v, width)
    ensures u < Pow256(width)
    ensures v >= 0 ==> u == v
    ensures v < 0 ==> u >= Pow256(width) / 2
  {
    if v < 0 then v + Pow256(width) else v
  }

  /** The signed value whose bit pattern is u. */
  function FromTwosComplement(u: nat, width: nat): (v: int)
    requires width > 0 && u < Pow256(width)
    ensures SignedRange(v, width)
  {
    Pow256Even(width);
    if u >= Pow256(width) / 2 then u - Pow256(width) else u
  }

  /** A power of 256 splits into two equal halves. */
  lemma Pow256Even(width: nat)
    requires width > 0
    ensures Pow256(width) == 2 * (Pow256(width) / 2)
  {
    var p := Pow256(width - 1);
    assert Pow256(width) == 256 * p;
    assert (256 * p) / 2 == 128 * p;
  }

  lemma TwosComplementRoundTrip(v: int, width: nat)
    requires SignedRange(v, width)
    ensures FromTwosComplement(TwosComplement(v, width), width) == v
  {
  }

  /** n zero bytes, as `std::vector::resize` appends them. */
  function Zeros(n: nat): (r: seq<byte>)
    ensures |r| == n && forall i :: 0 <= i < n ==> r[i] == 0
  {
    seq(n, _ => 0)
  }

  /** The two operands of a concatenation are its slices at the seam. */
  lemma ConcatSlices(a: seq<byte>, b: seq<byte>)
    ensures (a + b)[..|a|] == a && (a + b)[|a|..] == b
  {
  }

  /** A slice of the right operand, seen through the concatenation. */
  lemma SliceRight(a: seq<byte>, b: seq<byte>, lo: nat, hi: nat)
    requires lo <= hi <= |b|
    ensures (a + b)[|a| + lo..|a| + hi] == b[lo..hi]
  {
  }

  lemma MulPred(i: nat, w: nat)
    requires i > 0
    ensures i * w == (i - 1) * w + w
  {
  }

  /** Dropping k zero bytes leaves n - k zero bytes. */
  lemma ZerosSuffix(n: nat, k: nat)
    requires k <= n
    ensures Zeros(n)[k..] == Zeros(n - k)
  {
  }

  lemma MulMonotone(a: nat, b: nat, c: nat)
    requires a <= b
    ensures a * c <= b * c
  {
  }

  /** Concatenation of a sequence of buffers. */
  function Flatten(bufs: seq<seq<byte>>): (r: seq<byte>)
  {
    if bufs == [] then [] else bufs[0] + Flatten(bufs[1..])
  }

  lemma {:induction false} FlattenAppend(a: seq<seq<byte>>, b: seq<seq<byte>>)
    ensures Flatten(a + b) == Flatten(a) + Flatten(b)
  {
    if a != [] {
      assert (a + b)[1..] == a[1..] + b;
      FlattenAppend(a[1..], b);
    } else {
      assert a + b == b;
    }
  }
}
