/**
 * The byte-view containers behind the `data()`/`size()` interface of
 * `BaseContainer`. Each container is a value fixed at construction; its two
 * accessors are the functions `PrimitiveBytes`/`VectorBytes`/`PtrData` and
 * `PrimitiveSize`/`VectorSize`/`PtrSize` below.
 */
module Containers {
  import opened Bytes
  import opened Wrappers

  /** A C++ type as the containers see it: an integral type of a given width and signedness, or not. */
  datatype CppType = Integral(width: nat, signed: bool) | NonIntegral(sizeOf: nat)

  /** The integral widths of the target: 1, 2, 4 and 8 bytes. */
  predicate IsIntegral(t: CppType)
  {
    t.Integral? && t.width in {1, 2, 4, 8}
  }

  /** The values an integral type can hold. */
  predicate Representable(t: CppType, v: int)
    requires IsIntegral(t)
  {
    if t.signed then SignedRange(v, t.width) else 0 <= v < Pow256(t.width)
  }

  /** The `sizeof(T)` object bytes of v, little-endian, two's complement when signed. */
  function ObjectBytes(t: CppType, v: int): (r: seq<byte>)
    requires IsIntegral(t) && Representable(t, v)
    ensures |r| == t.width
  {
    if t.signed then LittleEndian(TwosComplement(v, t.width), t.width)
    else LittleEndian(v, t.width)
  }

  /** Reads a value of type t back from its object bytes. */
  function FromObjectBytes(t: CppType, s: seq<byte>): (v: int)
    requires IsIntegral(t) && |s| == t.width
    ensures Representable(t, v)
  {
    if t.signed then FromTwosComplement(FromLittleEndian(s), t.width)
    else FromLittleEndian(s)
  }

  lemma ObjectBytesRoundTrip(t: CppType, v: int)
    requires IsIntegral(t) && Representable(t, v)
    ensures FromObjectBytes(t, ObjectBytes(t, v)) == v
  {
    if t.signed {
      LittleEndianRoundTrip(TwosComplement(v, t.width), t.width);
    } else {
      LittleEndianRoundTrip(v, t.width);
    }
  }

  // ---------------------------------------------------------------- PrimitiveContainer<T>

  datatype PrimitiveContainer = PrimitiveContainer(t: CppType, value: int)

  /**
   * Instantiating `PrimitiveContainer<T>`: only an integral T yields a
   * container; any other T hits the static_assert, so no container exists.
   */
  function NewPrimitive(t: CppType, value: int): (r: Option<PrimitiveContainer>)
    requires IsIntegral(t) ==> Representable(t, value)
    ensures r.Some? <==> IsIntegral(t)
    ensures r.Some? ==> r.value.t == t && r.value.value == value
  {
    if IsIntegral(t) then Some(PrimitiveContainer(t, value)) else None
  }

  predicate PrimitiveValid(c: PrimitiveContainer)
  {
    IsIntegral(c.t) && Representable(c.t, c.value)
  }

  /** `data()`: the object bytes of the stored value. */
  function PrimitiveBytes(c: PrimitiveContainer): (r: seq<byte>)
    requires PrimitiveValid(c)
    ensures |r| == PrimitiveSize(c)
  {
    ObjectBytes(c.t, c.value)
  }

  /** `size()`: `sizeof(T)`. */
  function PrimitiveSize(c: PrimitiveContainer): (n: nat)
    requires PrimitiveValid(c)
    ensures n in {1, 2, 4, 8}
  {
    c.t.width
  }

  /** Decoding `data()` yields the constructor argument. */
  lemma PrimitiveRoundTrip(t: CppType, value: int)
    requires IsIntegral(t) && Representable(t, value)
    ensures NewPrimitive(t, value).Some?
    ensures var c := NewPrimitive(t, value).value;
      PrimitiveValid(c) && FromObjectBytes(t, PrimitiveBytes(c)) == value
  {
    ObjectBytesRoundTrip(t, value);
  }

  // ---------------------------------------------------------------- VectorContainer<T>

  /** A `VectorContainer<T>` for integral T, holding the vector given to its constructor. */
  datatype VectorContainer = VectorContainer(t: CppType, vec: seq<int>)

  predicate VectorValid(c: VectorContainer)
  {
    IsIntegral(c.t) && forall i :: 0 <= i < |c.vec| ==> Representable(c.t, c.vec[i])
  }

  /** The vector's contiguous storage, element after element. */
  function Storage(t: CppType, vec: seq<int>): (r: seq<byte>)
    requires IsIntegral(t) && forall i :: 0 <= i < |vec| ==> Representable(t, vec[i])
    ensures |r| == t.width * |vec|
  {
    if vec == [] then [] else ObjectBytes(t, vec[0]) + Storage(t, vec[1..])
  }

  /** `data()`: the bytes of the stored vector's storage. */
  function VectorBytes(c: VectorContainer): (r: seq<byte>)
    requires VectorValid(c)
    ensures |r| == c.t.width * |c.vec|
  {
    Storage(c.t, c.vec)
  }

  /** Element i of the vector occupies bytes i * sizeof(T) up to (i + 1) * sizeof(T) of its storage. */
  lemma {:induction false} StorageElement(t: CppType, vec: seq<int>, i: nat)
    requires IsIntegral(t) && forall j :: 0 <= j < |vec| ==> Representable(t, vec[j])
    requires i < |vec|
    ensures (i + 1) * t.width <= |Storage(t, vec)|
    ensures Storage(t, vec)[i * t.width..(i + 1) * t.width] == ObjectBytes(t, vec[i])
  {
    var w := t.width;
    var head := ObjectBytes(t, vec[0]);
    var rest := Storage(t, vec[1..]);
    var whole := Storage(t, vec);
    assert whole == head + rest;
    MulMonotone(i + 1, |vec|, w);
    MulPred(i + 1, w);
    if i == 0 {
      ConcatSlices(head, rest);
    } else {
      assert vec[1..][i - 1] == vec[i];
      StorageElement(t, vec[1..], i - 1);
      MulPred(i, w);
      var lo, hi := (i - 1) * w, i * w;
      assert rest[lo..hi] == ObjectBytes(t, vec[i]);
      SliceRight(head, rest, lo, hi);
      assert |head| + lo == i * w && |head| + hi == (i + 1) * w;
      assert whole[i * w..(i + 1) * w] == rest[lo..hi];
    }
  }

  /** Reading element i's bytes back from `data()` gives the i-th stored element. */
  lemma VectorBytesElements(c: VectorContainer, i: nat)
    requires VectorValid(c) && i < |c.vec|
    ensures (i + 1) * c.t.width <= |VectorBytes(c)|
    ensures FromObjectBytes(c.t, VectorBytes(c)[i * c.t.width..(i + 1) * c.t.width]) == c.vec[i]
  {
    StorageElement(c.t, c.vec, i);
    ObjectBytesRoundTrip(c.t, c.vec[i]);
  }

  /** `size()` as written: the element count `_vec.size()`. */
  function VectorSize(c: VectorContainer): nat
  {
    |c.vec|
  }

  /**
   * `size()` counts elements, so it equals the number of bytes behind
   * `data()` only when sizeof(T) is 1 (or the vector is empty).
   */
  lemma VectorSizeIsByteCountIff(c: VectorContainer)
    requires VectorValid(c)
    ensures VectorSize(c) == |VectorBytes(c)| <==> c.t.width == 1 || c.vec == []
  {
    if c.vec != [] && c.t.width != 1 {
      assert c.t.width * |c.vec| >= 2 * |c.vec|;
    }
  }

  /** A one-element vector of uint32_t: `size()` is 1 while `data()` views 4 bytes. */
  lemma VectorSizeCounterexample()
    ensures var c := VectorContainer(Integral(4, false), [7]);
      VectorValid(c) && VectorSize(c) == 1 && |VectorBytes(c)| == 4
  {
  }

  /** The byte count a byte-view interface needs: elements times sizeof(T). */
  function VectorByteSize(c: VectorContainer): (n: nat)
    requires VectorValid(c)
    ensures n == |VectorBytes(c)|
  {
    c.t.width * |c.vec|
  }

  // ---------------------------------------------------------------- PtrContainer

  /** A raw `const char*`: a position in some caller-owned buffer. */
  datatype Pointer = Pointer(buffer: array<byte>, offset: nat)

  /** Pointer and size, copied at construction; the bytes stay the caller's. */
  datatype PtrContainer = PtrContainer(data: Pointer, size: nat)

  function NewPtr(data: Pointer, size: nat): (c: PtrContainer)
    ensures PtrData(c) == data && PtrSize(c) == size
  {
    PtrContainer(data, size)
  }

  /** `data()`: exactly the pointer passed to the constructor. */
  function PtrData(c: PtrContainer): Pointer
  {
    c.data
  }

  /** `size()`: exactly the size passed to the constructor. */
  function PtrSize(c: PtrContainer): nat
  {
    c.size
  }

  /**
   * The bytes a reader sees through the view: read from the caller's buffer
   * at the time of reading, so they change when the caller changes them.
   */
  function PtrBytes(c: PtrContainer): (r: seq<byte>)
    requires c.data.offset + c.size <= c.data.buffer.Length
    reads c.data.buffer
    ensures |r| == PtrSize(c)
    ensures forall i :: 0 <= i < |r| ==> r[i] == c.data.buffer[c.data.offset + i]
  {
    c.data.buffer[c.data.offset..c.data.offset + c.size]
  }
}
