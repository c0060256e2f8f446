/**
 * Typed views over raw bytes: the component-type and element-shape tables, the
 * typed-array constructor switch, `ArrayBuffer.prototype.slice`, and the little-endian
 * reading of unsigned 16-bit elements (glTF 1.0 stores all binary data little-endian).
 */
module Typed {
  import opened Wrappers
  import opened Document

  /** An octet of an `ArrayBuffer`. */
  newtype Byte = x: int | 0 <= x < 256

  type Bytes = seq<Byte>

  /** The typed-array constructors the loader can produce. */
  datatype Kind = Int16 | Uint16 | Int32 | Uint32 | Float32

  /** `BYTES_PER_ELEMENT` of each constructor. */
  function ElementSize(k: Kind): nat
  {
    match k
    case Int16 | Uint16 => 2
    case Int32 | Uint32 | Float32 => 4
  }

  /** What `new XArray(buffer, byteOffset, length)` records: no bytes are copied. */
  datatype TypedView = TypedView(kind: Kind, buffer: Bytes, byteOffset: nat, length: nat)

  /** The `ComponentType2ByteSize` table. INT (5124) and UNSIGNED_INT (5125) are not in it. */
  function ComponentType2ByteSize(componentType: int): (size: Option<nat>)
    ensures size.Some? <==> componentType in {5120, 5121, 5122, 5123, 5126}
    ensures size.Some? ==> size.value in {1, 2, 4}
  {
    match componentType
    case 5120 => Some(1)  // BYTE
    case 5121 => Some(1)  // UNSIGNED_BYTE
    case 5122 => Some(2)  // SHORT
    case 5123 => Some(2)  // UNSIGNED_SHORT
    case 5126 => Some(4)  // FLOAT
    case _ => None
  }

  /** The `Type2NumOfComponent` table: how many components one element of each shape has. */
  function Type2NumOfComponent(elementType: string): (n: Option<nat>)
    ensures n.Some? <==> elementType in {"SCALAR", "VEC2", "VEC3", "VEC4", "MAT2", "MAT3", "MAT4"}
    ensures n.Some? ==> 1 <= n.value <= 16
  {
    if elementType == "SCALAR" then Some(1)
    else if elementType == "VEC2" then Some(2)
    else if elementType == "VEC3" then Some(3)
    else if elementType == "VEC4" then Some(4)
    else if elementType == "MAT2" then Some(4)
    else if elementType == "MAT3" then Some(9)
    else if elementType == "MAT4" then Some(16)
    else None
  }

  /** The switch of `_arrayBuffer2TypedArray`: BYTE and UNSIGNED_BYTE fall to the default. */
  function KindOf(componentType: int): (k: Option<Kind>)
    ensures k.Some? <==> 5122 <= componentType <= 5126
  {
    match componentType
    case 5122 => Some(Int16)
    case 5123 => Some(Uint16)
    case 5124 => Some(Int32)
    case 5125 => Some(Uint32)
    case 5126 => Some(Float32)
    case _ => None
  }

  /** The two tables agree wherever both are defined; each has codes the other lacks. */
  lemma TablesAgree(componentType: int)
    ensures ComponentType2ByteSize(componentType).Some? && KindOf(componentType).Some? ==>
      ComponentType2ByteSize(componentType).value == ElementSize(KindOf(componentType).value)
    ensures ComponentType2ByteSize(componentType).Some? && KindOf(componentType).None? <==>
      componentType in {5120, 5121}
    ensures ComponentType2ByteSize(componentType).None? && KindOf(componentType).Some? <==>
      componentType in {5124, 5125}
  {
  }

  /** A typed array of `length` elements of `size` bytes at `byteOffset` fits a buffer of
      `bufferLength` bytes without a RangeError. */
  predicate Fits(bufferLength: nat, byteOffset: nat, length: nat, k: Kind)
  {
    if ElementSize(k) == 2 then byteOffset % 2 == 0 && byteOffset + 2 * length <= bufferLength
    else byteOffset % 4 == 0 && byteOffset + 4 * length <= bufferLength
  }

  /** Constructing the typed array for `componentType` over `bufferLength` bytes does not throw. */
  predicate CanViewLength(bufferLength: nat, byteOffset: nat, length: nat, componentType: int)
  {
    KindOf(componentType).Some? ==>
      Fits(bufferLength, byteOffset, length, KindOf(componentType).value)
  }

  /** An absent (`undefined`) resource never throws: it gives an empty array. */
  predicate CanView(resource: Option<Bytes>, byteOffset: nat, length: nat, componentType: int)
  {
    resource.Some? ==> CanViewLength(|resource.value|, byteOffset, length, componentType)
  }

  /**
   * `_arrayBuffer2TypedArray(resource, byteOffset, length, componentType)`. `length` is the
   * element count after JavaScript's ToIndex (a NaN count becomes 0). When `resource` is
   * `undefined` the constructor treats it as a length of 0 and ignores the other arguments.
   */
  function ArrayBuffer2TypedArray(resource: Option<Bytes>, byteOffset: nat, length: nat, componentType: int): (r: Option<TypedView>)
    requires CanView(resource, byteOffset, length, componentType)
    ensures r.Some? <==> KindOf(componentType).Some?
    ensures r.Some? ==> r.value.kind == KindOf(componentType).value
    ensures r.Some? ==> Fits(|r.value.buffer|, r.value.byteOffset, r.value.length, r.value.kind)
    ensures r.Some? && resource.Some? ==>
      r.value.buffer == resource.value && r.value.byteOffset == byteOffset && r.value.length == length
    ensures r.Some? && resource.None? ==> r.value.length == 0
  {
    match KindOf(componentType)
    case None => None
    case Some(k) =>
      if resource.Some? then Some(TypedView(k, resource.value, byteOffset, length))
      else Some(TypedView(k, [], 0, 0))
  }

  /** `accessor.count * Type2NumOfComponent[accessor.type]`, after ToIndex (unknown shape: 0). */
  function ElementCount(a: Accessor): nat
  {
    match Type2NumOfComponent(a.elementType)
    case Some(n) => a.count * n
    case None => 0
  }

  /** `_getAccessorData`: a view of the accessor's elements at its byte offset in the view data. */
  function GetAccessorData(data: Option<Bytes>, a: Accessor): (r: Option<TypedView>)
    requires CanView(data, a.byteOffset, ElementCount(a), a.componentType)
    ensures r.Some? <==> KindOf(a.componentType).Some?
    ensures r.Some? && data.Some? ==> r.value.buffer == data.value && r.value.byteOffset == a.byteOffset
    ensures r.Some? && data.Some? && Type2NumOfComponent(a.elementType).Some? ==>
      r.value.length == a.count * Type2NumOfComponent(a.elementType).value
    ensures r.Some? && data.None? ==> r.value.length == 0
  {
    ArrayBuffer2TypedArray(data, a.byteOffset, ElementCount(a), a.componentType)
  }

  /** `bufferView.byteLength / ComponentType2ByteSize[componentType]` after ToIndex: the
      quotient rounded down, and 0 when the size lookup is `undefined` (NaN). */
  function VertexCount(byteLength: nat, componentType: int): nat
  {
    match ComponentType2ByteSize(componentType)
    case Some(size) => byteLength / size
    case None => 0
  }

  /** The whole-view vertex array of `_parseAttributes` never throws on a view of full length. */
  lemma VertexViewFits(byteLength: nat, componentType: int, bufferLength: nat)
    requires byteLength <= bufferLength
    ensures CanViewLength(bufferLength, 0, VertexCount(byteLength, componentType), componentType)
  {
    TablesAgree(componentType);
    if KindOf(componentType).Some? && ComponentType2ByteSize(componentType).Some? {
      var size := ComponentType2ByteSize(componentType).value;
      assert (byteLength / size) * size <= byteLength;
    }
  }

  function Min(a: nat, b: nat): nat { if a <= b then a else b }

  /** `ArrayBuffer.prototype.slice(begin, end)`: both ends are clamped to the buffer. */
  function Slice(b: Bytes, begin: nat, end: nat): (r: Bytes)
    ensures begin <= end <= |b| ==> r == b[begin..end]
    ensures |r| <= |b|
    ensures |r| == if Min(begin, |b|) <= Min(end, |b|) then Min(end, |b|) - Min(begin, |b|) else 0
  {
    var first, last := Min(begin, |b|), Min(end, |b|);
    if first <= last then b[first..last] else []
  }

  /** The unsigned 16-bit little-endian number at `offset`. */
  function U16At(b: Bytes, offset: nat): (x: nat)
    requires offset + 2 <= |b|
    ensures x < 65536
  {
    b[offset] as nat + 256 * b[offset + 1] as nat
  }

  /** The elements of a Uint16Array, in index order. */
  function Uint16Elements(v: TypedView): (xs: seq<nat>)
    requires v.kind == Uint16 && v.byteOffset + 2 * v.length <= |v.buffer|
    ensures |xs| == v.length
    ensures forall i :: 0 <= i < |xs| ==> xs[i] == U16At(v.buffer, v.byteOffset + 2 * i)
  {
    seq(v.length, i requires 0 <= i < v.length => U16At(v.buffer, v.byteOffset + 2 * i))
  }

  /** The little-endian bytes of a list of unsigned 16-bit numbers. */
  function EncodeUint16(xs: seq<nat>): (b: Bytes)
    requires forall i :: 0 <= i < |xs| ==> xs[i] < 65536
  {
    if xs == [] then []
    else [(xs[0] % 256) as Byte, (xs[0] / 256) as Byte] + EncodeUint16(xs[1..])
  }

  lemma {:induction false} EncodeUint16Length(xs: seq<nat>)
    requires forall k :: 0 <= k < |xs| ==> xs[k] < 65536
    ensures |EncodeUint16(xs)| == 2 * |xs|
    decreases |xs|
  {
    if xs != [] { EncodeUint16Length(xs[1..]); }
  }

  lemma {:induction false} EncodeUint16At(xs: seq<nat>, i: nat)
    requires forall k :: 0 <= k < |xs| ==> xs[k] < 65536
    requires i < |xs|
    ensures |EncodeUint16(xs)| == 2 * |xs|
    ensures EncodeUint16(xs)[2 * i] == (xs[i] % 256) as Byte
    ensures EncodeUint16(xs)[2 * i + 1] == (xs[i] / 256) as Byte
    decreases |xs|
  {
    EncodeUint16Length(xs);
    if i > 0 {
      var rest := xs[1..];
      EncodeUint16At(rest, i - 1);
      assert EncodeUint16(xs) == [(xs[0] % 256) as Byte, (xs[0] / 256) as Byte] + EncodeUint16(rest);
    }
  }

  /** Reading back an encoded index list as a Uint16Array gives the list: the round trip
      for an UNSIGNED_SHORT accessor. */
  lemma Uint16RoundTrip(xs: seq<nat>)
    requires forall i :: 0 <= i < |xs| ==> xs[i] < 65536
    ensures |EncodeUint16(xs)| == 2 * |xs|
    ensures Uint16Elements(TypedView(Uint16, EncodeUint16(xs), 0, |xs|)) == xs
  {
    if xs == [] {
    } else {
      EncodeUint16Length(xs);
      forall i | 0 <= i < |xs|
        ensures U16At(EncodeUint16(xs), 2 * i) == xs[i]
      {
        EncodeUint16At(xs, i);
      }
    }
  }
}
