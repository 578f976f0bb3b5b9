/** Frame metadata: inferring what a producer left unset, and validating it. */
module FrameMetadata {
  import opened Base
  import opened Geometry

  datatype Metadata = Metadata(elementType: ElementType, elementSize: u32, rank: u32, shape: Dims, strides: Dims,
                               payloadBytes: u64, timestamp: u64, eventCounter: u64, quality: u32,
                               memoryKind: u32, endian: u32)

  // ----- Contiguous strides -----

  /** Fill strides from dimension `i` outwards; an overflow leaves the rest as they are. */
  function ContiguousFrom(shape: Dims, i: nat, stride: u64, strides: Dims): Dims
    requires i <= MAX_RANK
    decreases i
  {
    if i == 0 then strides
    else
      var filled := strides[i - 1 := stride];
      var next := CheckedMul(stride, shape[i - 1]);
      if next.None? then filled else ContiguousFrom(shape, i - 1, next.value, filled)
  }

  function Contiguous(rank: u32, shape: Dims, elementSize: u32): Dims
    requires rank <= MAX_RANK
  {
    ContiguousFrom(shape, rank, elementSize, [0, 0, 0, 0])
  }

  method FillContiguousStrides(rank: u32, shape: Dims, elementSize: u32) returns (strides: Dims)
    requires rank <= MAX_RANK
    ensures strides == Contiguous(rank, shape, elementSize)
  {
    strides := [0, 0, 0, 0];
    var stride: u64 := elementSize;
    var i := rank;
    while i > 0
      invariant 0 <= i <= rank
      invariant ContiguousFrom(shape, i, stride, strides) == Contiguous(rank, shape, elementSize)
    {
      strides := strides[i - 1 := stride];
      var next := CheckedMul(stride, shape[i - 1]);
      if next.None? {
        return;
      }
      stride := next.value;
      i := i - 1;
    }
  }

  /** Every row-major stride of these dimensions can be written in 64 bits. */
  ghost predicate StridesRepresentable(dims: seq<u64>, elementSize: nat) {
    forall i :: 1 <= i <= |dims| ==> elementSize * Tail(dims, i) <= MAX64
  }

  lemma {:induction false} ContiguousFills(dims: seq<u64>, shape: Dims, es: nat, i: nat, stride: u64, strides: Dims)
    requires i <= |dims| <= MAX_RANK && dims == shape[..|dims|] && stride == es * Tail(dims, i)
    requires StridesRepresentable(dims, es)
    requires forall j :: i <= j < |dims| ==> strides[j] == es * Tail(dims, j + 1)
    ensures RowMajor(dims, ContiguousFrom(shape, i, stride, strides), es)
    decreases i
  {
    if i > 0 {
      var filled := strides[i - 1 := stride];
      assert forall j :: i - 1 <= j < |dims| ==> filled[j] == es * Tail(dims, j + 1);
      if i == 1 {
        assert ContiguousFrom(shape, i, stride, strides) == filled by {
          LastStride(shape, stride, strides);
        }
      } else {
        NextStride(dims, es, i - 1);
        assert dims[i - 1] == shape[i - 1];
        ContiguousFills(dims, shape, es, i - 1, stride * shape[i - 1], filled);
      }
    }
  }

  /** At the outermost dimension an overflow no longer matters. */
  lemma LastStride(shape: Dims, stride: u64, strides: Dims)
    ensures ContiguousFrom(shape, 1, stride, strides) == strides[0 := stride]
  {
    assert forall next: u64, filled: Dims :: ContiguousFrom(shape, 0, next, filled) == filled;
  }

  lemma NextStride(dims: seq<u64>, es: nat, i: nat)
    requires i < |dims|
    ensures (es * Tail(dims, i + 1)) * dims[i] == es * Tail(dims, i)
  {
    Associate(es, Tail(dims, i + 1), dims[i]);
  }

  lemma Associate(a: nat, b: nat, c: nat)
    ensures (a * b) * c == a * (c * b)
  {
  }

  /** Inferred strides are row-major exactly when row-major strides fit in 64 bits;
      otherwise the outer ones are left at zero. */
  lemma ContiguousIsRowMajor(rank: u32, shape: Dims, elementSize: u32)
    requires rank <= MAX_RANK
    ensures RowMajor(shape[..rank], Contiguous(rank, shape, elementSize), elementSize)
        <==> StridesRepresentable(shape[..rank], elementSize)
  {
    var dims := shape[..rank];
    if StridesRepresentable(dims, elementSize) {
      ContiguousFills(dims, shape, elementSize, rank, elementSize, [0, 0, 0, 0]);
    }
    if RowMajor(dims, Contiguous(rank, shape, elementSize), elementSize) {
      forall i | 1 <= i <= |dims|
        ensures elementSize * Tail(dims, i) <= MAX64
      {
        assert Contiguous(rank, shape, elementSize)[i - 1] == elementSize * Tail(dims, i - 1 + 1);
      }
    }
  }

  // ----- Resolving -----

  predicate StridesUnset(m: Metadata)
    requires m.rank <= MAX_RANK
  {
    forall i :: 0 <= i < m.rank ==> m.strides[i] == 0
  }

  function ValidateFrame(m: Metadata, maxFrameBytes: u64): Status {
    if m.rank > MAX_RANK then GeometryMismatch
    else if m.elementType == UNKNOWN_TYPE && m.rank > 0 then GeometryMismatch
    else if !ElementSizeOk(m.elementType, m.elementSize) then GeometryMismatch
    else if m.payloadBytes == 0 then GeometryMismatch
    else if m.payloadBytes > maxFrameBytes || m.payloadBytes > MAX_FRAME_BYTES then FrameTooLarge
    else if Fits(m.rank, m.shape, m.strides, m.elementSize, m.payloadBytes) then Ok
    else GeometryMismatch
  }

  /** The payload size, given or counted from the shape. */
  function InferredPayload(m: Metadata, size: u32): Option<u64>
    requires m.rank <= MAX_RANK
  {
    if m.payloadBytes != 0 then Some(m.payloadBytes)
    else if ProductsRepresentable(m.shape, m.rank) then CheckedMul(Product(m.shape, m.rank), size)
    else None
  }

  function InferredStrides(m: Metadata, size: u32): Dims
    requires m.rank <= MAX_RANK
  {
    if StridesUnset(m) && m.rank > 0 then Contiguous(m.rank, m.shape, size) else m.strides
  }

  /** The metadata with everything unset filled in, if that can be done. */
  function Inferred(m: Metadata): Option<Metadata> {
    if m.rank > MAX_RANK then None
    else
      var size := if m.elementSize == 0 then ElementSizeOf(m.elementType) else m.elementSize;
      if size < MIN_ELEMENT_SIZE || size > MAX_ELEMENT_SIZE then None
      else
        var payload := InferredPayload(m, size);
        if payload.None? then None
        else Some(m.(elementSize := size, payloadBytes := payload.value, strides := InferredStrides(m, size)))
  }

  /** Resolve: fill in, validate, and keep the original on any failure. */
  function Resolved(m: Metadata, maxFrameBytes: u64): (Status, Metadata) {
    var filled := Inferred(m);
    if filled.None? then (GeometryMismatch, m)
    else
      var status := ValidateFrame(filled.value, maxFrameBytes);
      if status == Ok then (Ok, filled.value) else (status, m)
  }

  method InferPayload(m: Metadata, size: u32) returns (payload: Option<u64>)
    requires m.rank <= MAX_RANK
    ensures payload == InferredPayload(m, size)
  {
    if m.payloadBytes != 0 {
      return Some(m.payloadBytes);
    }
    var elements := CountElements(m.shape, m.rank);
    if elements.None? {
      return None;
    }
    payload := CheckedMul(elements.value, size);
  }

  method InferStrides(m: Metadata, size: u32) returns (strides: Dims)
    requires m.rank <= MAX_RANK
    ensures strides == InferredStrides(m, size)
  {
    var unset := ScanStrides(m);
    if unset && m.rank > 0 {
      strides := FillContiguousStrides(m.rank, m.shape, size);
    } else {
      strides := m.strides;
    }
  }

  /** A producer's metadata, resolved in place. */
  class FrameDescription {
    var fields: Metadata

    constructor (fields: Metadata)
      ensures this.fields == fields
    {
      this.fields := fields;
    }

    method Resolve(maxFrameBytes: u64) returns (status: Status)
      modifies this
      ensures (status, fields) == Resolved(old(fields), maxFrameBytes)
    {
      if fields.rank > MAX_RANK {
        return GeometryMismatch;
      }
      var size := if fields.elementSize == 0 then ElementSizeOf(fields.elementType) else fields.elementSize;
      if size < MIN_ELEMENT_SIZE || size > MAX_ELEMENT_SIZE {
        return GeometryMismatch;
      }
      var payload := InferPayload(fields, size);
      if payload.None? {
        return GeometryMismatch;
      }
      var strides := InferStrides(fields, size);
      var resolved := fields.(elementSize := size, payloadBytes := payload.value, strides := strides);
      status := ValidateFrame(resolved, maxFrameBytes);
      if status == Ok {
        fields := resolved;
      }
    }
  }

  method ScanStrides(m: Metadata) returns (unset: bool)
    requires m.rank <= MAX_RANK
    ensures unset <==> StridesUnset(m)
  {
    var i := 0;
    while i < m.rank
      invariant 0 <= i <= m.rank && forall k :: 0 <= k < i ==> m.strides[k] == 0
    {
      if m.strides[i] != 0 {
        return false;
      }
      i := i + 1;
    }
    unset := true;
  }

  // ----- What resolving guarantees -----

  lemma {:induction false} ProductIsTail(shape: Dims, rank: nat, n: nat)
    requires n <= rank <= MAX_RANK
    ensures Product(shape, n) * Tail(shape[..rank], n) == Product(shape, rank)
    decreases rank - n
  {
    if n < rank {
      ProductIsTail(shape, rank, n + 1);
      Associate(Product(shape, n), shape[n], Tail(shape[..rank], n + 1));
      assert shape[..rank][n] == shape[n];
    }
  }

  lemma {:induction false} TailPositive(dims: seq<u64>, i: nat)
    requires i <= |dims| && forall k :: 0 <= k < |dims| ==> dims[k] > 0
    ensures Tail(dims, i) >= 1
    decreases |dims| - i
  {
    if i < |dims| {
      TailPositive(dims, i + 1);
      MixedRadix(0, dims[i], Tail(dims, i + 1), 0);
    }
  }

  lemma {:induction false} TailShrinks(dims: seq<u64>, i: nat)
    requires i <= |dims| && forall k :: 0 <= k < |dims| ==> dims[k] > 0
    ensures Tail(dims, i) <= Tail(dims, 0)
    decreases i
  {
    if i > 0 {
      TailShrinks(dims, i - 1);
      TailPositive(dims, i - 1);
      Divides(dims[i - 1], Tail(dims, i));
    }
  }

  lemma Divides(a: nat, b: nat)
    requires a * b >= 1
    ensures 1 <= b <= a * b
  {
  }

  /** A resolved frame is valid; what the producer set is kept, and only unset
      sizes, payload and strides are filled in; nothing else is touched. */
  lemma ResolveKeepsWhatWasSet(m: Metadata, maxFrameBytes: u64)
    requires Resolved(m, maxFrameBytes).0 == Ok
    ensures var r := Resolved(m, maxFrameBytes).1;
      && ValidateFrame(r, maxFrameBytes) == Ok
      && r.elementType == m.elementType && r.rank == m.rank && r.shape == m.shape
      && r.timestamp == m.timestamp && r.eventCounter == m.eventCounter && r.quality == m.quality
      && r.memoryKind == m.memoryKind && r.endian == m.endian
      && (m.elementSize != 0 ==> r.elementSize == m.elementSize)
      && (m.payloadBytes != 0 ==> r.payloadBytes == m.payloadBytes)
      && (!StridesUnset(m) ==> r.strides == m.strides)
      && (m.payloadBytes == 0 ==> r.payloadBytes == Product(m.shape, m.rank) * r.elementSize)
      && (StridesUnset(m) && m.rank > 0 ==> r.strides[m.rank - 1] == r.elementSize)
  {
    if m.rank > 0 {
      ContiguousInnermost(m.rank, m.shape, Resolved(m, maxFrameBytes).1.elementSize);
    }
  }

  /** The innermost inferred stride is the element size. */
  lemma {:induction false} ContiguousKeepsInner(shape: Dims, i: nat, stride: u64, strides: Dims, j: nat)
    requires i <= j < MAX_RANK
    ensures ContiguousFrom(shape, i, stride, strides)[j] == strides[j]
    decreases i
  {
    if i > 0 && stride * shape[i - 1] <= MAX64 {
      ContiguousKeepsInner(shape, i - 1, stride * shape[i - 1], strides[i - 1 := stride], j);
    }
  }

  lemma ContiguousInnermost(rank: u32, shape: Dims, elementSize: u32)
    requires 0 < rank <= MAX_RANK
    ensures Contiguous(rank, shape, elementSize)[rank - 1] == elementSize
  {
    var filled := [0, 0, 0, 0][rank - 1 := elementSize];
    if elementSize * shape[rank - 1] <= MAX64 {
      ContiguousKeepsInner(shape, rank - 1, elementSize * shape[rank - 1], filled, rank - 1);
    }
  }

  /** Resolving again changes nothing. */
  lemma ResolveIsStable(m: Metadata, maxFrameBytes: u64)
    requires Resolved(m, maxFrameBytes).0 == Ok
    ensures var r := Resolved(m, maxFrameBytes).1; Resolved(r, maxFrameBytes) == (Ok, r)
  {
    var r := Resolved(m, maxFrameBytes).1;
    if m.rank > 0 {
      ContiguousInnermost(m.rank, m.shape, r.elementSize);
    }
    assert StridesUnset(r) ==> r.rank == 0;
    assert Inferred(r) == Some(r);
  }

  /** For a non-empty array with unset strides, resolving gives the row-major
      layout: distinct elements are disjoint and tile the payload's elements. */
  lemma ResolvedLayoutIsRowMajor(m: Metadata, maxFrameBytes: u64)
    requires Resolved(m, maxFrameBytes).0 == Ok && StridesUnset(m) && !NoElements(m.shape, m.rank)
    ensures var r := Resolved(m, maxFrameBytes).1;
      && RowMajor(r.shape[..r.rank], r.strides, r.elementSize)
      && r.elementSize * Tail(r.shape[..r.rank], 0) == Product(r.shape, r.rank) * r.elementSize <= r.payloadBytes
  {
    var r := Resolved(m, maxFrameBytes).1;
    assert r.rank > 0 ==> r.strides == Contiguous(r.rank, r.shape, r.elementSize);
    FittingLayout(r.rank, r.shape, r.elementSize, r.payloadBytes);
  }

  /** The elements of a frame resolved with unset strides occupy disjoint bytes of
      its payload. */
  lemma ResolvedElementsDisjoint(m: Metadata, maxFrameBytes: u64, a: seq<nat>, b: seq<nat>)
    requires Resolved(m, maxFrameBytes).0 == Ok && StridesUnset(m) && !NoElements(m.shape, m.rank)
    requires InShape(a, m.shape[..m.rank]) && InShape(b, m.shape[..m.rank])
    ensures var r := Resolved(m, maxFrameBytes).1;
      && Offset(a, r.strides, |a|) + r.elementSize <= r.payloadBytes
      && (a != b ==>
            || Offset(a, r.strides, |a|) + r.elementSize <= Offset(b, r.strides, |b|)
            || Offset(b, r.strides, |b|) + r.elementSize <= Offset(a, r.strides, |a|))
  {
    var r := Resolved(m, maxFrameBytes).1;
    ResolvedLayoutIsRowMajor(m, maxFrameBytes);
    RowMajorTiles(r.shape[..r.rank], r.strides, r.elementSize, a, b);
  }

  /** And when the payload size was inferred too, they cover it: every byte of the
      payload belongs to an element. */
  lemma ResolvedPayloadTiled(m: Metadata, maxFrameBytes: u64, at: nat) returns (index: seq<nat>)
    requires Resolved(m, maxFrameBytes).0 == Ok && StridesUnset(m) && !NoElements(m.shape, m.rank)
    requires m.payloadBytes == 0 && at < Resolved(m, maxFrameBytes).1.payloadBytes
    ensures InShape(index, m.shape[..m.rank])
    ensures var r := Resolved(m, maxFrameBytes).1;
      Offset(index, r.strides, |index|) <= at < Offset(index, r.strides, |index|) + r.elementSize
  {
    var r := Resolved(m, maxFrameBytes).1;
    ResolvedLayoutIsRowMajor(m, maxFrameBytes);
    ResolveKeepsWhatWasSet(m, maxFrameBytes);
    index := EveryByteOwned(r.shape[..r.rank], r.strides, r.elementSize, at);
  }

  lemma SizeIsTail(rank: u32, shape: Dims, es: nat)
    requires rank <= MAX_RANK
    ensures es * Tail(shape[..rank], 0) == Product(shape, rank) * es
  {
    ProductIsTail(shape, rank, 0);
  }

  lemma FittingLayout(rank: u32, shape: Dims, es: u32, limit: u64)
    requires rank <= MAX_RANK && !NoElements(shape, rank) && Product(shape, rank) * es <= limit
    ensures RowMajor(shape[..rank], Contiguous(rank, shape, es), es)
    ensures es * Tail(shape[..rank], 0) == Product(shape, rank) * es
  {
    SizeIsTail(rank, shape, es);
    assert forall k :: 0 <= k < |shape[..rank]| ==> shape[..rank][k] == shape[k];
    FittingStrides(shape[..rank], es);
    ContiguousIsRowMajor(rank, shape, es);
  }

  /** A non-empty array whose size fits in 64 bits has strides that do. */
  lemma FittingStrides(dims: seq<u64>, es: nat)
    requires (forall k :: 0 <= k < |dims| ==> dims[k] > 0) && es * Tail(dims, 0) <= MAX64
    ensures StridesRepresentable(dims, es)
  {
    forall i | 1 <= i <= |dims|
      ensures es * Tail(dims, i) <= MAX64
    {
      TailShrinks(dims, i);
      ScaleBound(es, Tail(dims, i), Tail(dims, 0));
    }
  }

  lemma ScaleBound(a: nat, b: nat, c: nat)
    requires b <= c
    ensures a * b <= a * c
  {
  }

  /** An empty array can be accepted with strides that are not row-major: here the
      outermost row-major stride would be two to the 66. */
  lemma EmptyArrayMayMissRowMajor()
    ensures var big: u64 := 0x2_0000_0000;
      var m := Metadata(1, 1, 3, [0, big, big, 0], [0, 0, 0, 0], 1, 0, 0, 0, 0, 0);
      && Resolved(m, 4096).0 == Ok && StridesUnset(m)
      && !RowMajor(m.shape[..3], Resolved(m, 4096).1.strides, 1)
  {
    var big: u64 := 0x2_0000_0000;
    var shape: Dims := [0, big, big, 0];
    assert Product(shape, 1) == 0 && Product(shape, 2) == 0 && Product(shape, 3) == 0;
    assert ContiguousFrom(shape, 2, big, [0, 0, 1, 0]) == [0, big, 1, 0];
    assert Contiguous(3, shape, 1) == [0, big, 1, 0];
    assert shape[0] == 0 && NoElements(shape, 3);
    var dims := shape[..3];
    assert Tail(dims, 3) == 1 && Tail(dims, 2) == big && Tail(dims, 1) == big * big;
    assert [0, big, 1, 0][0] != 1 * Tail(dims, 0 + 1);
  }
}
