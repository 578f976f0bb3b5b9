/** Array descriptions: the shape and stride rules, the reachable span, and the
    contiguous layout a producer gets when it leaves strides unset. */
module Geometry {
  import opened Base

  const MAX_RANK: nat := 4
  const MIN_FRAME_BYTES: nat := 4096
  const MAX_FRAME_BYTES: nat := 0x1000_0000
  const MIN_RING_DEPTH: nat := 2
  const MAX_RING_DEPTH: nat := 1024
  const MIN_ELEMENT_SIZE: nat := 1
  const MAX_ELEMENT_SIZE: nat := 256

  /** One value per dimension; entries at or past the rank are unused. */
  type Dims = d: seq<u64> | |d| == MAX_RANK witness [0, 0, 0, 0]

  /** An element type as it travels; unassigned values are possible. */
  type ElementType = u32

  const UNKNOWN_TYPE: ElementType := 0

  /** Zero for the unknown type and for values that name none. */
  function ElementSizeOf(t: ElementType): u32 {
    if t == 1 || t == 2 || t == 11 then 1
    else if t == 3 || t == 4 then 2
    else if t == 5 || t == 6 || t == 9 then 4
    else if t == 7 || t == 8 || t == 10 then 8
    else 0
  }

  // ----- Shape and stride rules -----

  /** Elements described by the first `n` dimensions. */
  function Product(shape: seq<u64>, n: nat): nat
    requires n <= |shape|
  {
    if n == 0 then 1 else Product(shape, n - 1) * shape[n - 1]
  }

  /** How far the last element along the first `n` dimensions lies from the first. */
  function Reach(shape: seq<u64>, strides: seq<u64>, n: nat): int
    requires n <= |shape| && n <= |strides|
  {
    if n == 0 then 0 else Reach(shape, strides, n - 1) + ReachOf(shape[n - 1], strides[n - 1])
  }

  /** The distance between the first and the last element of one dimension. */
  function ReachOf(extent: int, stride: int): int {
    (extent - 1) * stride
  }

  /** No running element count leaves 64 bits. */
  predicate ProductsRepresentable(shape: seq<u64>, rank: nat)
    requires rank <= |shape|
  {
    forall n :: 0 <= n <= rank ==> Product(shape, n) <= MAX64
  }

  predicate NoElements(shape: seq<u64>, rank: nat)
    requires rank <= |shape|
  {
    exists i :: 0 <= i < rank && shape[i] == 0
  }

  /** Unused entries are zero. */
  predicate TailZero(rank: nat, shape: Dims, strides: Dims) {
    forall i :: rank <= i < MAX_RANK ==> shape[i] == 0 && strides[i] == 0
  }

  /** What an acceptable array description is. */
  predicate Fits(rank: u32, shape: Dims, strides: Dims, elementSize: u32, limit: u64) {
    && rank <= MAX_RANK
    && TailZero(rank, shape, strides)
    && ProductsRepresentable(shape, rank)
    && Product(shape, rank) * elementSize <= limit
    && (!NoElements(shape, rank) ==> Reach(shape, strides, rank) + elementSize <= limit)
  }

  predicate ElementSizeOk(t: ElementType, elementSize: u32) {
    && MIN_ELEMENT_SIZE <= elementSize <= MAX_ELEMENT_SIZE
    && (t != UNKNOWN_TYPE ==> ElementSizeOf(t) == elementSize)
  }

  /** A stream's geometry as it travels between peers. */
  datatype GeometryBlock = GeometryBlock(generation: u32, elementType: ElementType, elementSize: u32, rank: u32,
                                         maxFrameBytes: u64, ringDepth: u32, creditWindow: u32,
                                         shape: Dims, strides: Dims)
  {
    function Validate(): Status {
      if generation == 0 then GeometryMismatch
      else if !ElementSizeOk(elementType, elementSize) then GeometryMismatch
      else if maxFrameBytes < MIN_FRAME_BYTES || maxFrameBytes > MAX_FRAME_BYTES then FrameTooLarge
      else if ringDepth < MIN_RING_DEPTH || ringDepth > MAX_RING_DEPTH then DepthTooLarge
      else if creditWindow == 0 || creditWindow > ringDepth then DepthTooLarge
      else if Fits(rank, shape, strides, elementSize, maxFrameBytes) then Ok
      else GeometryMismatch
    }

    predicate DescribesSameArray(other: GeometryBlock) {
      && elementType == other.elementType && elementSize == other.elementSize && rank == other.rank
      && shape == other.shape && strides == other.strides
    }
  }

  lemma ReachOfNonNegative(extent: int, stride: int)
    requires extent > 0 && stride >= 0
    ensures ReachOf(extent, stride) >= 0
  {
  }

  lemma {:induction false} ReachGrows(shape: seq<u64>, strides: seq<u64>, m: nat, n: nat)
    requires m <= n <= |shape| && n <= |strides| && !NoElements(shape, n)
    ensures Reach(shape, strides, m) <= Reach(shape, strides, n)
    decreases n
  {
    if m < n {
      ReachOfNonNegative(shape[n - 1], strides[n - 1]);
      ReachGrows(shape, strides, m, n - 1);
    }
  }

  /** Whether some dimension has no extent. */
  method FindEmpty(shape: Dims, rank: u32) returns (empty: bool)
    requires rank <= MAX_RANK
    ensures empty <==> NoElements(shape, rank)
  {
    var i := 0;
    while i < rank
      invariant 0 <= i <= rank
      invariant forall k :: 0 <= k < i ==> shape[k] != 0
    {
      if shape[i] == 0 {
        return true;
      }
      i := i + 1;
    }
    empty := false;
  }

  /** The number of elements, unless a running product leaves 64 bits. */
  method CountElements(shape: Dims, rank: u32) returns (elements: Option<u64>)
    requires rank <= MAX_RANK
    ensures elements.Some? <==> ProductsRepresentable(shape, rank)
    ensures elements.Some? ==> elements.value == Product(shape, rank)
  {
    var running: u64 := 1;
    var i := 0;
    while i < rank
      invariant 0 <= i <= rank && running == Product(shape, i)
      invariant forall n :: 0 <= n <= i ==> Product(shape, n) <= MAX64
    {
      var next := CheckedMul(running, shape[i]);
      if next.None? {
        assert Product(shape, i + 1) > MAX64;
        return None;
      }
      running := next.value;
      i := i + 1;
    }
    elements := Some(running);
  }

  /** The reach of every dimension added up, unless it leaves 64 bits. */
  method AddReach(shape: Dims, strides: Dims, rank: u32) returns (span: Option<u64>)
    requires rank <= MAX_RANK && !NoElements(shape, rank)
    ensures span.Some? <==> Reach(shape, strides, rank) <= MAX64
    ensures span.Some? ==> span.value == Reach(shape, strides, rank)
  {
    var sum: u64 := 0;
    var i := 0;
    while i < rank
      invariant 0 <= i <= rank && sum == Reach(shape, strides, i)
    {
      ReachGrows(shape, strides, i + 1, rank);
      var reach := CheckedMul(shape[i] - 1, strides[i]);
      if reach.None? {
        return None;
      }
      var next := CheckedAdd(sum, reach.value);
      if next.None? {
        return None;
      }
      sum := next.value;
      i := i + 1;
    }
    span := Some(sum);
  }

  /** The overflow-checked validation accepts exactly the fitting descriptions. */
  method ValidateShapeAndStrides(rank: u32, shape: Dims, strides: Dims, elementSize: u32, limit: u64)
    returns (status: Status)
    ensures status == Ok <==> Fits(rank, shape, strides, elementSize, limit)
    ensures status == Ok || status == GeometryMismatch
  {
    status := GeometryMismatch;
    if rank > MAX_RANK {
      return;
    }
    assert !NoElements(shape, rank) ==> Reach(shape, strides, rank) >= 0 by {
      if !NoElements(shape, rank) {
        ReachGrows(shape, strides, 0, rank);
      }
    }
    var i := rank;
    while i < MAX_RANK
      invariant rank <= i <= MAX_RANK
      invariant forall k :: rank <= k < i ==> shape[k] == 0 && strides[k] == 0
    {
      if shape[i] != 0 || strides[i] != 0 {
        return;
      }
      i := i + 1;
    }
    var elements := CountElements(shape, rank);
    if elements.None? {
      return;
    }
    var described := CheckedMul(elements.value, elementSize);
    if described.None? || described.value > limit {
      return;
    }
    var empty := FindEmpty(shape, rank);
    if !empty {
      var span := AddReach(shape, strides, rank);
      if span.None? {
        return;
      }
      var whole := CheckedAdd(span.value, elementSize);
      if whole.None? || whole.value > limit {
        return;
      }
    }
    assert Product(shape, rank) * elementSize <= limit;
    status := Ok;
  }

  // ----- Every index tuple stays inside -----

  ghost predicate IsTuple(index: seq<nat>, shape: seq<u64>, rank: nat)
    requires rank <= |shape|
  {
    |index| == rank && forall i :: 0 <= i < rank ==> index[i] < shape[i]
  }

  /** Where element `index` starts, over the first `n` dimensions. */
  function Offset(index: seq<nat>, strides: seq<u64>, n: nat): nat
    requires n <= |index| && n <= |strides|
  {
    if n == 0 then 0 else Offset(index, strides, n - 1) + index[n - 1] * strides[n - 1]
  }

  lemma StepWithinReach(i: nat, extent: nat, stride: nat)
    requires i < extent
    ensures i * stride <= ReachOf(extent, stride)
  {
  }

  lemma {:induction false} OffsetWithinReach(index: seq<nat>, shape: seq<u64>, strides: seq<u64>, n: nat)
    requires n <= |index| && n <= |shape| && n <= |strides|
    requires forall i :: 0 <= i < n ==> index[i] < shape[i]
    ensures Offset(index, strides, n) <= Reach(shape, strides, n)
  {
    if n > 0 {
      OffsetWithinReach(index, shape, strides, n - 1);
      StepWithinReach(index[n - 1], shape[n - 1], strides[n - 1]);
    }
  }

  /** The corner tuple: the last element along every dimension. */
  ghost function Corner(shape: seq<u64>, rank: nat): seq<nat>
    requires rank <= |shape| && !NoElements(shape, rank)
  {
    seq(rank, i requires 0 <= i < rank => if shape[i] > 0 then shape[i] - 1 else 0)
  }

  lemma {:induction false} CornerReaches(shape: seq<u64>, strides: seq<u64>, rank: nat, n: nat)
    requires n <= rank <= |shape| && n <= |strides| && !NoElements(shape, rank)
    ensures Offset(Corner(shape, rank), strides, n) == Reach(shape, strides, n)
  {
    if n > 0 {
      CornerReaches(shape, strides, rank, n - 1);
    }
  }

  /** An accepted description puts every element wholly inside the limit, and no
      partial offset leaves 64 bits. */
  lemma ElementsInBounds(rank: u32, shape: Dims, strides: Dims, elementSize: u32, limit: u64, index: seq<nat>, n: nat)
    requires Fits(rank, shape, strides, elementSize, limit) && IsTuple(index, shape, rank) && n <= rank
    ensures Offset(index, strides, rank) + elementSize <= limit
    ensures Offset(index, strides, n) <= MAX64
  {
    OffsetWithinReach(index, shape, strides, rank);
    OffsetWithinReach(index, shape, strides, n);
    ReachGrows(shape, strides, n, rank);
  }

  // ----- The reachable span -----

  /** 64-bit multiplication as the machine does it. */
  function WrapMul(a: nat, b: nat): u64 {
    (a * b) % (MAX64 + 1)
  }

  lemma WrapMulExact(a: nat, b: nat)
    requires a * b <= MAX64
    ensures WrapMul(a, b) == a * b
  {
    DivModUnique(a * b, MAX64 + 1, 0, a * b);
  }

  lemma {:induction false} ReachTerm(shape: seq<u64>, strides: seq<u64>, i: nat, n: nat)
    requires i < n <= |shape| && n <= |strides| && !NoElements(shape, n)
    ensures 0 <= Reach(shape, strides, i) && 0 <= ReachOf(shape[i], strides[i])
    ensures Reach(shape, strides, i) + ReachOf(shape[i], strides[i]) <= Reach(shape, strides, n)
  {
    ReachOfNonNegative(shape[i], strides[i]);
    ReachGrows(shape, strides, i + 1, n);
    ReachGrows(shape, strides, 0, i);
  }

  /** The span's products are not checked for overflow; after validation none can
      overflow, so the result is the end of the last element exactly. */
  method ReachableSpan(g: GeometryBlock) returns (span: u64)
    ensures g.Validate() != Ok || NoElements(g.shape, g.rank) ==> span == 0
    ensures g.Validate() == Ok && !NoElements(g.shape, g.rank) ==>
      span == Reach(g.shape, g.strides, g.rank) + g.elementSize <= g.maxFrameBytes
  {
    if g.Validate() != Ok {
      return 0;
    }
    var empty := FindEmpty(g.shape, g.rank);
    if empty {
      return 0;
    }
    span := g.elementSize;
    var i := 0;
    while i < g.rank
      invariant 0 <= i <= g.rank && span == g.elementSize + Reach(g.shape, g.strides, i)
    {
      ReachTerm(g.shape, g.strides, i, g.rank);
      WrapMulExact(g.shape[i] - 1, g.strides[i]);
      var reach := WrapMul(g.shape[i] - 1, g.strides[i]);
      if span > MAX64 - reach {
        assert false;                       // the guard against overflow never fires
      }
      span := span + reach;
      i := i + 1;
    }
  }

  /** The span is tight: some element ends there and none ends later. */
  lemma SpanIsTight(rank: u32, shape: Dims, strides: Dims, elementSize: u32, limit: u64, index: seq<nat>)
    requires Fits(rank, shape, strides, elementSize, limit) && !NoElements(shape, rank)
    ensures IsTuple(Corner(shape, rank), shape, rank)
    ensures Offset(Corner(shape, rank), strides, rank) == Reach(shape, strides, rank)
    ensures IsTuple(index, shape, rank) ==> Offset(index, strides, rank) <= Reach(shape, strides, rank)
  {
    CornerReaches(shape, strides, rank, rank);
    if IsTuple(index, shape, rank) {
      OffsetWithinReach(index, shape, strides, rank);
    }
  }

  // ----- Row-major layout -----

  /** Elements spanned by dimensions `i` and later. */
  function Tail(shape: seq<u64>, i: nat): nat
    requires i <= |shape|
    decreases |shape| - i
  {
    if i == |shape| then 1 else shape[i] * Tail(shape, i + 1)
  }

  /** The position of an element in row-major order, over dimensions `i` and later. */
  function Position(index: seq<nat>, shape: seq<u64>, i: nat): nat
    requires |index| == |shape| && i <= |shape|
    decreases |shape| - i
  {
    if i == |shape| then 0 else index[i] * Tail(shape, i + 1) + Position(index, shape, i + 1)
  }

  ghost predicate InShape(index: seq<nat>, shape: seq<u64>) {
    |index| == |shape| && forall i :: 0 <= i < |shape| ==> index[i] < shape[i]
  }

  lemma MixedRadix(d: nat, extent: nat, base: nat, r: nat)
    requires d < extent && r < base
    ensures d * base + r < extent * base
  {
    assert extent * base == (extent - d - 1) * base + d * base + base;
    assert (extent - d - 1) * base >= 0;
  }

  lemma {:induction false} PositionBounded(index: seq<nat>, shape: seq<u64>, i: nat)
    requires InShape(index, shape) && i <= |shape|
    ensures Position(index, shape, i) < Tail(shape, i)
    decreases |shape| - i
  {
    if i < |shape| {
      PositionBounded(index, shape, i + 1);
      MixedRadix(index[i], shape[i], Tail(shape, i + 1), Position(index, shape, i + 1));
    }
  }

  /** An element's leading index and the rest of its position, recovered. */
  lemma PositionSplits(index: seq<nat>, shape: seq<u64>, i: nat)
    requires InShape(index, shape) && i < |shape|
    ensures Tail(shape, i + 1) > 0
    ensures Position(index, shape, i) / Tail(shape, i + 1) == index[i]
    ensures Position(index, shape, i) % Tail(shape, i + 1) == Position(index, shape, i + 1)
  {
    PositionBounded(index, shape, i + 1);
    DivModUnique(Position(index, shape, i), Tail(shape, i + 1), index[i], Position(index, shape, i + 1));
  }

  lemma {:induction false} PositionInjective(a: seq<nat>, b: seq<nat>, shape: seq<u64>, i: nat)
    requires InShape(a, shape) && InShape(b, shape) && i <= |shape|
    requires Position(a, shape, i) == Position(b, shape, i)
    ensures a[i..] == b[i..]
    decreases |shape| - i
  {
    if i < |shape| {
      PositionSplits(a, shape, i);
      PositionSplits(b, shape, i);
      PositionInjective(a, b, shape, i + 1);
      assert a[i..] == [a[i]] + a[i + 1..] && b[i..] == [b[i]] + b[i + 1..];
    }
  }

  /** The element at a given row-major position. */
  function TupleAt(shape: seq<u64>, i: nat, k: nat): seq<nat>
    requires i <= |shape| && k < Tail(shape, i)
    decreases |shape| - i
  {
    if i == |shape| then []
    else
      var base := Tail(shape, i + 1);
      TupleStep(shape, i, k);
      [k / base] + TupleAt(shape, i + 1, k % base)
  }

  lemma TupleStep(shape: seq<u64>, i: nat, k: nat)
    requires i < |shape| && k < Tail(shape, i)
    ensures Tail(shape, i + 1) > 0
    ensures k / Tail(shape, i + 1) < shape[i]
  {
    QuotientBelow(k, Tail(shape, i + 1), shape[i]);
  }

  /** Every position below the element count is some element's. */
  lemma {:induction false} TupleAtPosition(shape: seq<u64>, i: nat, k: nat, index: seq<nat>)
    requires i <= |shape| == |index| && k < Tail(shape, i) && index[i..] == TupleAt(shape, i, k)
    ensures forall j :: i <= j < |shape| ==> index[j] < shape[j]
    ensures Position(index, shape, i) == k
    decreases |shape| - i
  {
    if i < |shape| {
      var base := Tail(shape, i + 1);
      TupleStep(shape, i, k);
      assert index[i] == index[i..][0] && index[i + 1..] == index[i..][1..];
      TupleAtPosition(shape, i + 1, k % base, index);
    }
  }

  lemma {:induction false} TupleAtLength(shape: seq<u64>, i: nat, k: nat)
    requires i <= |shape| && k < Tail(shape, i)
    ensures |TupleAt(shape, i, k)| == |shape| - i
    decreases |shape| - i
  {
    if i < |shape| {
      TupleStep(shape, i, k);
      TupleAtLength(shape, i + 1, k % Tail(shape, i + 1));
    }
  }

  /** Each dimension's stride is the size of everything inside it. */
  ghost predicate RowMajor(shape: seq<u64>, strides: seq<u64>, elementSize: nat) {
    |strides| >= |shape| && forall i :: 0 <= i < |shape| ==> strides[i] == elementSize * Tail(shape, i + 1)
  }

  /** Byte offset over dimensions `i` and later. */
  function OffsetFrom(index: seq<nat>, strides: seq<u64>, i: nat): nat
    requires i <= |index| <= |strides|
    decreases |index| - i
  {
    if i == |index| then 0 else index[i] * strides[i] + OffsetFrom(index, strides, i + 1)
  }

  lemma {:induction false} OffsetSplits(index: seq<nat>, strides: seq<u64>, n: nat)
    requires n <= |index| <= |strides|
    ensures Offset(index, strides, |index|) == Offset(index, strides, n) + OffsetFrom(index, strides, n)
    decreases |index| - n
  {
    if n < |index| {
      OffsetSplits(index, strides, n + 1);
    }
  }

  lemma Distribute(a: nat, es: nat, t: nat, r: nat)
    ensures a * (es * t) + es * r == es * (a * t + r)
  {
  }

  /** Row-major offsets are element positions scaled by the element size. */
  lemma {:induction false} RowMajorOffset(index: seq<nat>, shape: seq<u64>, strides: seq<u64>, elementSize: nat, i: nat)
    requires RowMajor(shape, strides, elementSize) && |index| == |shape| && i <= |shape|
    ensures OffsetFrom(index, strides, i) == elementSize * Position(index, shape, i)
    decreases |shape| - i
  {
    if i < |shape| {
      RowMajorOffset(index, shape, strides, elementSize, i + 1);
      Distribute(index[i], elementSize, Tail(shape, i + 1), Position(index, shape, i + 1));
    }
  }

  lemma ScaledApart(es: nat, a: nat, b: nat)
    requires a < b
    ensures es * a + es <= es * b
  {
    assert es * (b - a) == es * b - es * a;
    assert es * (b - a - 1) >= 0;
  }

  /** In a row-major array distinct elements occupy disjoint bytes, all inside the
      elements-times-size payload, and every byte of that payload is some element's. */
  lemma RowMajorTiles(shape: seq<u64>, strides: seq<u64>, elementSize: nat, a: seq<nat>, b: seq<nat>)
    requires RowMajor(shape, strides, elementSize) && InShape(a, shape) && InShape(b, shape)
    ensures Offset(a, strides, |a|) + elementSize <= elementSize * Tail(shape, 0)
    ensures a != b ==>
      || Offset(a, strides, |a|) + elementSize <= Offset(b, strides, |b|)
      || Offset(b, strides, |b|) + elementSize <= Offset(a, strides, |a|)
  {
    OffsetSplits(a, strides, 0);
    OffsetSplits(b, strides, 0);
    RowMajorOffset(a, shape, strides, elementSize, 0);
    RowMajorOffset(b, shape, strides, elementSize, 0);
    PositionBounded(a, shape, 0);
    var p, q := Position(a, shape, 0), Position(b, shape, 0);
    ScaledApart(elementSize, p, Tail(shape, 0));
    if p == q {
      PositionInjective(a, b, shape, 0);
      assert a[0..] == a && b[0..] == b;
    } else {
      ScaledApart(elementSize, Min(p, q), Max(p, q));
    }
  }

  /** The element that owns byte `at` of a row-major payload. */
  lemma EveryByteOwned(shape: seq<u64>, strides: seq<u64>, elementSize: nat, at: nat) returns (index: seq<nat>)
    requires RowMajor(shape, strides, elementSize) && at < elementSize * Tail(shape, 0)
    ensures InShape(index, shape)
    ensures Offset(index, strides, |index|) <= at < Offset(index, strides, |index|) + elementSize
  {
    QuotientBelow(at, elementSize, Tail(shape, 0));
    var k := at / elementSize;
    assert at == elementSize * k + at % elementSize;
    index := TupleAt(shape, 0, k);
    TupleAtLength(shape, 0, k);
    assert index[0..] == index;
    TupleAtPosition(shape, 0, k, index);
    OffsetSplits(index, strides, 0);
    RowMajorOffset(index, shape, strides, elementSize, 0);
  }
}
