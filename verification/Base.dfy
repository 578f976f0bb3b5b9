/** Vocabulary shared by every component: machine widths, options, and the
    modular arithmetic that ring indexing rests on. */
module Base {

  const MAX64: nat := 0xFFFF_FFFF_FFFF_FFFF
  const MAX32: nat := 0xFFFF_FFFF

  type u64 = x: nat | x <= MAX64
  type u32 = x: nat | x <= MAX32

  datatype Option<+T> = None | Some(value: T)

  /** The status codes the library reports, in wire order. */
  datatype Status =
    | Ok | UnsupportedVersion | UnknownStream | UnknownSession | SessionExpired | TooManySessions
    | FrameTooLarge | DepthTooLarge | ResourceExhausted | MalformedMessage | NotAuthorized
    | TransportFailure | GeometryMismatch | RenewTooFrequent | Shutdown | Internal

  function Min(a: nat, b: nat): nat {
    if a <= b then a else b
  }

  function Max(a: nat, b: nat): nat {
    if a <= b then b else a
  }

  /** 64-bit addition that reports overflow instead of wrapping. */
  function CheckedAdd(a: u64, b: u64): (r: Option<u64>)
    ensures r.Some? <==> a + b <= MAX64
    ensures r.Some? ==> r.value == a + b
  {
    if b > MAX64 - a then None else Some(a + b)
  }

  /** 64-bit multiplication that reports overflow instead of wrapping. */
  function CheckedMul(a: u64, b: u64): (r: Option<u64>)
    ensures r.Some? <==> a * b <= MAX64
    ensures r.Some? ==> r.value == a * b
  {
    if a * b > MAX64 then None else Some(a * b)
  }

  /** A multiple of `d` strictly between `-d` and `d` is zero. */
  lemma SmallMultiple(d: nat, k: int)
    requires 0 - d < d * k < d
    ensures k == 0
  {
    assert k >= 1 ==> d * k >= d;
    assert k <= -1 ==> d * k <= -1 * d;
  }

  /** Quotient and remainder are the only ones that fit. */
  lemma DivModUnique(x: nat, d: nat, q: nat, r: nat)
    requires r < d && x == d * q + r
    ensures x / d == q && x % d == r
  {
    assert x == d * (x / d) + x % d;
    assert d * (x / d - q) == r - x % d;
    SmallMultiple(d, x / d - q);
  }

  lemma QuotientBelow(k: nat, base: nat, extent: nat)
    requires k < extent * base
    ensures base > 0 && k / base < extent
  {
    assert base > 0;
    var q := k / base;
    assert k == base * q + k % base;
    assert q >= extent ==> base * q >= base * extent;
  }

  /** Two numbers less than a ring apart that share a ring index are equal. */
  lemma RingIndexUnique(a: nat, b: nat, depth: nat)
    requires depth > 0
    requires a <= b < a + depth
    requires a % depth == b % depth
    ensures a == b
  {
    assert a == depth * (a / depth) + a % depth;
    assert b == depth * (b / depth) + b % depth;
    assert depth * (b / depth - a / depth) == b - a;
    SmallMultiple(depth, b / depth - a / depth);
  }

  /** One full turn of the ring comes back to the same index. */
  lemma RingIndexPeriod(a: nat, depth: nat)
    requires depth > 0
    ensures (a + depth) % depth == a % depth
  {
    assert a == depth * (a / depth) + a % depth;
    assert depth * (a / depth + 1) == depth * (a / depth) + depth;
    DivModUnique(a + depth, depth, a / depth + 1, a % depth);
  }

  /** A finite set of numbers inside an interval is no larger than the interval. */
  lemma {:induction false} IntervalCardinality(s: set<nat>, lo: nat, hi: nat)
    requires lo <= hi
    requires forall x :: x in s ==> lo <= x < hi
    ensures |s| <= hi - lo
    decreases hi - lo
  {
    if lo == hi {
      assert s == {};
    } else {
      var rest := s - {lo};
      IntervalCardinality(rest, lo + 1, hi);
      assert lo in s ==> |s| == |rest| + 1;
      assert lo !in s ==> rest == s;
    }
  }

  /** Distinct queue entries and a disjoint set of numbers fit their interval. */
  lemma {:induction false} DistinctFitInterval(q: seq<nat>, v: set<nat>, lo: nat, hi: nat)
    requires lo <= hi
    requires forall i, j :: 0 <= i < j < |q| ==> q[i] != q[j]
    requires forall s :: s in q || s in v ==> lo <= s < hi
    requires forall s :: s in q ==> s !in v
    ensures |q| + |v| <= hi - lo
  {
    if q == [] {
      IntervalCardinality(v, lo, hi);
    } else {
      assert q[0] in q;
      forall s | s in q[1..]
        ensures s in q && s !in v + {q[0]}
      {
      }
      DistinctFitInterval(q[1..], v + {q[0]}, lo, hi);
    }
  }
}
