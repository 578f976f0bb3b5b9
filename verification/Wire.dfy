/** Little-endian integers in byte buffers. */
module Wire {
  import opened Base

  type byte = x: nat | x < 256

  function Pow256(n: nat): (p: nat)
    ensures p > 0
  {
    if n == 0 then 1 else 256 * Pow256(n - 1)
  }

  /** `v` as `n` bytes, least significant first. */
  function LittleEndian(n: nat, v: nat): (b: seq<byte>)
    ensures |b| == n
  {
    if n == 0 then [] else [v % 256] + LittleEndian(n - 1, v / 256)
  }

  function Value(b: seq<byte>): nat {
    if b == [] then 0 else b[0] + 256 * Value(b[1..])
  }

  /** Reading back what was written. */
  lemma {:induction false} ValueOfLittleEndian(n: nat, v: nat)
    requires v < Pow256(n)
    ensures Value(LittleEndian(n, v)) == v
  {
    if n > 0 {
      ValueOfLittleEndian(n - 1, v / 256);
      assert LittleEndian(n, v)[1..] == LittleEndian(n - 1, v / 256);
    }
  }

  /** Writing back what was read: the two are inverse both ways. */
  lemma {:induction false} LittleEndianOfValue(b: seq<byte>)
    ensures Value(b) < Pow256(|b|) && LittleEndian(|b|, Value(b)) == b
  {
    if b != [] {
      LittleEndianOfValue(b[1..]);
      assert Value(b) % 256 == b[0] && Value(b) / 256 == Value(b[1..]);
      assert b == [b[0]] + b[1..];
    }
  }

  lemma Widths()
    ensures Pow256(1) == 256 && Pow256(2) == 0x1_0000 && Pow256(4) == MAX32 + 1 && Pow256(8) == MAX64 + 1
  {
    assert Pow256(3) == 256 * Pow256(2);
    assert Pow256(5) == 256 * Pow256(4) && Pow256(6) == 256 * Pow256(5) && Pow256(7) == 256 * Pow256(6);
  }

  function Slice(b: seq<byte>, off: nat, n: nat): (s: seq<byte>)
    requires off + n <= |b|
    ensures |s| == n
  {
    b[off..off + n]
  }

  function Get(b: seq<byte>, off: nat, n: nat): nat
    requires off + n <= |b|
  {
    Value(Slice(b, off, n))
  }

  /** All fields at once. */
  lemma ReadsAll(pieces: seq<seq<byte>>)
    ensures forall i :: 0 <= i < |pieces| ==>
      && At(pieces, i + 1) == At(pieces, i) + |pieces[i]| <= |Concat(pieces)|
      && Slice(Concat(pieces), At(pieces, i), |pieces[i]|) == pieces[i]
    ensures |Concat(pieces)| == At(pieces, |pieces|)
  {
    PrefixOfConcat(pieces, |pieces|);
    forall i | 0 <= i < |pieces|
      ensures At(pieces, i + 1) == At(pieces, i) + |pieces[i]| <= |Concat(pieces)|
      ensures Slice(Concat(pieces), At(pieces, i), |pieces[i]|) == pieces[i]
    {
      Reads(pieces, i);
    }
  }

  predicate Holds(n: nat, v: nat) {
    (n == 1 && v < 256) || (n == 2 && v < 0x1_0000) || (n == 4 && v <= MAX32) || (n == 8 && v <= MAX64)
  }

  /** Every in-range integer reads back as itself. */
  lemma IntegersRead()
    ensures forall n: nat, v: nat :: Holds(n, v) ==> Value(LittleEndian(n, v)) == v
  {
    forall n: nat, v: nat | Holds(n, v)
      ensures Value(LittleEndian(n, v)) == v
    {
      Widths();
      ValueOfLittleEndian(n, v);
    }
  }

  // ----- Fields laid end to end -----

  function Concat(pieces: seq<seq<byte>>): seq<byte> {
    if pieces == [] then [] else Concat(pieces[..|pieces| - 1]) + pieces[|pieces| - 1]
  }

  /** Where the `i`-th field starts. */
  function At(pieces: seq<seq<byte>>, i: nat): nat
    requires i <= |pieces|
  {
    if i == 0 then 0 else At(pieces, i - 1) + |pieces[i - 1]|
  }

  lemma {:induction false} PrefixOfConcat(pieces: seq<seq<byte>>, i: nat)
    requires i <= |pieces|
    ensures At(pieces, i) <= |Concat(pieces)|
    ensures Concat(pieces)[..At(pieces, i)] == Concat(pieces[..i])
    ensures |Concat(pieces)| == At(pieces, |pieces|)
    decreases |pieces|
  {
    if pieces != [] {
      var front := pieces[..|pieces| - 1];
      SameAt(pieces, front, |front|);
      PrefixOfConcat(front, |front|);
      if i < |pieces| {
        SameAt(pieces, front, i);
        PrefixOfConcat(front, i);
        assert front[..i] == pieces[..i];
      } else {
        assert pieces[..i] == pieces;
      }
    }
  }

  lemma {:induction false} SameAt(a: seq<seq<byte>>, b: seq<seq<byte>>, i: nat)
    requires i <= |a| && i <= |b| && a[..i] == b[..i]
    ensures At(a, i) == At(b, i)
  {
    if i > 0 {
      assert a[..i - 1] == a[..i][..i - 1] && b[..i - 1] == b[..i][..i - 1];
      assert a[i - 1] == a[..i][i - 1] && b[i - 1] == b[..i][i - 1];
      SameAt(a, b, i - 1);
    }
  }

  /** The `i`-th field can be read back at its offset. */
  lemma Reads(pieces: seq<seq<byte>>, i: nat)
    requires i < |pieces|
    ensures At(pieces, i + 1) == At(pieces, i) + |pieces[i]| <= |Concat(pieces)|
    ensures Slice(Concat(pieces), At(pieces, i), |pieces[i]|) == pieces[i]
    ensures |Concat(pieces)| == At(pieces, |pieces|)
  {
    PrefixOfConcat(pieces, i);
    PrefixOfConcat(pieces, i + 1);
    var whole, upTo := Concat(pieces), pieces[..i + 1];
    assert upTo[..|upTo| - 1] == pieces[..i] && upTo[i] == pieces[i];
    assert whole[..At(pieces, i + 1)] == Concat(pieces[..i]) + pieces[i];
    assert Slice(whole, At(pieces, i), |pieces[i]|) == whole[..At(pieces, i + 1)][At(pieces, i)..];
  }

  // ----- The byte loops -----

  lemma {:induction false} LittleEndianAt(n: nat, v: nat, i: nat)
    requires i < n
    ensures LittleEndian(n, v)[i] == (v / Pow256(i)) % 256
    decreases n
  {
    if i > 0 {
      LittleEndianAt(n - 1, v / 256, i - 1);
      DivideTwice(v, i);
    }
  }

  lemma DivideTwice(v: nat, i: nat)
    requires i > 0
    ensures (v / 256) / Pow256(i - 1) == v / Pow256(i)
  {
    var p := Pow256(i - 1);
    var q, r := (v / 256) / p, (v / 256) % p;
    assert v / 256 == p * q + r;
    assert v == 256 * (v / 256) + v % 256;
    assert 256 * (p * q + r) == (256 * p) * q + 256 * r;
    DivModUnique(v, 256 * p, q, 256 * r + v % 256);
  }

  /** Store a value one byte at a time, by shifting. */
  method PutLoop(p: array<byte>, off: nat, n: nat, v: nat)
    requires off + n <= p.Length && Holds(n, v)
    modifies p
    ensures p[..] == old(p[..off]) + LittleEndian(n, v) + old(p[off + n..])
  {
    var i := 0;
    while i < n
      invariant 0 <= i <= n
      invariant forall k :: 0 <= k < i ==> p[off + k] == LittleEndian(n, v)[k]
      invariant forall k :: 0 <= k < p.Length && !(off <= k < off + i) ==> p[k] == old(p[k])
    {
      LittleEndianAt(n, v, i);
      p[off + i] := (v / Pow256(i)) % 256;
      i := i + 1;
    }
  }

  lemma ShiftIn(weight: nat, low: nat, high: nat)
    ensures weight * (low + 256 * high) == low * weight + (256 * weight) * high
  {
  }

  lemma TakeByte(rest: seq<byte>, i: nat)
    requires rest != []
    ensures Pow256(i) * Value(rest) == rest[0] * Pow256(i) + Pow256(i + 1) * Value(rest[1..])
  {
    ShiftIn(Pow256(i), rest[0], Value(rest[1..]));
  }

  /** Read a value one byte at a time, accumulating shifted bytes. */
  method GetLoop(b: seq<byte>, off: nat, n: nat) returns (v: nat)
    requires off + n <= |b|
    ensures v == Get(b, off, n)
  {
    v := 0;
    var i := 0;
    while i < n
      invariant 0 <= i <= n
      invariant v + Pow256(i) * Value(b[off + i..off + n]) == Get(b, off, n)
    {
      TakeByte(b[off + i..off + n], i);
      assert b[off + i..off + n][1..] == b[off + i + 1..off + n];
      v := v + b[off + i] * Pow256(i);
      i := i + 1;
    }
    assert b[off + i..off + n] == [];
  }
}
