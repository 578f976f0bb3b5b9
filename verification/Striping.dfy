/** Shard striping: where each block of frames goes, how long each shard is, and how
    the master view puts the frames back in order. */
module Striping {
  import opened Base

  datatype Options = Options(frames: nat, framesPerBlock: nat, writers: nat, blocksPerStripe: nat) {
    predicate Valid() {
      framesPerBlock > 0 && writers > 0 && blocksPerStripe > 0 && frames % framesPerBlock == 0
    }

    function Blocks(): nat
      requires Valid()
    {
      frames / framesPerBlock
    }
  }

  datatype Location = Location(writer: nat, localBlock: nat)

  /** Unit `r` of group `q`, when groups have `size` units. */
  function Weave(q: nat, size: nat, r: nat): nat {
    q * size + r
  }

  lemma Unweave(q: nat, size: nat, r: nat)
    requires r < size
    ensures Weave(q, size, r) / size == q && Weave(q, size, r) % size == r
  {
    DivModUnique(Weave(q, size, r), size, q, r);
  }

  lemma Rewoven(x: nat, size: nat)
    requires size > 0
    ensures Weave(x / size, size, x % size) == x
  {
    assert x == size * (x / size) + x % size;
  }

  function Locate(o: Options, block: nat): (l: Location)
    requires o.Valid()
    ensures l.writer < o.writers
  {
    var stripe := block / o.blocksPerStripe;
    Location(stripe % o.writers, Weave(stripe / o.writers, o.blocksPerStripe, block % o.blocksPerStripe))
  }

  /** How many of the first `n` blocks go to writer `w`. */
  function Count(o: Options, w: nat, n: nat): nat
    requires o.Valid()
  {
    if n == 0 then 0 else Count(o, w, n - 1) + (if Locate(o, n - 1).writer == w then 1 else 0)
  }

  // ----- The closed form of the count -----

  /** How many of the first `stripes` whole stripes go to writer `w`. */
  function StripesOf(o: Options, w: nat, stripes: nat): nat
    requires o.Valid()
  {
    stripes / o.writers + (if w < stripes % o.writers then 1 else 0)
  }

  /** One more step of division. */
  lemma Successor(x: nat, d: nat)
    requires d > 0
    ensures x % d + 1 < d ==> (x + 1) / d == x / d && (x + 1) % d == x % d + 1
    ensures x % d + 1 == d ==> (x + 1) / d == x / d + 1 && (x + 1) % d == 0
  {
    assert x == d * (x / d) + x % d;
    if x % d + 1 < d {
      DivModUnique(x + 1, d, x / d, x % d + 1);
    } else {
      assert d * (x / d + 1) == d * (x / d) + d;
      DivModUnique(x + 1, d, x / d + 1, 0);
    }
  }

  lemma NextStripe(o: Options, w: nat, s: nat)
    requires o.Valid() && w < o.writers
    ensures StripesOf(o, w, s + 1) == StripesOf(o, w, s) + (if s % o.writers == w then 1 else 0)
  {
    Successor(s, o.writers);
  }

  function ClosedCount(o: Options, w: nat, n: nat): nat
    requires o.Valid()
  {
    var stripe := n / o.blocksPerStripe;
    StripesOf(o, w, stripe) * o.blocksPerStripe
    + (if stripe % o.writers == w then n % o.blocksPerStripe else 0)
  }

  lemma ClosedCountStep(o: Options, w: nat, n: nat)
    requires o.Valid() && w < o.writers
    ensures ClosedCount(o, w, n + 1) == ClosedCount(o, w, n) + (if Locate(o, n).writer == w then 1 else 0)
  {
    var size, stripe := o.blocksPerStripe, n / o.blocksPerStripe;
    Successor(n, size);
    if n % size + 1 == size {
      NextStripe(o, w, stripe);
      var before := StripesOf(o, w, stripe);
      assert (before + 1) * size == before * size + size;
    }
  }

  lemma {:induction false} CountIsClosed(o: Options, w: nat, n: nat)
    requires o.Valid() && w < o.writers
    ensures Count(o, w, n) == ClosedCount(o, w, n)
  {
    if n == 0 {
      ZeroDivides(o.blocksPerStripe);
      ZeroDivides(o.writers);
    } else {
      CountIsClosed(o, w, n - 1);
      ClosedCountStep(o, w, n - 1);
    }
  }

  lemma ZeroDivides(d: nat)
    requires d > 0
    ensures 0 / d == 0 && 0 % d == 0
  {
    DivModUnique(0, d, 0, 0);
  }

  /** A block's place in its shard is the number of earlier blocks sent there. */
  lemma LocalIsCount(o: Options, block: nat)
    requires o.Valid()
    ensures Locate(o, block).localBlock == Count(o, Locate(o, block).writer, block)
  {
    CountIsClosed(o, Locate(o, block).writer, block);
  }

  // ----- One-to-one onto dense shards -----

  lemma {:induction false} CountGrows(o: Options, w: nat, a: nat, b: nat)
    requires o.Valid() && a <= b
    ensures Count(o, w, a) <= Count(o, w, b)
  {
    if a < b {
      CountGrows(o, w, a, b - 1);
    }
  }

  /** No two blocks share a place. */
  lemma LocateInjective(o: Options, a: nat, b: nat)
    requires o.Valid() && Locate(o, a) == Locate(o, b)
    ensures a == b
  {
    var lo, hi := Min(a, b), Max(a, b);
    LocalIsCount(o, lo);
    LocalIsCount(o, hi);
    if lo < hi {
      CountGrows(o, Locate(o, lo).writer, lo + 1, hi);
    }
  }

  /** Every place below a shard's count is some block's: shards have no holes. */
  lemma {:induction false} ShardsAreDense(o: Options, w: nat, n: nat, k: nat) returns (block: nat)
    requires o.Valid() && k < Count(o, w, n)
    ensures block < n && Locate(o, block) == Location(w, k)
  {
    if k < Count(o, w, n - 1) {
      block := ShardsAreDense(o, w, n - 1, k);
    } else {
      block := n - 1;
      LocalIsCount(o, n - 1);
    }
  }

  /** Every block's place is below its shard's count. */
  lemma LocateWithinShard(o: Options, block: nat, n: nat)
    requires o.Valid() && block < n
    ensures Locate(o, block).localBlock < Count(o, Locate(o, block).writer, n)
  {
    LocalIsCount(o, block);
    CountGrows(o, Locate(o, block).writer, block + 1, n);
  }

  /** The blocks of the first `w` writers together. */
  function Total(o: Options, w: nat, n: nat): nat
    requires o.Valid()
  {
    if w == 0 then 0 else Total(o, w - 1, n) + Count(o, w - 1, n)
  }

  lemma {:induction false} TotalStep(o: Options, w: nat, n: nat)
    requires o.Valid()
    ensures Total(o, w, n + 1) == Total(o, w, n) + (if Locate(o, n).writer < w then 1 else 0)
  {
    if w > 0 {
      TotalStep(o, w - 1, n);
    }
  }

  lemma {:induction false} TotalOfNone(o: Options, w: nat)
    requires o.Valid()
    ensures Total(o, w, 0) == 0
  {
    if w > 0 {
      TotalOfNone(o, w - 1);
    }
  }

  /** The shards together hold every block once. */
  lemma {:induction false} CountsSumToTotal(o: Options, n: nat)
    requires o.Valid()
    ensures Total(o, o.writers, n) == n
  {
    if n == 0 {
      TotalOfNone(o, o.writers);
    } else {
      CountsSumToTotal(o, n - 1);
      TotalStep(o, o.writers, n - 1);
    }
  }

  /** The shard lengths in frames, found by walking the blocks. */
  method LocalFrameCounts(o: Options) returns (result: seq<nat>)
    requires o.Valid()
    ensures |result| == o.writers
    ensures forall w :: 0 <= w < o.writers ==> result[w] == Count(o, w, o.Blocks()) * o.framesPerBlock
  {
    result := seq(o.writers, i => 0);
    var block := 0;
    while block < o.Blocks()
      invariant 0 <= block <= o.Blocks() && |result| == o.writers
      invariant forall w :: 0 <= w < o.writers ==> result[w] == Count(o, w, block) * o.framesPerBlock
    {
      var l := Locate(o, block);
      LocalIsCount(o, block);
      Longer(l.localBlock, o.framesPerBlock);
      result := result[l.writer := Max(result[l.writer], (l.localBlock + 1) * o.framesPerBlock)];
      block := block + 1;
    }
  }

  lemma Longer(n: nat, size: nat)
    ensures n * size <= (n + 1) * size
  {
  }

  // ----- Frames -----

  /** Where a frame is stored: its shard and its index there. */
  function Place(o: Options, frame: nat): (nat, nat)
    requires o.Valid()
  {
    var l := Locate(o, frame / o.framesPerBlock);
    (l.writer, Weave(l.localBlock, o.framesPerBlock, frame % o.framesPerBlock))
  }

  /** A place tells its block's location and the position inside the block. */
  lemma PlaceParts(o: Options, frame: nat)
    requires o.Valid()
    ensures Locate(o, frame / o.framesPerBlock)
         == Location(Place(o, frame).0, Place(o, frame).1 / o.framesPerBlock)
    ensures Place(o, frame).1 % o.framesPerBlock == frame % o.framesPerBlock
  {
    Unweave(Locate(o, frame / o.framesPerBlock).localBlock, o.framesPerBlock, frame % o.framesPerBlock);
  }

  /** No two frames are stored in the same place. */
  lemma PlaceInjective(o: Options, a: nat, b: nat)
    requires o.Valid() && Place(o, a) == Place(o, b)
    ensures a == b
  {
    PlaceParts(o, a);
    PlaceParts(o, b);
    LocateInjective(o, a / o.framesPerBlock, b / o.framesPerBlock);
    Rewoven(a, o.framesPerBlock);
    Rewoven(b, o.framesPerBlock);
  }

  /** Every frame's place is inside its shard. */
  lemma PlaceWithinShard(o: Options, frame: nat)
    requires o.Valid() && frame < o.frames
    ensures Place(o, frame).0 < o.writers
    ensures Place(o, frame).1 < Count(o, Place(o, frame).0, o.Blocks()) * o.framesPerBlock
  {
    var size := o.framesPerBlock;
    Rewoven(o.frames, size);
    QuotientBelow(frame, size, o.Blocks());
    var l := Locate(o, frame / size);
    LocateWithinShard(o, frame / size, o.Blocks());
    EndsWithin(l.localBlock, Count(o, l.writer, o.Blocks()), size, frame % size);
  }

  lemma EndsWithin(k: nat, n: nat, size: nat, r: nat)
    requires k < n && r < size
    ensures k * size + r < n * size
  {
    assert n * size == (n - k - 1) * size + k * size + size;
    assert (n - k - 1) * size >= 0;
  }

  /** The shard files, written block by block in whatever order blocks complete. */
  class ShardSet<T> {
    const options: Options
    var stored: map<(nat, nat), T>

    constructor (options: Options)
      requires options.Valid()
      ensures this.options == options && stored == map[]
    {
      this.options := options;
      stored := map[];
    }

    /** Store one block's frames at consecutive places of its shard. */
    method Submit(block: nat, frames: seq<T>)
      requires options.Valid() && |frames| == options.framesPerBlock
      modifies this
      ensures stored == Stored(options, old(stored), block, frames, |frames|)
    {
      var l := Locate(options, block);
      var i := 0;
      while i < |frames|
        invariant 0 <= i <= |frames| && stored == Stored(options, old(stored), block, frames, i)
      {
        stored := stored[(l.writer, Weave(l.localBlock, options.framesPerBlock, i)) := frames[i]];
        i := i + 1;
      }
    }
  }

  /** The shards after the first `n` frames of a block have been stored. */
  ghost function Stored<T>(o: Options, before: map<(nat, nat), T>, block: nat, frames: seq<T>, n: nat): map<(nat, nat), T>
    requires o.Valid() && n <= |frames|
  {
    if n == 0 then before
    else
      var l := Locate(o, block);
      Stored(o, before, block, frames, n - 1)[(l.writer, Weave(l.localBlock, o.framesPerBlock, n - 1)) := frames[n - 1]]
  }

  /** The frames of one block of the whole recording. */
  function BlockOf<T>(o: Options, data: seq<T>, block: nat): (frames: seq<T>)
    requires o.Valid() && |data| == o.frames && block < o.Blocks()
    ensures |frames| == o.framesPerBlock
    ensures forall i :: 0 <= i < |frames| ==>
      Weave(block, o.framesPerBlock, i) < |data| && frames[i] == data[Weave(block, o.framesPerBlock, i)]
  {
    BlockEnds(o, block);
    var first := Weave(block, o.framesPerBlock, 0);
    data[first..first + o.framesPerBlock]
  }

  lemma BlockEnds(o: Options, block: nat)
    requires o.Valid() && block < o.Blocks()
    ensures Weave(block, o.framesPerBlock, 0) + o.framesPerBlock <= o.frames
  {
    Rewoven(o.frames, o.framesPerBlock);
    EndsWithin(block, o.Blocks(), o.framesPerBlock, o.framesPerBlock - 1);
  }

  predicate AllBlocks(o: Options, order: seq<nat>)
    requires o.Valid()
  {
    forall i :: 0 <= i < |order| ==> order[i] < o.Blocks()
  }

  /** The shards after submitting blocks in the given order. */
  ghost function Submitted<T>(o: Options, data: seq<T>, order: seq<nat>): map<(nat, nat), T>
    requires o.Valid() && |data| == o.frames && AllBlocks(o, order)
  {
    if order == [] then map[]
    else
      var last := order[|order| - 1];
      assert last < o.Blocks();
      Stored(o, Submitted(o, data, order[..|order| - 1]), last, BlockOf(o, data, last), o.framesPerBlock)
  }

  lemma {:induction false} StoredAt<T>(o: Options, before: map<(nat, nat), T>, block: nat, frames: seq<T>, n: nat, f: nat)
    requires o.Valid() && n <= |frames| == o.framesPerBlock
    ensures var after := Stored(o, before, block, frames, n);
      if f / o.framesPerBlock == block && f % o.framesPerBlock < n
      then Place(o, f) in after && after[Place(o, f)] == frames[f % o.framesPerBlock]
      else (Place(o, f) in after <==> Place(o, f) in before)
           && (Place(o, f) in before ==> after[Place(o, f)] == before[Place(o, f)])
  {
    if n > 0 {
      StoredAt(o, before, block, frames, n - 1, f);
      var g := Weave(block, o.framesPerBlock, n - 1);
      Unweave(block, o.framesPerBlock, n - 1);
      Rewoven(f, o.framesPerBlock);
      if Place(o, f) == Place(o, g) {
        PlaceInjective(o, f, g);
      }
    }
  }

  /** Whatever order the blocks were written in, each stored frame is in its place. */
  lemma {:induction false} ShardsHoldFrames<T>(o: Options, data: seq<T>, order: seq<nat>, f: nat)
    requires o.Valid() && |data| == o.frames && f < o.frames
    requires AllBlocks(o, order)
    ensures var shards := Submitted(o, data, order);
      && (f / o.framesPerBlock in order <==> Place(o, f) in shards)
      && (Place(o, f) in shards ==> shards[Place(o, f)] == data[f])
  {
    if order != [] {
      var front, last := order[..|order| - 1], order[|order| - 1];
      assert order == front + [last];
      ShardsHoldFrames(o, data, front, f);
      StoredAt(o, Submitted(o, data, front), last, BlockOf(o, data, last), o.framesPerBlock, f);
      Rewoven(f, o.framesPerBlock);
    }
  }

  // ----- The master view -----

  /** One virtual-dataset mapping: `count` frames of the master from `virtualStart`
      are `count` frames of a shard of `length` frames, from `sourceStart`. */
  datatype Mapping = Mapping(virtualStart: nat, count: nat, writer: nat, sourceStart: nat, length: nat) {
    predicate Covers(f: nat) {
      virtualStart <= f < virtualStart + count
    }

    /** Selections are matched up in order. */
    function Resolve(f: nat): (nat, nat)
      requires Covers(f)
    {
      (writer, sourceStart + (f - virtualStart))
    }
  }

  /** Where the master takes frame `f` from, if any of its mappings covers it. */
  function Source(master: seq<Mapping>, f: nat): Option<(nat, nat)> {
    if master == [] then None
    else if master[0].Covers(f) then Some(master[0].Resolve(f))
    else Source(master[1..], f)
  }

  /** The mapping of one block selects it in the master and at its place in its
      shard, inside the shard. */
  ghost predicate MapsBlock(o: Options, block: nat, m: Mapping)
    requires o.Valid()
  {
    var l := Locate(o, block);
    && m.virtualStart == block * o.framesPerBlock && m.count == o.framesPerBlock
    && m.writer == l.writer && m.sourceStart == l.localBlock * o.framesPerBlock
    && m.sourceStart + m.count <= m.length == Count(o, l.writer, o.Blocks()) * o.framesPerBlock
  }

  ghost predicate IsMaster(o: Options, master: seq<Mapping>)
    requires o.Valid()
  {
    |master| == o.Blocks() && forall b :: 0 <= b < |master| ==> MapsBlock(o, b, master[b])
  }

  /** Build the master, one mapping per block. */
  method CreateMaster(o: Options) returns (master: seq<Mapping>)
    requires o.Valid()
    ensures IsMaster(o, master)
    ensures forall f :: 0 <= f < o.frames ==> Source(master, f) == Some(Place(o, f))
    ensures forall f :: f >= o.frames ==> Source(master, f) == None
  {
    var shardFrames := LocalFrameCounts(o);
    master := [];
    var block := 0;
    while block < o.Blocks()
      invariant 0 <= block <= o.Blocks() && |master| == block
      invariant forall b :: 0 <= b < block ==> MapsBlock(o, b, master[b])
    {
      var l := Locate(o, block);
      LocateWithinShard(o, block, o.Blocks());
      EndsWithin(l.localBlock, Count(o, l.writer, o.Blocks()), o.framesPerBlock, o.framesPerBlock - 1);
      var m := Mapping(block * o.framesPerBlock, o.framesPerBlock, l.writer, l.localBlock * o.framesPerBlock,
                       shardFrames[l.writer]);
      assert MapsBlock(o, block, m);
      master := master + [m];
      block := block + 1;
    }
    MasterSources(o, master);
  }

  lemma MasterSources(o: Options, master: seq<Mapping>)
    requires o.Valid() && IsMaster(o, master)
    ensures forall f :: 0 <= f < o.frames ==> Source(master, f) == Some(Place(o, f))
    ensures forall f :: f >= o.frames ==> Source(master, f) == None
  {
    forall f | 0 <= f < o.frames
      ensures Source(master, f) == Some(Place(o, f))
    {
      SourceIsPlace(o, master, f);
    }
    forall f | f >= o.frames
      ensures Source(master, f) == None
    {
      assert master[0..] == master;
      SourceFrom(o, master, f, 0);
    }
  }

  /** A block's mapping covers exactly its frames, and takes each from its place. */
  lemma MappingOfBlock(o: Options, block: nat, m: Mapping, f: nat)
    requires o.Valid() && MapsBlock(o, block, m)
    ensures m.Covers(f) <==> f / o.framesPerBlock == block
    ensures m.Covers(f) ==> m.Resolve(f) == Place(o, f)
  {
    BlockCovers(block, o.framesPerBlock, f);
    if m.Covers(f) {
      BlockPlace(o, block, f);
    }
  }

  /** The frames of block `block` are those whose quotient it is. */
  lemma BlockCovers(block: nat, size: nat, f: nat)
    requires size > 0
    ensures block * size <= f < block * size + size <==> f / size == block
  {
    Rewoven(f, size);
    if f / size < block {
      EndsWithin(f / size, block, size, f % size);
    } else if f / size > block {
      EndsWithin(block, f / size, size, size - 1);
    }
  }

  /** A frame's distance from the start of its block is the same in its shard. */
  lemma BlockPlace(o: Options, block: nat, f: nat)
    requires o.Valid() && f / o.framesPerBlock == block
    ensures block * o.framesPerBlock <= f
    ensures var l := Locate(o, block);
      Place(o, f) == (l.writer, l.localBlock * o.framesPerBlock + (f - block * o.framesPerBlock))
  {
    Rewoven(f, o.framesPerBlock);
  }

  /** From block `b` on, a frame of that block or a later one is found at its place. */
  lemma {:induction false} SourceFrom(o: Options, master: seq<Mapping>, f: nat, b: nat)
    requires o.Valid() && IsMaster(o, master) && b <= |master|
    ensures b <= f / o.framesPerBlock && f < o.frames ==> Source(master[b..], f) == Some(Place(o, f))
    ensures f >= o.frames ==> Source(master[b..], f) == None
    decreases |master| - b
  {
    Rewoven(o.frames, o.framesPerBlock);
    if b < |master| {
      MappingOfBlock(o, b, master[b], f);
      SourceFrom(o, master, f, b + 1);
      assert master[b..][0] == master[b] && master[b..][1..] == master[b + 1..];
      if f >= o.frames {
        BlocksBelow(o, f);
      }
    } else if f < o.frames {
      QuotientBelow(f, o.framesPerBlock, o.Blocks());
    }
  }

  /** A frame past the end belongs to no block. */
  lemma BlocksBelow(o: Options, f: nat)
    requires o.Valid() && f >= o.frames
    ensures f / o.framesPerBlock >= o.Blocks()
  {
    var size := o.framesPerBlock;
    Rewoven(o.frames, size);
    Rewoven(f, size);
    if f / size < o.Blocks() {
      EndsWithin(f / size, o.Blocks(), size, f % size);
    }
  }

  lemma SourceIsPlace(o: Options, master: seq<Mapping>, f: nat)
    requires o.Valid() && IsMaster(o, master) && f < o.frames
    ensures Source(master, f) == Some(Place(o, f))
  {
    assert master[0..] == master;
    SourceFrom(o, master, f, 0);
  }

  /** Reading frame `f` of the master gives frame `f` of the recording, whatever order
      the blocks were written in, exactly if its block has been written. */
  lemma MasterRestoresOrder<T>(o: Options, data: seq<T>, order: seq<nat>, master: seq<Mapping>, f: nat)
    requires o.Valid() && |data| == o.frames && f < o.frames
    requires AllBlocks(o, order) && IsMaster(o, master)
    ensures var shards, at := Submitted(o, data, order), Source(master, f);
      && at.Some?
      && (f / o.framesPerBlock in order <==> at.value in shards)
      && (at.value in shards ==> shards[at.value] == data[f])
  {
    SourceIsPlace(o, master, f);
    ShardsHoldFrames(o, data, order, f);
  }
}
