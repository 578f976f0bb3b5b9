/** Slot conservation: no slot is ever lost, shared, or returned twice, in any
    interleaving of application threads, engine and control threads. */
module SlotConservation {
  import opened Base
  import opened Credit
  import opened Sessions
  import opened FanOut

  function Slots(items: seq<Item>): seq<nat> {
    seq(|items|, i requires 0 <= i < |items| => items[i].slot)
  }

  /** The slots one session has references to, with multiplicity. */
  ghost function Held(s: Session): multiset<nat>
    requires s.Sound()
  {
    multiset(Slots(s.Outstanding()))
  }

  ghost function HeldByAll(ss: seq<Session>): multiset<nat>
    requires AllSound(ss)
  {
    if ss == [] then multiset{} else Held(ss[0]) + HeldByAll(ss[1..])
  }

  /** The reference the running fan-out keeps for itself. */
  ghost function FanOutRef(f: Fanning, i: nat): nat {
    if f.Visiting? && f.item.slot == i then 1 else 0
  }

  /** How many places slot `i` is in: free list, queue, handle, referenced. */
  ghost function Places(pool: Pool, queue: seq<Item>, handles: set<nat>, i: nat): nat
    requires i < |pool.refs|
  {
    PoolPlaces(pool, i) + multiset(Slots(queue))[i] + (if i in handles then 1 else 0)
  }

  /** The pool's own share of the places. */
  ghost function PoolPlaces(p: Pool, i: nat): nat
    requires i < |p.refs|
  {
    multiset(p.free)[i] + (if p.refs[i] > 0 then 1 else 0)
  }

  ghost predicate OnePlaceEach(pool: Pool, queue: seq<Item>, handles: set<nat>) {
    forall i :: 0 <= i < |pool.refs| ==> Places(pool, queue, handles, i) == 1
  }

  ghost predicate RefsExact(refs: seq<nat>, ss: seq<Session>, f: Fanning)
    requires AllSound(ss)
  {
    forall i :: 0 <= i < |refs| ==> refs[i] == HeldByAll(ss)[i] + FanOutRef(f, i)
  }

  /** A session's ring names real slots, and only a session that has been armed
      has frames outstanding. */
  ghost predicate SessionOk(s: Session, depth: nat) {
    && (forall q :: q in s.inflight ==> q.slot < depth)
    && (!s.Eligible() && s.state != Expiring ==> s.window.next == s.window.credited)
  }

  ghost predicate TableOk(ss: seq<Session>, depth: nat) {
    forall s :: s in ss ==> SessionOk(s, depth)
  }

  ghost predicate InRange(depth: nat, free: seq<nat>, queue: seq<Item>, handles: set<nat>) {
    && (forall i :: i in free ==> i < depth)
    && (forall q :: q in queue ==> q.slot < depth)
    && (forall i :: i in handles ==> i < depth)
  }

  /** Each slot is in exactly one place, each count is exact, and no assertion of
      the code has failed. */
  ghost predicate Conserved(p: Publisher) {
    && Shaped(p)
    && !p.pool.fault
    && InRange(p.config.depth, p.pool.free, p.queue, p.handles)
    && (p.fanning.Visiting? ==> p.fanning.item.slot < p.config.depth && p.fanning.next <= |p.sessions|)
    && (p.publishing.Decided? ==> p.publishing.slot in p.handles)
    && TableOk(p.sessions, p.config.depth)
    && RefsExact(p.pool.refs, p.sessions, p.fanning)
    && OnePlaceEach(p.pool, p.queue, p.handles)
  }

  // ----- The free list never overflows -----

  lemma CountOfDuplicate(q: seq<nat>, i: nat, j: nat)
    requires i < j < |q| && q[i] == q[j]
    ensures multiset(q)[q[i]] >= 2
  {
    assert q == q[..j] + q[j..];
    assert q[i] in q[..j] && q[i] in q[j..] by {
      assert q[..j][i] == q[i] && q[j..][0] == q[j];
    }
  }

  /** A duplicate-free list of slots that misses one has room for it. */
  lemma RoomForMissing(free: seq<nat>, n: nat, slot: nat)
    requires slot < n && slot !in free
    requires forall i :: i in free ==> i < n && multiset(free)[i] <= 1
    ensures |free| < n
  {
    forall i, j | 0 <= i < j < |free|
      ensures free[i] != free[j]
    {
      if free[i] == free[j] {
        CountOfDuplicate(free, i, j);
      }
    }
    DistinctFitInterval(free, {slot}, 0, n);
  }

  // ----- Releasing references -----

  ghost predicate PoolOk(p: Pool) {
    && !p.fault
    && (forall i :: i in p.free ==> i < |p.refs|)
    && (forall i :: 0 <= i < |p.refs| ==> PoolPlaces(p, i) <= 1)
  }

  lemma ReturnRoom(p: Pool, slot: nat)
    requires PoolOk(p) && slot < |p.refs| && PoolPlaces(p, slot) == 0
    ensures var p' := p.Return(slot);
      && !p'.fault && p'.refs == p.refs && p'.free == p.free + [slot]
  {
    forall i | i in p.free
      ensures i < |p.refs| && multiset(p.free)[i] <= 1
    {
      assert PoolPlaces(p, i) <= 1;
    }
    RoomForMissing(p.free, |p.refs|, slot);
  }

  lemma ReleaseOne(p: Pool, slot: nat)
    requires PoolOk(p) && slot < |p.refs| && p.refs[slot] > 0
    ensures var p' := p.Release(slot);
      && PoolOk(p') && |p'.refs| == |p.refs|
      && (forall i :: 0 <= i < |p.refs| ==>
            && p'.refs[i] == p.refs[i] - (if i == slot then 1 else 0)
            && PoolPlaces(p', i) == PoolPlaces(p, i))
  {
    assert PoolPlaces(p, slot) <= 1;
    var q := p.(refs := p.refs[slot := p.refs[slot] - 1]);
    if q.refs[slot] == 0 {
      assert PoolOk(q) by {
        forall i | 0 <= i < |q.refs|
          ensures PoolPlaces(q, i) <= 1
        {
          assert PoolPlaces(p, i) <= 1;
        }
      }
      ReturnRoom(q, slot);
      assert multiset(q.free + [slot]) == multiset(q.free) + multiset{slot};
    }
    forall i | 0 <= i < |p.refs|
      ensures PoolPlaces(p.Release(slot), i) == PoolPlaces(p, i) <= 1
    {
      assert PoolPlaces(p, i) <= 1;
    }
  }

  /** Releasing a batch takes exactly its multiplicities off the counts, never
      underflows, and neither loses nor duplicates a slot. */
  lemma {:induction false} ReleaseBatch(p: Pool, items: seq<Item>)
    requires PoolOk(p)
    requires forall q :: q in items ==> q.slot < |p.refs|
    requires forall i :: 0 <= i < |p.refs| ==> multiset(Slots(items))[i] <= p.refs[i]
    ensures var p' := p.ReleaseAll(items);
      && PoolOk(p') && |p'.refs| == |p.refs|
      && (forall i :: 0 <= i < |p.refs| ==>
            && p'.refs[i] == p.refs[i] - multiset(Slots(items))[i]
            && PoolPlaces(p', i) == PoolPlaces(p, i))
    decreases |items|
  {
    if items == [] {
      assert Slots(items) == [];
    } else {
      assert Slots(items) == [items[0].slot] + Slots(items[1..]);
      assert multiset(Slots(items)) == multiset{items[0].slot} + multiset(Slots(items[1..]));
      assert items[0] in items;
      ReleaseOne(p, items[0].slot);
      ReleaseBatch(p.Release(items[0].slot), items[1..]);
    }
  }

  // ----- The table of sessions -----

  lemma UpdateSound(ss: seq<Session>, j: nat, s': Session)
    requires AllSound(ss) && j < |ss| && s'.Sound()
    ensures AllSound(ss[j := s'])
  {
  }

  lemma SwapParts(common: multiset<nat>, a: multiset<nat>, a': multiset<nat>, b: multiset<nat>, b': multiset<nat>)
    requires a' + b == a + b'
    ensures (common + a') + b == (common + a) + b'
  {
    assert (common + a') + b == common + (a' + b);
    assert (common + a) + b' == common + (a + b');
  }

  lemma {:induction false} HeldUpdate(ss: seq<Session>, j: nat, s': Session)
    requires AllSound(ss) && j < |ss| && s'.Sound()
    ensures AllSound(ss[j := s'])
    ensures HeldByAll(ss[j := s']) + Held(ss[j]) == HeldByAll(ss) + Held(s')
    decreases |ss|
  {
    UpdateSound(ss, j, s');
    if j > 0 {
      var rest, rest' := ss[1..], ss[1..][j - 1 := s'];
      HeldUpdate(rest, j - 1, s');
      assert ss[j := s'][1..] == rest';
      assert HeldByAll(ss[j := s']) == Held(ss[0]) + HeldByAll(rest');
      assert HeldByAll(ss) == Held(ss[0]) + HeldByAll(rest);
      SwapParts(Held(ss[0]), HeldByAll(rest), HeldByAll(rest'), Held(ss[j]), Held(s'));
    } else {
      assert ss[j := s'][1..] == ss[1..];
    }
  }

  /** Forgetting the oldest `n` outstanding frames leaves the rest in order. */
  lemma RingSuffix(s: Session, s': Session, n: nat)
    requires s.Sound() && s'.Sound() && s'.inflight == s.inflight
    requires s'.window.next == s.window.next && s'.window.credited == s.window.credited + n
    ensures s'.Outstanding() == s.Outstanding()[n..]
  {
    forall k | 0 <= k < |s'.Outstanding()|
      ensures s'.Outstanding()[k] == s.Outstanding()[n..][k]
    {
      assert s'.At(s'.window.credited + k) == s.At(s.window.credited + (n + k));
    }
  }

  lemma SameRing(s: Session, s': Session)
    requires s.Sound() && s'.Sound() && s'.inflight == s.inflight
    requires s'.window.next == s.window.next && s'.window.credited == s.window.credited
    ensures s'.Outstanding() == s.Outstanding()
  {
    RingSuffix(s, s', 0);
  }

  lemma OutstandingInRing(s: Session, q: Item)
    requires s.Sound() && q in s.Outstanding()
    ensures q in s.inflight
  {
    var k :| 0 <= k < |s.Outstanding()| && s.Outstanding()[k] == q;
    assert q == s.At(s.window.credited + k);
  }

  /** Taking the next sequence disturbs no frame still outstanding. */
  lemma RingEntriesKept(s: Session, item: Item, q: nat)
    requires s.Sound() && s.window.CanSubmit() && s.window.width <= |s.inflight|
    requires s.window.credited <= q < s.window.next
    ensures s.inflight[s.window.next % |s.inflight| := item][q % |s.inflight|] == s.At(q)
  {
    if q % |s.inflight| == s.window.next % |s.inflight| {
      RingIndexUnique(q, s.window.next, |s.inflight|);
    }
  }

  lemma SubmittedHolds(s: Session, item: Item)
    requires s.Sound() && s.window.CanSubmit() && s.window.width <= |s.inflight|
    ensures s.Submitted(item).Outstanding() == s.Outstanding() + [item]
    ensures Held(s.Submitted(item)) == Held(s) + multiset{item.slot}
  {
    var s' := s.Submitted(item);
    var n := s.window.next - s.window.credited;
    forall k | 0 <= k < n + 1
      ensures s'.Outstanding()[k] == (s.Outstanding() + [item])[k]
    {
      if k < n {
        RingEntriesKept(s, item, s.window.credited + k);
      } else {
        assert s'.At(s.window.next) == item;
      }
    }
    assert s'.Outstanding() == s.Outstanding() + [item];
    assert Slots(s'.Outstanding()) == Slots(s.Outstanding()) + [item.slot];
  }

  lemma FailedHolds(s: Session, item: Item, elsewhere: bool)
    requires s.Sound() && s.window.CanSubmit() && s.window.width <= |s.inflight|
    ensures s.SendFailed(item, elsewhere).Outstanding() == s.Outstanding()
  {
    var s' := s.SendFailed(item, elsewhere);
    forall k | 0 <= k < s.window.next - s.window.credited
      ensures s'.Outstanding()[k] == s.Outstanding()[k]
    {
      RingEntriesKept(s, item, s.window.credited + k);
      assert s'.At(s.window.credited + k) == s.At(s.window.credited + k);
    }
  }

  // ----- Every step conserves slots -----

  lemma PoolOfConserved(p: Publisher)
    requires Conserved(p)
    ensures PoolOk(p.pool)
  {
    forall i | 0 <= i < |p.pool.refs|
      ensures PoolPlaces(p.pool, i) <= 1
    {
      assert Places(p.pool, p.queue, p.handles, i) == 1;
    }
  }

  lemma AcquirePlaces(pool: Pool, queue: seq<Item>, handles: set<nat>)
    requires OnePlaceEach(pool, queue, handles) && pool.free != [] && pool.free[0] < |pool.refs|
    ensures OnePlaceEach(pool.(free := pool.free[1..]), queue, handles + {pool.free[0]})
  {
    var pool' := pool.(free := pool.free[1..]);
    assert pool.free == [pool.free[0]] + pool'.free;
    forall i | 0 <= i < |pool.refs|
      ensures Places(pool', queue, handles + {pool.free[0]}, i) == 1
    {
      assert Places(pool, queue, handles, i) == 1;
    }
  }

  lemma ResetConserves(p: Publisher, slot: nat)
    requires Conserved(p) && slot in p.handles && !(p.publishing.Decided? && p.publishing.slot == slot)
    ensures Conserved(ResetHandle(p, slot))
  {
    var p' := ResetHandle(p, slot);
    assert Places(p.pool, p.queue, p.handles, slot) == 1;
    PoolOfConserved(p);
    ReturnRoom(p.pool, slot);
    forall i | 0 <= i < |p.pool.refs|
      ensures Places(p'.pool, p.queue, p'.handles, i) == 1
    {
      assert Places(p.pool, p.queue, p.handles, i) == 1;
    }
  }

  lemma PushPlaces(pool: Pool, queue: seq<Item>, handles: set<nat>, item: Item)
    requires OnePlaceEach(pool, queue, handles) && item.slot in handles && item.slot < |pool.refs|
    ensures OnePlaceEach(pool, queue + [item], handles - {item.slot})
  {
    assert Slots(queue + [item]) == Slots(queue) + [item.slot];
    forall i | 0 <= i < |pool.refs|
      ensures Places(pool, queue + [item], handles - {item.slot}, i) == 1
    {
      assert Places(pool, queue, handles, i) == 1;
    }
  }

  /** The frame leaves the queue and the fan-out takes the first reference. */
  lemma BeginConserves(p: Publisher)
    requires Conserved(p) && Enabled(p, BeginFanOut)
    ensures Conserved(Apply(p, BeginFanOut))
  {
    var p' := Apply(p, BeginFanOut);
    var item := p.queue[0];
    assert Slots(p.queue) == [item.slot] + Slots(p'.queue);
    forall i | 0 <= i < |p.pool.refs|
      ensures Places(p'.pool, p'.queue, p'.handles, i) == 1
      ensures p'.pool.refs[i] == HeldByAll(p.sessions)[i] + FanOutRef(p'.fanning, i)
    {
      assert Places(p.pool, p.queue, p.handles, i) == 1;
    }
  }

  lemma TableUpdate(p: Publisher, j: nat, s': Session)
    requires Shaped(p) && TableOk(p.sessions, p.config.depth) && j < |p.sessions|
    requires |s'.inflight| == p.config.depth && s'.window.Valid() && s'.window.width <= p.config.depth
    requires SessionOk(s', p.config.depth)
    ensures TableShaped(p.config.depth, p.sessions[j := s'])
    ensures TableOk(p.sessions[j := s'], p.config.depth)
  {
  }

  /** Replacing one session keeps the counts exact when they move by the same
      slots as what it holds. */
  lemma SessionUpdateRefs(p: Publisher, j: nat, s': Session, refs': seq<nat>)
    requires AllSound(p.sessions) && RefsExact(p.pool.refs, p.sessions, p.fanning) && j < |p.sessions|
    requires s'.Sound() && |refs'| == |p.pool.refs|
    requires forall i :: 0 <= i < |refs'| ==>
      refs'[i] + Held(p.sessions[j])[i] == p.pool.refs[i] + Held(s')[i]
    ensures AllSound(p.sessions[j := s'])
    ensures RefsExact(refs', p.sessions[j := s'], p.fanning)
  {
    var ss' := p.sessions[j := s'];
    HeldUpdate(p.sessions, j, s');
    forall i | 0 <= i < |refs'|
      ensures refs'[i] == HeldByAll(ss')[i] + FanOutRef(p.fanning, i)
    {
      assert (HeldByAll(ss') + Held(p.sessions[j]))[i] == (HeldByAll(p.sessions) + Held(s'))[i];
    }
  }

  lemma VisitedShape(s: Session, depth: nat, item: Item, sent: bool, elsewhere: bool, raced: bool)
    requires |s.inflight| == depth > 0 && s.window.Valid() && s.window.width <= depth && s.window.next < MAX64
    requires SessionOk(s, depth) && item.slot < depth
    ensures var s' := s.Visited(item, sent, elsewhere, raced).0;
      && |s'.inflight| == depth && s'.window.Valid() && s'.window.width <= depth
      && SessionOk(s', depth)
  {
  }

  lemma VisitedHolds(s: Session, item: Item, sent: bool, elsewhere: bool, raced: bool)
    requires s.Sound() && s.window.width <= |s.inflight|
    ensures var (s', took) := s.Visited(item, sent, elsewhere, raced);
      s'.Sound() && Held(s') == Held(s) + (if took then multiset{item.slot} else multiset{})
  {
    var seen := s.(processed := item.ordinal + 1);
    SameRing(s, seen);
    if !s.window.CanSubmit() {
      SameRing(s, seen.(dropped := s.dropped + 1));
    } else if sent {
      SubmittedHolds(seen, item);
    } else {
      FailedHolds(seen, item, elsewhere);
    }
  }

  /** One more reference to a slot that already has one moves nothing. */
  lemma AddRefPlaces(pool: Pool, queue: seq<Item>, handles: set<nat>, slot: nat)
    requires OnePlaceEach(pool, queue, handles) && slot < |pool.refs| && pool.refs[slot] > 0
    ensures OnePlaceEach(pool.(refs := pool.refs[slot := pool.refs[slot] + 1]), queue, handles)
  {
    var pool' := pool.(refs := pool.refs[slot := pool.refs[slot] + 1]);
    forall i | 0 <= i < |pool.refs|
      ensures Places(pool', queue, handles, i) == 1
    {
      assert Places(pool, queue, handles, i) == 1;
    }
  }

  /** The visited session's new reference is counted exactly once. */
  lemma VisitRefs(p: Publisher, j: nat, s': Session, item: Item, took: bool)
    requires AllSound(p.sessions) && j < |p.sessions| && s'.Sound() && item.slot < |p.pool.refs|
    requires RefsExact(p.pool.refs, p.sessions, Visiting(item, j)) && p.fanning == Visiting(item, j)
    requires Held(s') == Held(p.sessions[j]) + (if took then multiset{item.slot} else multiset{})
    ensures AllSound(p.sessions[j := s'])
    ensures RefsExact(if took then p.pool.refs[item.slot := p.pool.refs[item.slot] + 1] else p.pool.refs,
                      p.sessions[j := s'], Visiting(item, j + 1))
  {
    var refs := p.pool.refs;
    var refs' := if took then refs[item.slot := refs[item.slot] + 1] else refs;
    forall i | 0 <= i < |refs'|
      ensures refs'[i] + Held(p.sessions[j])[i] == refs[i] + Held(s')[i]
    {
    }
    SessionUpdateRefs(p, j, s', refs');
    NextVisitRefs(refs', p.sessions[j := s'], item, j);
  }

  /** Moving on to the next session changes no count. */
  lemma NextVisitRefs(refs: seq<nat>, ss: seq<Session>, item: Item, j: nat)
    requires AllSound(ss) && RefsExact(refs, ss, Visiting(item, j))
    ensures RefsExact(refs, ss, Visiting(item, j + 1))
  {
    forall i | 0 <= i < |refs|
      ensures refs[i] == HeldByAll(ss)[i] + FanOutRef(Visiting(item, j + 1), i)
    {
      assert FanOutRef(Visiting(item, j), i) == FanOutRef(Visiting(item, j + 1), i);
    }
  }

  /** The pool after a visit. */
  function VisitedPool(pool: Pool, slot: nat, took: bool): Pool
    requires slot < |pool.refs|
  {
    if took then pool.(refs := pool.refs[slot := pool.refs[slot] + 1]) else pool
  }

  lemma VisitedPlaces(p: Publisher, took: bool)
    requires Conserved(p) && p.fanning.Visiting?
    ensures OnePlaceEach(VisitedPool(p.pool, p.fanning.item.slot, took), p.queue, p.handles)
  {
    assert p.pool.refs[p.fanning.item.slot] > 0;
    AddRefPlaces(p.pool, p.queue, p.handles, p.fanning.item.slot);
  }

  /** Putting a visited session and the counts back, and moving the loop on. */
  lemma VisitAssembles(p: Publisher, s': Session, took: bool)
    requires Conserved(p) && p.fanning.Visiting? && p.fanning.next < |p.sessions|
    requires |s'.inflight| == p.config.depth && s'.window.Valid() && s'.window.width <= p.config.depth
    requires SessionOk(s', p.config.depth)
    requires Held(s') == Held(p.sessions[p.fanning.next]) + (if took then multiset{p.fanning.item.slot} else multiset{})
    ensures Conserved(p.(sessions := p.sessions[p.fanning.next := s'],
                         pool := VisitedPool(p.pool, p.fanning.item.slot, took),
                         fanning := Visiting(p.fanning.item, p.fanning.next + 1)))
  {
    TableUpdate(p, p.fanning.next, s');
    VisitRefs(p, p.fanning.next, s', p.fanning.item, took);
    VisitedPlaces(p, took);
  }

  lemma VisitConserves(p: Publisher, sent: bool, elsewhere: bool, raced: bool)
    requires Conserved(p) && Enabled(p, Visit(sent, elsewhere, raced))
    ensures Conserved(Apply(p, Visit(sent, elsewhere, raced)))
  {
    var j, item := p.fanning.next, p.fanning.item;
    var (s', took) := p.sessions[j].Visited(item, sent, elsewhere, raced);
    assert SessionOk(p.sessions[j], p.config.depth);
    VisitedShape(p.sessions[j], p.config.depth, item, sent, elsewhere, raced);
    VisitedHolds(p.sessions[j], item, sent, elsewhere, raced);
    VisitAssembles(p, s', took);
  }

  lemma EndConserves(p: Publisher)
    requires Conserved(p) && Enabled(p, EndFanOut)
    ensures Conserved(Apply(p, EndFanOut))
  {
    var slot := p.fanning.item.slot;
    var pool' := p.pool.Release(slot);
    PoolOfConserved(p);
    ReleaseOne(p.pool, slot);
    forall i | 0 <= i < |p.pool.refs|
      ensures Places(pool', p.queue, p.handles, i) == 1
      ensures pool'.refs[i] == HeldByAll(p.sessions)[i] + FanOutRef(Idle, i)
    {
      assert Places(p.pool, p.queue, p.handles, i) == 1;
    }
  }

  /** A session never holds more references to a slot than the slot has. */
  lemma HeldWithinRefs(p: Publisher, j: nat)
    requires Shaped(p) && RefsExact(p.pool.refs, p.sessions, p.fanning) && j < |p.sessions|
    ensures forall i :: 0 <= i < |p.pool.refs| ==> Held(p.sessions[j])[i] <= p.pool.refs[i]
  {
    var s := p.sessions[j];
    var none := s.(window := Window(s.window.width, 0, 0));
    assert none.Outstanding() == [];
    HeldUpdate(p.sessions, j, none);
    forall i | 0 <= i < |p.pool.refs|
      ensures Held(s)[i] <= p.pool.refs[i]
    {
      assert (HeldByAll(p.sessions[j := none]) + Held(s))[i] == (HeldByAll(p.sessions) + Held(none))[i];
    }
  }

  lemma SplitHeld(s: Session, n: nat)
    requires s.Sound() && n <= |s.Outstanding()|
    ensures Held(s) == multiset(Slots(s.Outstanding()[..n])) + multiset(Slots(s.Outstanding()[n..]))
  {
    var all := s.Outstanding();
    assert Slots(all) == Slots(all[..n]) + Slots(all[n..]);
  }

  /** Releasing the oldest `n` outstanding frames of a session while its window
      forgets them. */
  lemma BatchConserves(p: Publisher, j: nat, s': Session, n: nat)
    requires Conserved(p) && j < |p.sessions| && n <= |p.sessions[j].Outstanding()|
    requires |s'.inflight| == p.config.depth && s'.window.Valid() && s'.window.width <= p.config.depth
    requires SessionOk(s', p.config.depth)
    requires s'.Outstanding() == p.sessions[j].Outstanding()[n..]
    ensures Conserved(p.(sessions := p.sessions[j := s'],
                         pool := p.pool.ReleaseAll(p.sessions[j].Outstanding()[..n])))
  {
    var batch := p.sessions[j].Outstanding()[..n];
    var pool' := p.pool.ReleaseAll(batch);
    SplitHeld(p.sessions[j], n);
    HeldWithinRefs(p, j);
    PoolOfConserved(p);
    forall q | q in batch
      ensures q.slot < p.config.depth
    {
      OutstandingInRing(p.sessions[j], q);
      assert SessionOk(p.sessions[j], p.config.depth);
    }
    ReleaseBatch(p.pool, batch);
    TableUpdate(p, j, s');
    SessionUpdateRefs(p, j, s', pool'.refs);
    forall i | 0 <= i < |p.pool.refs|
      ensures Places(pool', p.queue, p.handles, i) == 1
    {
      assert Places(p.pool, p.queue, p.handles, i) == 1;
    }
  }

  lemma CreditConserves(p: Publisher, j: nat, ack: nat)
    requires Conserved(p) && Enabled(p, Step.Credit(j, ack))
    ensures Conserved(Apply(p, Step.Credit(j, ack)))
  {
    var s := p.sessions[j];
    assert SessionOk(s, p.config.depth);
    var (w, _, released) := s.window.ApplyCredit(ack);
    if released != 0 {
      var s' := s.(window := w);
      RingSuffix(s, s', released);
      BatchConserves(p, j, s', released);
    }
  }

  lemma TeardownConserves(p: Publisher, j: nat)
    requires Conserved(p) && Enabled(p, Teardown(j))
    ensures Conserved(Apply(p, Teardown(j)))
  {
    var s := p.sessions[j];
    assert SessionOk(s, p.config.depth);
    var s' := s.(window := Window(s.window.width, 0, 0), state := Closed, processed := 0, dropped := 0);
    var n := |s.Outstanding()|;
    assert s'.Outstanding() == s.Outstanding()[n..];
    assert s.Outstanding()[..n] == s.Outstanding();
    BatchConserves(p, j, s', n);
  }

  /** Seating, arming and ending a session move no slot. */
  lemma SeatChangeConserves(p: Publisher, j: nat, s': Session)
    requires Conserved(p) && j < |p.sessions|
    requires |s'.inflight| == p.config.depth && s'.window.Valid() && s'.window.width <= p.config.depth
    requires SessionOk(s', p.config.depth) && s'.Outstanding() == p.sessions[j].Outstanding()
    ensures Conserved(p.(sessions := p.sessions[j := s']))
  {
    TableUpdate(p, j, s');
    SessionUpdateRefs(p, j, s', p.pool.refs);
  }

  lemma SeatStepConserves(p: Publisher, step: Step)
    requires Conserved(p) && Enabled(p, step) && (step.Open? || step.End?)
    ensures Conserved(Apply(p, step))
  {
    var s := p.sessions[step.j];
    assert SessionOk(s, p.config.depth);
    match step {
      case Open(j, width) =>
        var s' := s.(state := SessionState.Open, window := Window(width, 0, 0));
        assert s'.Outstanding() == [] == s.Outstanding();
        SeatChangeConserves(p, j, s');
      case End(j) =>
        var s' := s.(state := Expiring);
        SameRing(s, s');
        SeatChangeConserves(p, j, s');
    }
  }

  /** Outside a fan-out the engine's own progress holds no reference. */
  lemma EngineMoveConserves(p: Publisher, f: Fanning)
    requires Conserved(p) && !p.fanning.Visiting? && !f.Visiting?
    ensures Conserved(p.(fanning := f))
  {
    assert forall i :: FanOutRef(p.fanning, i) == FanOutRef(f, i);
  }

  lemma ArmStepConserves(p: Publisher, step: Step)
    requires Conserved(p) && Enabled(p, step) && (step.Arm? || step.LoadCount? || step.StoreGauges?)
    ensures Conserved(Apply(p, step))
  {
    var j := if step.Arm? then step.j else p.fanning.seat;
    var s := p.sessions[j];
    var s' := match step
      case Arm(_) => s.(state := Armed, clean := false, steady := true)
      case LoadCount => s.(processed := p.admitted)
      case _ => s.(clean := StartsWithin(p, s));
    assert SessionOk(s, p.config.depth);
    SameRing(s, s');
    SeatChangeConserves(p, j, s');
    EngineMoveConserves(p.(sessions := p.sessions[j := s']),
                        if step.Arm? then Arming(j, false) else if step.LoadCount? then Arming(j, true) else Idle);
  }

  lemma EnteredIrrelevant(p: Publisher, entered: set<nat>)
    requires Conserved(p)
    ensures Conserved(p.(entered := entered))
  {
  }

  lemma QueueStepConserves(p: Publisher, step: Step)
    requires Conserved(p) && Enabled(p, step) && (step.Acquire? || step.Push? || step.Count?)
    ensures Conserved(Apply(p, step))
  {
    match step {
      case Acquire =>
        assert p.pool.free[0] in p.pool.free;
        assert forall i :: i in p.pool.free[1..] ==> i in p.pool.free;
        AcquirePlaces(p.pool, p.queue, p.handles);
      case Push => PushPlaces(p.pool, p.queue, p.handles, Item(p.publishing.slot, p.publishing.ordinal));
      case Count =>
    }
  }

  lemma StepConserves(p: Publisher, step: Step)
    requires Conserved(p) && Enabled(p, step)
    ensures Conserved(Apply(p, step))
  {
    match step {
      case DropHandle(i) => ResetConserves(p, i);
      case RejectNoSession(i) => ResetConserves(p, i);
      case Enter(i) => EnteredIrrelevant(p, p.entered + {i});
      case Busy(i) => EnteredIrrelevant(p, p.entered - {i});
      case Decide(i) =>
        EnteredIrrelevant(p, p.entered - {i});
        ResetConserves(Leave(p, i), i);
      case Acquire => QueueStepConserves(p, step);
      case Push => QueueStepConserves(p, step);
      case Count => QueueStepConserves(p, step);
      case BeginFanOut => BeginConserves(p);
      case Visit(sent, elsewhere, raced) => VisitConserves(p, sent, elsewhere, raced);
      case EndFanOut => EndConserves(p);
      case Credit(j, ack) => CreditConserves(p, j, ack);
      case Teardown(j) => TeardownConserves(p, j);
      case Open(_, _) => SeatStepConserves(p, step);
      case End(_) => SeatStepConserves(p, step);
      case _ => ArmStepConserves(p, step);
    }
  }

  lemma {:induction false} RunConserves(p: Publisher, steps: seq<Step>)
    requires Conserved(p) && Legal(p, steps)
    ensures Conserved(Run(p, steps))
    decreases |steps|
  {
    if steps != [] {
      StepConserves(p, steps[0]);
      RunConserves(Apply(p, steps[0]), steps[1..]);
    }
  }

  lemma {:induction false} EmptyTableHoldsNothing(ss: seq<Session>)
    requires AllSound(ss) && forall s :: s in ss ==> s.window.next == s.window.credited
    ensures HeldByAll(ss) == multiset{}
  {
    if ss != [] {
      assert ss[0] in ss;
      assert ss[0].Outstanding() == [];
      EmptyTableHoldsNothing(ss[1..]);
    }
  }

  lemma CountInRange(n: nat, i: nat)
    requires i < n
    ensures multiset(seq(n, k => k))[i] == 1
  {
    var q := seq(n, k => k);
    assert q == q[..i] + [i] + q[i + 1..];
    assert i !in q[..i] && i !in q[i + 1..];
  }

  lemma StartConserves(config: Config, seats: nat)
    requires config.Valid()
    ensures Conserved(Start(config, seats))
  {
    var p := Start(config, seats);
    EmptyTableHoldsNothing(p.sessions);
    forall i | 0 <= i < config.depth
      ensures Places(p.pool, p.queue, p.handles, i) == 1
    {
      CountInRange(config.depth, i);
    }
  }

  lemma ReachableConserved(p: Publisher)
    requires Reachable(p)
    ensures Conserved(p)
  {
    var config: Config, seats: nat, steps :|
      config.Valid() && Legal(Start(config, seats), steps) && Run(Start(config, seats), steps) == p;
    StartConserves(config, seats);
    RunConserves(Start(config, seats), steps);
  }

  // ----- Main results -----

  /** The uncredited sequences of a session that name slot `i`. */
  ghost function Names(s: Session, i: nat): set<nat>
    requires s.Sound()
  {
    set q | s.window.credited <= q < s.window.next && s.At(q).slot == i
  }

  /** How many (session, uncredited sequence) pairs name slot `i`. */
  ghost function PairsNaming(ss: seq<Session>, i: nat): nat
    requires AllSound(ss)
  {
    if ss == [] then 0 else |Names(ss[0], i)| + PairsNaming(ss[1..], i)
  }

  lemma {:induction false} HeldCountsNames(s: Session, i: nat)
    requires s.Sound()
    ensures Held(s)[i] == |Names(s, i)|
    decreases s.window.next - s.window.credited
  {
    if s.window.next == s.window.credited {
      assert Names(s, i) == {};
    } else {
      var rest := s.(window := s.window.(credited := s.window.credited + 1));
      HeldCountsNames(rest, i);
      HeldSplitsOldest(s, rest);
      NamesSplitOldest(s, rest, i);
    }
  }

  lemma HeldSplitsOldest(s: Session, rest: Session)
    requires s.Sound() && s.window.credited < s.window.next
    requires rest == s.(window := s.window.(credited := s.window.credited + 1))
    ensures Held(s) == multiset{s.At(s.window.credited).slot} + Held(rest)
  {
    RingSuffix(s, rest, 1);
    assert Slots(s.Outstanding()) == [s.At(s.window.credited).slot] + Slots(rest.Outstanding());
  }

  lemma NamesSplitOldest(s: Session, rest: Session, i: nat)
    requires s.Sound() && s.window.credited < s.window.next
    requires rest == s.(window := s.window.(credited := s.window.credited + 1))
    ensures |Names(s, i)| == |Names(rest, i)| + (if s.At(s.window.credited).slot == i then 1 else 0)
  {
    assert s.window.credited !in Names(rest, i);
    assert Names(s, i) == Names(rest, i) + (if s.At(s.window.credited).slot == i then {s.window.credited} else {});
  }

  lemma {:induction false} HeldCountsPairs(ss: seq<Session>, i: nat)
    requires AllSound(ss)
    ensures HeldByAll(ss)[i] == PairsNaming(ss, i)
  {
    if ss != [] {
      HeldCountsNames(ss[0], i);
      HeldCountsPairs(ss[1..], i);
    }
  }

  /** In every reachable state each slot is in exactly one of free list, publish
      queue, caller handle or referenced; outside a fan-out its reference count is
      the number of uncredited sequences naming it; and no count has underflowed
      and no return to the free list has failed. */
  lemma SlotsConserved(p: Publisher, i: nat)
    requires Reachable(p) && i < p.config.depth
    ensures AllSound(p.sessions) && i < |p.pool.refs| && !p.pool.fault
    ensures Places(p.pool, p.queue, p.handles, i) == 1
    ensures p.fanning.Idle? ==> p.pool.refs[i] == PairsNaming(p.sessions, i)
  {
    ReachableConserved(p);
    HeldCountsPairs(p.sessions, i);
  }

  /** Once every session has ended and been torn down, and every handle dropped
      and frame fanned out, the whole ring is free again. */
  lemma DrainedRingIsFree(p: Publisher)
    requires Reachable(p) && p.fanning.Idle? && p.queue == [] && p.handles == {}
    requires forall s :: s in p.sessions ==> Seatable(s.state)
    ensures forall i :: 0 <= i < p.config.depth ==> i in p.pool.free
  {
    ReachableConserved(p);
    EmptyTableHoldsNothing(p.sessions);
    forall i | 0 <= i < p.config.depth
      ensures i in p.pool.free
    {
      assert Places(p.pool, p.queue, p.handles, i) == 1;
    }
  }

  // ----- Runs built step by step -----

  /** A run extended by one more step. */
  lemma {:induction false} RunExtends(p: Publisher, steps: seq<Step>, step: Step)
    requires Legal(p, steps) && Enabled(Run(p, steps), step)
    ensures Legal(p, steps + [step]) && Run(p, steps + [step]) == Apply(Run(p, steps), step)
    decreases |steps|
  {
    if steps == [] {
      assert [step][1..] == [];
      assert Legal(Apply(p, step), []);
      assert Run(Apply(p, step), []) == Apply(p, step);
    } else {
      assert (steps + [step])[1..] == steps[1..] + [step];
      RunExtends(Apply(p, steps[0]), steps[1..], step);
    }
  }

  /** `now` is where the run `steps` from `p` has got to, with slots conserved. */
  ghost predicate Reached(p: Publisher, steps: seq<Step>, now: Publisher) {
    Legal(p, steps) && Run(p, steps) == now && Conserved(now)
  }

  lemma Advance(p: Publisher, steps: seq<Step>, now: Publisher, step: Step)
    requires Reached(p, steps, now) && Enabled(now, step)
    ensures Reached(p, steps + [step], Apply(now, step))
  {
    RunExtends(p, steps, step);
    StepConserves(now, step);
  }
}
