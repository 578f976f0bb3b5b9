/** The producer's slot pool: a bounded queue of free slot indices and a gauge of
    how many are out. */
module ProducerSlotPool {
  import opened Base
  import opened BoundedQueues
  import opened SlotConservation

  /** Every listed slot is real and listed once. */
  ghost predicate DistinctSlots(free: seq<nat>, depth: nat) {
    forall i :: i in free ==> i < depth && multiset(free)[i] == 1
  }

  /** All slots, in order. */
  ghost function FirstSlots(depth: nat): seq<nat> {
    seq(depth, i => i)
  }

  lemma RangeDistinct(depth: nat)
    ensures DistinctSlots(FirstSlots(depth), depth)
  {
    var all := FirstSlots(depth);
    forall i | i in all
      ensures i < depth && multiset(all)[i] == 1
    {
      CountInRange(depth, i);
    }
  }

  lemma TakeDistinct(slot: nat, rest: seq<nat>, depth: nat)
    requires DistinctSlots([slot] + rest, depth)
    ensures DistinctSlots(rest, depth) && slot < depth && slot !in rest
  {
    var all := [slot] + rest;
    assert all[0] in all;
    assert multiset(all) == multiset{slot} + multiset(rest);
    forall i | i in rest
      ensures i in all
    {
    }
  }

  lemma ReturnDistinct(free: seq<nat>, slot: nat, depth: nat)
    requires DistinctSlots(free, depth) && slot < depth && slot !in free
    ensures DistinctSlots(free + [slot], depth) && |free| < depth
  {
    RoomForMissing(free, depth, slot);
    assert multiset(free + [slot]) == multiset(free) + multiset{slot};
  }

  /** Queue every slot, in order. */
  method FillQueue(q: BoundedQueue<nat>, depth: nat)
    requires q.Valid() && q.Contents() == [] && q.cells.Length >= depth
    modifies q, q.cells
    ensures q.Valid() && q.Contents() == FirstSlots(depth)
  {
    for i := 0 to depth
      invariant q.Valid() && q.Contents() == FirstSlots(i)
    {
      var pushed := q.TryPush(i);
      assert pushed && FirstSlots(i) + [i] == FirstSlots(i + 1);
    }
  }

  class ProducerSlots {
    const depth: nat
    const free: BoundedQueue<nat>
    var retained: nat

    ghost function Repr(): set<object> {
      {this, free, free.cells}
    }

    /** The free slots are distinct and the gauge counts the others. */
    ghost predicate Valid()
      reads this, free, free.cells
    {
      && free.Valid() && free.cells.Length >= depth
      && DistinctSlots(free.Contents(), depth)
      && retained + |free.Contents()| == depth
    }

    ghost function Free(): seq<nat>
      requires Valid()
      reads this, free, free.cells
    {
      free.Contents()
    }

    /** Every slot starts free, in order. */
    constructor (depth: nat)
      requires depth >= 2
      ensures Valid() && Free() == FirstSlots(depth) && this.depth == depth
      ensures fresh(free) && fresh(free.cells)
    {
      this.depth := depth;
      this.free := new BoundedQueue(depth, 0);
      retained := 0;
      new;
      FillQueue(free, depth);
      RangeDistinct(depth);
    }

    /** Take the slot that has been free longest. */
    method TryAcquire() returns (slot: Option<nat>)
      requires Valid()
      modifies Repr()
      ensures Valid()
      ensures old(Free()) == (if slot.Some? then [slot.value] else []) + Free()
      ensures slot.None? <==> old(retained) == depth
      ensures slot.Some? ==> slot.value < depth && slot.value !in Free()
    {
      slot := free.TryPop();
      if slot.Some? {
        TakeDistinct(slot.value, free.Contents(), depth);
        retained := retained + 1;
      }
    }

    /** Return a slot that is out; there is always room for it. */
    method Release(slot: nat)
      requires Valid() && slot < depth && slot !in Free()
      modifies Repr()
      ensures Valid() && Free() == old(Free()) + [slot]
    {
      ReturnDistinct(free.Contents(), slot, depth);
      var pushed := free.TryPush(slot);
      assert pushed;
      retained := retained - 1;
    }
  }
}
