/** The bounded queue as one thread sees it: a ring of sequenced cells that behaves
    as a first-in first-out queue of fixed capacity. */
module BoundedQueues {
  import opened Base
  import opened MpmcQueue

  predicate IsPow2(n: nat) {
    n == 1 || (n > 1 && n % 2 == 0 && IsPow2(n / 2))
  }

  /** Powers of two at least double from one to the next. */
  lemma {:induction false} Pow2Gap(a: nat, b: nat)
    requires IsPow2(a) && IsPow2(b) && a < b
    ensures 2 * a <= b
  {
    if a > 1 {
      Pow2Gap(a / 2, b / 2);
    }
  }

  /** The least power of two that is at least `n`. */
  method RoundUpPow2(n: nat) returns (p: nat)
    ensures IsPow2(p) && n <= p
    ensures forall q :: IsPow2(q) && n <= q ==> p <= q
  {
    p := 1;
    while p < n
      invariant IsPow2(p) && (p == 1 || (IsPow2(p / 2) && p % 2 == 0 && p / 2 < n))
      decreases n - p
    {
      p := p * 2;
      assert p / 2 * 2 == p;
    }
    forall q | IsPow2(q) && n <= q
      ensures p <= q
    {
      if p > 1 {
        Pow2Gap(p / 2, q);
      }
    }
  }

  // ----- The ring on values -----

  function TicketCell<T>(cells: seq<Cell<T>>, ticket: nat): Cell<T>
    requires cells != []
  {
    cells[ticket % |cells|]
  }

  /** Cells of queued tickets are marked filled, the rest of the lap free. */
  ghost predicate RingOk<T>(cells: seq<Cell<T>>, dequeue: nat, enqueue: nat) {
    && |cells| >= 2
    && dequeue <= enqueue <= dequeue + |cells|
    && (forall k :: dequeue <= k < enqueue ==> TicketCell(cells, k).sequence == k + 1)
    && (forall k :: enqueue <= k < dequeue + |cells| ==> TicketCell(cells, k).sequence == k)
  }

  ghost function Queued<T>(cells: seq<Cell<T>>, dequeue: nat, enqueue: nat): seq<T>
    requires cells != [] && dequeue <= enqueue
  {
    seq(enqueue - dequeue, i requires 0 <= i => TicketCell(cells, dequeue + i).data)
  }

  /** A store for one ticket leaves every other ticket of the lap alone. */
  lemma StoreElsewhere<T>(cells: seq<Cell<T>>, pos: nat, cell: Cell<T>, k: nat)
    requires cells != [] && (pos < k < pos + |cells| || k < pos < k + |cells|)
    ensures TicketCell(cells[pos % |cells| := cell], k) == TicketCell(cells, k)
  {
    if k % |cells| == pos % |cells| {
      RingIndexUnique(Min(k, pos), Max(k, pos), |cells|);
    }
  }

  /** What the push's sequence comparison reads: free exactly when there is room. */
  lemma PushSees<T>(cells: seq<Cell<T>>, dequeue: nat, enqueue: nat)
    requires RingOk(cells, dequeue, enqueue)
    ensures enqueue < dequeue + |cells| ==> TicketCell(cells, enqueue).sequence == enqueue
    ensures enqueue == dequeue + |cells| ==> TicketCell(cells, enqueue).sequence < enqueue
  {
    if enqueue == dequeue + |cells| {
      RingIndexPeriod(dequeue, |cells|);
      assert TicketCell(cells, dequeue).sequence == dequeue + 1;
    }
  }

  lemma PopSees<T>(cells: seq<Cell<T>>, dequeue: nat, enqueue: nat)
    requires RingOk(cells, dequeue, enqueue)
    ensures dequeue < enqueue ==> TicketCell(cells, dequeue).sequence == dequeue + 1
    ensures dequeue == enqueue ==> TicketCell(cells, dequeue).sequence < dequeue + 1
  {
  }

  lemma PushRing<T>(cells: seq<Cell<T>>, dequeue: nat, enqueue: nat, item: T)
    requires RingOk(cells, dequeue, enqueue) && enqueue < dequeue + |cells|
    ensures var cells' := cells[enqueue % |cells| := Cell(enqueue + 1, item)];
      && RingOk(cells', dequeue, enqueue + 1)
      && Queued(cells', dequeue, enqueue + 1) == Queued(cells, dequeue, enqueue) + [item]
  {
    var cell := Cell(enqueue + 1, item);
    var cells' := cells[enqueue % |cells| := cell];
    forall k | dequeue <= k < dequeue + |cells| && k != enqueue
      ensures TicketCell(cells', k) == TicketCell(cells, k)
    {
      StoreElsewhere(cells, enqueue, cell, k);
    }
    assert TicketCell(cells', enqueue) == cell;
  }

  lemma PopRing<T>(cells: seq<Cell<T>>, dequeue: nat, enqueue: nat, blank: T)
    requires RingOk(cells, dequeue, enqueue) && dequeue < enqueue
    ensures var cells' := cells[dequeue % |cells| := Cell(dequeue + |cells|, blank)];
      && RingOk(cells', dequeue + 1, enqueue)
      && Queued(cells, dequeue, enqueue) == [TicketCell(cells, dequeue).data] + Queued(cells', dequeue + 1, enqueue)
  {
    var cell := Cell(dequeue + |cells|, blank);
    var cells' := cells[dequeue % |cells| := cell];
    forall k | dequeue < k < dequeue + |cells|
      ensures TicketCell(cells', k) == TicketCell(cells, k)
    {
      StoreElsewhere(cells, dequeue, cell, k);
    }
    RingIndexPeriod(dequeue, |cells|);
    assert TicketCell(cells', dequeue + |cells|) == cell;
  }

  // ----- The class -----

  class BoundedQueue<T> {
    const cells: array<Cell<T>>
    const blank: T
    var enqueue: nat
    var dequeue: nat
    var size: nat

    ghost predicate Valid()
      reads this, cells
    {
      RingOk(cells[..], dequeue, enqueue) && size == enqueue - dequeue
    }

    ghost function Contents(): seq<T>
      requires Valid()
      reads this, cells
    {
      Queued(cells[..], dequeue, enqueue)
    }

    /** Room for at least `capacity` items, rounded up to a power of two. */
    constructor (capacity: nat, blank: T)
      ensures fresh(cells) && IsPow2(cells.Length) && cells.Length >= capacity
      ensures capacity >= 2 ==> Valid() && Contents() == []
      ensures capacity < 2 ==> cells.Length == 1 && !Valid()
    {
      var rounded := RoundUpPow2(capacity);
      cells := new Cell<T>[rounded](i requires 0 <= i => Cell(i, blank));
      this.blank := blank;
      enqueue, dequeue, size := 0, 0, 0;
      new;
      forall k | 0 <= k < rounded
        ensures TicketCell(cells[..], k).sequence == k
      {
        DivModUnique(k, rounded, 0, k);
      }
    }

    /** Append `item`, or leave the queue as it is when full. */
    method TryPush(item: T) returns (pushed: bool)
      requires Valid()
      modifies this`enqueue, this`size, cells
      ensures Valid()
      ensures pushed <==> |old(Contents())| < cells.Length
      ensures Contents() == if pushed then old(Contents()) + [item] else old(Contents())
    {
      var pos := enqueue;
      PushSees(cells[..], dequeue, enqueue);
      var sequence := cells[pos % cells.Length].sequence;
      if sequence < pos {
        return false;
      }
      PushRing(cells[..], dequeue, enqueue, item);
      enqueue := pos + 1;
      cells[pos % cells.Length] := Cell(pos + 1, item);
      size := size + 1;
      pushed := true;
      assert cells[..] == old(cells[..])[pos % cells.Length := Cell(pos + 1, item)];
    }

    /** Remove the oldest item, if there is one. */
    method TryPop() returns (r: Option<T>)
      requires Valid()
      modifies this`dequeue, this`size, cells
      ensures Valid()
      ensures r.None? <==> old(Contents()) == []
      ensures old(Contents()) == (if r.Some? then [r.value] else []) + Contents()
    {
      var pos := dequeue;
      PopSees(cells[..], dequeue, enqueue);
      var sequence := cells[pos % cells.Length].sequence;
      if sequence < pos + 1 {
        return None;
      }
      PopRing(cells[..], dequeue, enqueue, blank);
      dequeue := pos + 1;
      r := Some(cells[pos % cells.Length].data);
      cells[pos % cells.Length] := Cell(pos + cells.Length, blank);
      size := size - 1;
      assert cells[..] == old(cells[..])[pos % cells.Length := Cell(pos + cells.Length, blank)];
    }
  }
}
