/** The ticketed queue under any interleaving of any number of threads.

    Every atomic access is one step: loading a cursor, loading a cell's sequence,
    the compare-exchange (which may fail spuriously), moving the data, and storing
    the cell's next sequence.  `items` and `popped` are history: what was pushed
    with each ticket and what the pop holding each ticket returned. */
module MpmcQueue {
  import opened Base

  datatype Cell<T> = Cell(sequence: nat, data: T)

  /** Where a thread stands inside try_push or try_pop. */
  datatype Thread<T> =
    | Ready
    | PushAt(item: T, pos: nat)                     // cursor loaded
    | PushSaw(item: T, pos: nat, sequence: nat)     // cell sequence loaded
    | PushOwns(item: T, pos: nat)                   // exchange won, data not written
    | PushWrote(pos: nat)                           // data written, sequence not stored
    | PopAt(pos: nat)
    | PopSaw(pos: nat, sequence: nat)
    | PopOwns(pos: nat)
    | PopTook(pos: nat, taken: T)
  {
    predicate OwnsPush(k: nat) {
      (PushOwns? || PushWrote?) && pos == k
    }

    predicate OwnsPop(k: nat) {
      (PopOwns? || PopTook?) && pos == k
    }

    /** The thread has won a ticket and may touch its cell. */
    predicate Owner() {
      PushOwns? || PushWrote? || PopOwns? || PopTook?
    }
  }

  datatype Queue<T> = Queue(cells: seq<Cell<T>>, enqueue: nat, dequeue: nat, threads: seq<Thread<T>>,
                            items: seq<T>, popped: map<nat, T>, blank: T)
  {
    function Index(pos: nat): nat
      requires cells != []
    {
      pos % |cells|
    }

    function At(pos: nat): Cell<T>
      requires cells != []
    {
      cells[pos % |cells|]
    }

    function With(t: nat, thread: Thread<T>): Queue<T>
      requires t < |threads|
    {
      this.(threads := threads[t := thread])
    }

    function Store(pos: nat, cell: Cell<T>): Queue<T>
      requires cells != []
    {
      this.(cells := cells[pos % |cells| := cell])
    }
  }

  datatype Step<T> = StartPush(t: nat, item: T) | StartPop(t: nat) | Advance(t: nat, spurious: bool)

  predicate Enabled<T>(q: Queue<T>, step: Step<T>) {
    && q.cells != [] && step.t < |q.threads|
    && (step.Advance? <==> !q.threads[step.t].Ready?)
  }

  /** The compare-exchange on the enqueue cursor, or the reasons not to try it. */
  function DecidePush<T>(q: Queue<T>, t: nat, item: T, pos: nat, sequence: nat, spurious: bool): Queue<T>
    requires t < |q.threads|
  {
    if sequence < pos then q.With(t, Ready)                                     // full
    else if sequence == pos && q.enqueue == pos && !spurious then
      q.(enqueue := pos + 1, items := q.items + [item]).With(t, PushOwns(item, pos))
    else q.With(t, PushAt(item, q.enqueue))
  }

  function DecidePop<T>(q: Queue<T>, t: nat, pos: nat, sequence: nat, spurious: bool): Queue<T>
    requires t < |q.threads|
  {
    if sequence < pos + 1 then q.With(t, Ready)                                 // empty
    else if sequence == pos + 1 && q.dequeue == pos && !spurious then
      q.(dequeue := pos + 1).With(t, PopOwns(pos))
    else q.With(t, PopAt(q.dequeue))
  }

  function Apply<T>(q: Queue<T>, step: Step<T>): Queue<T>
    requires Enabled(q, step)
  {
    var t := step.t;
    match step
    case StartPush(_, item) => q.With(t, PushAt(item, q.enqueue))
    case StartPop(_) => q.With(t, PopAt(q.dequeue))
    case Advance(_, spurious) =>
      match q.threads[t]
      case PushAt(item, pos) => q.With(t, PushSaw(item, pos, q.At(pos).sequence))
      case PushSaw(item, pos, sequence) => DecidePush(q, t, item, pos, sequence, spurious)
      case PushOwns(item, pos) => q.Store(pos, q.At(pos).(data := item)).With(t, PushWrote(pos))
      case PushWrote(pos) => q.Store(pos, q.At(pos).(sequence := pos + 1)).With(t, Ready)
      case PopAt(pos) => q.With(t, PopSaw(pos, q.At(pos).sequence))
      case PopSaw(pos, sequence) => DecidePop(q, t, pos, sequence, spurious)
      case PopOwns(pos) => q.Store(pos, q.At(pos).(data := q.blank)).With(t, PopTook(pos, q.At(pos).data))
      case PopTook(pos, item) =>
        q.(popped := q.popped[pos := item])
        .Store(pos, q.At(pos).(sequence := pos + |q.cells|)).With(t, Ready)
  }

  function Start<T>(capacity: nat, threads: nat, blank: T): Queue<T> {
    Queue(seq(capacity, i requires 0 <= i => Cell(i, blank)), 0, 0, seq(threads, i => Ready), [], map[], blank)
  }

  ghost predicate Legal<T>(q: Queue<T>, steps: seq<Step<T>>)
    decreases |steps|
  {
    steps == [] || (Enabled(q, steps[0]) && Legal(Apply(q, steps[0]), steps[1..]))
  }

  ghost function Run<T>(q: Queue<T>, steps: seq<Step<T>>): Queue<T>
    requires Legal(q, steps)
    decreases |steps|
  {
    if steps == [] then q else Run(Apply(q, steps[0]), steps[1..])
  }

  ghost predicate ReachableWith<T(!new)>(q: Queue<T>, capacity: nat) {
    exists threads: nat, blank: T, steps ::
      Legal(Start(capacity, threads, blank), steps) && Run(Start(capacity, threads, blank), steps) == q
  }

  // ----- The invariant -----

  /** The cell waits for ticket `sequence` to be pushed, or is being filled. */
  ghost predicate Awaiting<T>(cells: seq<Cell<T>>, dequeue: nat, j: nat)
    requires j < |cells|
  {
    var s := cells[j].sequence;
    s % |cells| == j && dequeue <= s < dequeue + |cells|
  }

  /** The cell holds ticket `sequence - 1`, or is being emptied of it. */
  ghost predicate Filled<T>(cells: seq<Cell<T>>, enqueue: nat, dequeue: nat, items: seq<T>, j: nat)
    requires j < |cells| && |items| == enqueue
  {
    var s := cells[j].sequence;
    && s > 0 && (s - 1) % |cells| == j
    && s <= enqueue < s + |cells|
    && (dequeue < s ==> cells[j].data == items[s - 1])
  }

  ghost predicate CellsOk<T>(cells: seq<Cell<T>>, enqueue: nat, dequeue: nat, items: seq<T>)
    requires |items| == enqueue
  {
    forall j :: 0 <= j < |cells| ==>
      Awaiting(cells, dequeue, j) || Filled(cells, enqueue, dequeue, items, j)
  }

  ghost predicate ThreadOk<T>(q: Queue<T>, thread: Thread<T>)
    requires q.cells != [] && |q.items| == q.enqueue
  {
    match thread
    case Ready => true
    case PushAt(_, pos) => pos <= q.enqueue
    case PushSaw(_, pos, s) => pos <= q.enqueue && s <= q.At(pos).sequence
    case PushOwns(item, pos) => q.dequeue <= pos < q.enqueue && q.At(pos).sequence == pos && q.items[pos] == item
    case PushWrote(pos) => q.dequeue <= pos < q.enqueue && q.At(pos) == Cell(pos, q.items[pos])
    case PopAt(pos) => pos <= q.dequeue
    case PopSaw(pos, s) => pos <= q.dequeue && s <= q.At(pos).sequence
    case PopOwns(pos) =>
      pos < q.dequeue && pos < q.enqueue && pos !in q.popped && q.At(pos) == Cell(pos + 1, q.items[pos])
    case PopTook(pos, item) =>
      && pos < q.dequeue && pos < q.enqueue && pos !in q.popped
      && q.At(pos).sequence == pos + 1 && item == q.items[pos]
  }

  ghost predicate ThreadsOk<T>(q: Queue<T>)
    requires q.cells != [] && |q.items| == q.enqueue
  {
    forall i :: 0 <= i < |q.threads| ==> ThreadOk(q, q.threads[i])
  }

  /** No two threads own the same cell. */
  ghost predicate CellsExclusive<T>(q: Queue<T>)
    requires q.cells != []
  {
    forall i, k :: 0 <= i < |q.threads| && 0 <= k < |q.threads| && i != k
                && q.threads[i].Owner() && q.threads[k].Owner()
      ==> q.Index(q.threads[i].pos) != q.Index(q.threads[k].pos)
  }

  ghost predicate PushInProgress<T>(q: Queue<T>, k: nat) {
    exists i :: 0 <= i < |q.threads| && q.threads[i].OwnsPush(k)
  }

  ghost predicate PopInProgress<T>(q: Queue<T>, k: nat) {
    exists i :: 0 <= i < |q.threads| && q.threads[i].OwnsPop(k)
  }

  /** Ticket `k` lies in its cell, published and unclaimed. */
  ghost predicate Resting<T>(q: Queue<T>, k: nat)
    requires q.cells != [] && k < |q.items|
  {
    q.dequeue <= k && q.At(k) == Cell(k + 1, q.items[k])
  }

  /** Ticket `k` is somewhere: nothing pushed is ever lost. */
  ghost predicate Placed<T>(q: Queue<T>, k: nat)
    requires q.cells != [] && k < |q.items|
  {
    if k < q.dequeue then k in q.popped || PopInProgress(q, k)
    else PushInProgress(q, k) || Resting(q, k)
  }

  ghost predicate AllPlaced<T>(q: Queue<T>)
    requires q.cells != []
  {
    forall k :: 0 <= k < |q.items| ==> Placed(q, k)
  }

  /** A finished pop returned its own ticket's item and freed the cell. */
  ghost predicate PoppedOk<T>(q: Queue<T>)
    requires q.cells != []
  {
    forall k :: k in q.popped ==>
      k < q.dequeue && k < |q.items| && q.popped[k] == q.items[k] && q.At(k).sequence >= k + |q.cells|
  }

  ghost predicate Inv<T>(q: Queue<T>) {
    && |q.cells| >= 2
    && |q.items| == q.enqueue
    && q.dequeue <= q.enqueue <= q.dequeue + |q.cells|
    && CellsOk(q.cells, q.enqueue, q.dequeue, q.items)
    && ThreadsOk(q)
    && CellsExclusive(q)
    && PoppedOk(q)
    && AllPlaced(q)
  }

  // ----- Ring arithmetic -----

  /** A later number with the same index is at least one turn later. */
  lemma NextTurn(a: nat, b: nat, c: nat)
    requires c > 0 && a < b && a % c == b % c
    ensures b >= a + c
  {
    if b < a + c {
      RingIndexUnique(a, b, c);
    }
  }

  /** With two or more cells, neighbouring tickets use different cells. */
  lemma NeighboursDiffer(a: nat, c: nat)
    requires c >= 2
    ensures a % c != (a + 1) % c
  {
    if a % c == (a + 1) % c {
      RingIndexUnique(a, a + 1, c);
    }
  }

  /** A free cell at least as advanced as the enqueue cursor is at it exactly. */
  lemma FreeForCursor(s: nat, enqueue: nat, dequeue: nat, c: nat)
    requires c >= 2 && dequeue <= enqueue <= s
    requires (s % c == enqueue % c && s < dequeue + c) || (s > 0 && (s - 1) % c == enqueue % c && s <= enqueue)
    ensures s == enqueue < dequeue + c
  {
    if s > 0 && (s - 1) % c == enqueue % c && s <= enqueue {
      NeighboursDiffer(s - 1, c);
    } else if s > enqueue {
      NextTurn(enqueue, s, c);
    }
  }

  /** At the winning push exchange the cell is still free for this ticket. */
  lemma PushExchange<T>(q: Queue<T>, sequence: nat)
    requires Inv(q) && sequence == q.enqueue && sequence <= q.At(q.enqueue).sequence
    ensures q.At(q.enqueue).sequence == q.enqueue < q.dequeue + |q.cells|
  {
    var j := q.enqueue % |q.cells|;
    assert Awaiting(q.cells, q.dequeue, j) || Filled(q.cells, q.enqueue, q.dequeue, q.items, j);
    FreeForCursor(q.cells[j].sequence, q.enqueue, q.dequeue, |q.cells|);
  }

  /** At the winning pop exchange the cell still holds this ticket's item. */
  lemma PopExchange<T>(q: Queue<T>, sequence: nat)
    requires Inv(q) && sequence == q.dequeue + 1 <= q.At(q.dequeue).sequence
    ensures q.dequeue < q.enqueue && q.At(q.dequeue) == Cell(q.dequeue + 1, q.items[q.dequeue])
  {
    var pos, c := q.dequeue, |q.cells|;
    var s := q.At(pos).sequence;
    assert Awaiting(q.cells, q.dequeue, pos % c) || Filled(q.cells, q.enqueue, q.dequeue, q.items, pos % c);
    if s % c == pos % c {
      NextTurn(pos, s, c);
    }
    if s > pos + 1 && (s - 1) % c == pos % c {
      NextTurn(pos, s - 1, c);
    }
  }

  /** Two owners of one cell would hold the same ticket for the same purpose. */
  lemma OwnersOfOneCell<T>(q: Queue<T>, i: nat, pos: nat, push: bool)
    requires Inv(q) && i < |q.threads| && q.threads[i].Owner()
    requires q.Index(q.threads[i].pos) == q.Index(pos)
    requires q.At(pos).sequence == (if push then pos else pos + 1)
    ensures if push then q.threads[i].OwnsPush(pos) else q.threads[i].OwnsPop(pos)
  {
    var thread := q.threads[i];
    assert ThreadOk(q, thread);
    NeighboursDiffer(thread.pos, |q.cells|);
    NeighboursDiffer(pos, |q.cells|);
  }

  // ----- Every step keeps the invariant -----

  /** A thread that owns nothing moves to another state that owns nothing. */
  lemma MoveKeeps<T>(q: Queue<T>, t: nat, thread: Thread<T>)
    requires Inv(q) && t < |q.threads| && !q.threads[t].Owner()
    requires !thread.Owner() && ThreadOk(q, thread)
    ensures Inv(q.With(t, thread))
  {
    var q' := q.With(t, thread);
    forall i | 0 <= i < |q'.threads|
      ensures ThreadOk(q', q'.threads[i])
    {
      assert i != t ==> ThreadOk(q, q.threads[i]);
    }
    forall k | 0 <= k < |q.items|
      ensures Placed(q', k)
    {
      StillPlaced(q, q', t, thread, k);
    }
  }

  /** A ticket another thread works on, or that rests untouched, stays placed. */
  lemma StillPlaced<T>(q: Queue<T>, q': Queue<T>, t: nat, thread: Thread<T>, k: nat)
    requires q.cells != [] && q'.cells != [] && k < |q.items| && k < |q'.items|
    requires Placed(q, k) && t < |q.threads|
    requires (k < q'.dequeue <==> k < q.dequeue) && q'.items[k] == q.items[k]
    requires q'.threads == q.threads[t := thread]
    requires !(q.threads[t].Owner() && q.threads[t].pos == k)
    requires Resting(q, k) ==> Resting(q', k)
    requires k in q.popped ==> k in q'.popped
    ensures Placed(q', k)
  {
    if PopInProgress(q, k) {
      var i :| 0 <= i < |q.threads| && q.threads[i].OwnsPop(k);
      assert q'.threads[i].OwnsPop(k);
    }
    if PushInProgress(q, k) {
      var i :| 0 <= i < |q.threads| && q.threads[i].OwnsPush(k);
      assert q'.threads[i].OwnsPush(k);
    }
  }

  /** An owner rewrites its own cell: no other thread notices. */
  lemma StoreKeepsThreads<T>(q: Queue<T>, q': Queue<T>, t: nat, cell: Cell<T>, thread: Thread<T>)
    requires Inv(q) && t < |q.threads| && q.threads[t].Owner()
    requires q'.cells == q.cells[q.Index(q.threads[t].pos) := cell]
    requires q'.threads == q.threads[t := thread] && q'.enqueue == q.enqueue && q'.dequeue == q.dequeue
    requires q'.items == q.items && forall k :: k in q'.popped ==> k in q.popped || k == q.threads[t].pos
    requires cell.sequence >= q.At(q.threads[t].pos).sequence
    requires thread.Ready? || (thread.Owner() && thread.pos == q.threads[t].pos)
    requires ThreadOk(q', thread)
    ensures ThreadsOk(q') && CellsExclusive(q')
  {
    forall i | 0 <= i < |q'.threads|
      ensures ThreadOk(q', q'.threads[i])
    {
      assert i != t ==> ThreadOk(q, q.threads[i]);
    }
  }

  lemma CellChangeKeeps<T>(q: Queue<T>, pos: nat, cell: Cell<T>)
    requires Inv(q)
    requires var cells := q.cells[q.Index(pos) := cell];
      Awaiting(cells, q.dequeue, q.Index(pos)) || Filled(cells, q.enqueue, q.dequeue, q.items, q.Index(pos))
    ensures CellsOk(q.cells[q.Index(pos) := cell], q.enqueue, q.dequeue, q.items)
  {
    var cells := q.cells[q.Index(pos) := cell];
    forall j | 0 <= j < |cells|
      ensures Awaiting(cells, q.dequeue, j) || Filled(cells, q.enqueue, q.dequeue, q.items, j)
    {
      if j != q.Index(pos) {
        assert Awaiting(q.cells, q.dequeue, j) || Filled(q.cells, q.enqueue, q.dequeue, q.items, j);
      }
    }
  }

  /** A resting ticket is not in a cell some thread owns. */
  lemma RestingUnowned<T>(q: Queue<T>, t: nat, k: nat)
    requires Inv(q) && t < |q.threads| && q.threads[t].Owner()
    requires k < |q.items| && Resting(q, k)
    ensures q.Index(k) != q.Index(q.threads[t].pos)
  {
    assert ThreadOk(q, q.threads[t]);
    if q.Index(k) == q.Index(q.threads[t].pos) {
      OwnersOfOneCell(q, t, k, false);
    }
  }

  lemma StoreKeepsPlaced<T>(q: Queue<T>, q': Queue<T>, t: nat, cell: Cell<T>, thread: Thread<T>)
    requires Inv(q) && t < |q.threads| && q.threads[t].Owner()
    requires q'.cells == q.cells[q.Index(q.threads[t].pos) := cell]
    requires q'.threads == q.threads[t := thread] && q'.dequeue == q.dequeue && q'.items == q.items
    requires forall k :: k in q.popped ==> k in q'.popped
    requires ThreadOk(q, q.threads[t]) ==> Placed(q', q.threads[t].pos)
    ensures AllPlaced(q')
  {
    var pos := q.threads[t].pos;
    assert ThreadOk(q, q.threads[t]);
    forall k | 0 <= k < |q.items|
      ensures Placed(q', k)
    {
      if k != pos {
        if Resting(q, k) {
          RestingUnowned(q, t, k);
        }
        StillPlaced(q, q', t, thread, k);
      }
    }
  }

  lemma PushWinKeeps<T>(q: Queue<T>, t: nat, item: T)
    requires Inv(q) && t < |q.threads| && q.threads[t] == PushSaw(item, q.enqueue, q.enqueue)
    ensures Inv(q.(enqueue := q.enqueue + 1, items := q.items + [item]).With(t, PushOwns(item, q.enqueue)))
  {
    var pos, thread := q.enqueue, PushOwns(item, q.enqueue);
    var q' := q.(enqueue := pos + 1, items := q.items + [item]).With(t, thread);
    assert ThreadOk(q, q.threads[t]);
    PushExchange(q, pos);
    forall j | 0 <= j < |q.cells|
      ensures Awaiting(q.cells, q.dequeue, j) || Filled(q.cells, q'.enqueue, q.dequeue, q'.items, j)
    {
      PushWinKeepsCell(q, item, j);
    }
    forall i | 0 <= i < |q.threads| && i != t
      ensures ThreadOk(q', q'.threads[i])
      ensures q'.threads[i].Owner() ==> q.Index(q'.threads[i].pos) != q.Index(pos)
    {
      assert ThreadOk(q, q.threads[i]);
      if q.threads[i].Owner() && q.Index(q.threads[i].pos) == q.Index(pos) {
        OwnersOfOneCell(q, i, pos, true);
      }
    }
    forall k | 0 <= k < |q'.items|
      ensures Placed(q', k)
    {
      if k < |q.items| {
        StillPlaced(q, q', t, thread, k);
      } else {
        assert q'.threads[t].OwnsPush(k);
      }
    }
  }

  lemma PushWinKeepsCell<T>(q: Queue<T>, item: T, j: nat)
    requires Inv(q) && j < |q.cells| && q.At(q.enqueue).sequence == q.enqueue
    ensures Awaiting(q.cells, q.dequeue, j) || Filled(q.cells, q.enqueue + 1, q.dequeue, q.items + [item], j)
  {
    assert Awaiting(q.cells, q.dequeue, j) || Filled(q.cells, q.enqueue, q.dequeue, q.items, j);
    var s := q.cells[j].sequence;
    if Filled(q.cells, q.enqueue, q.dequeue, q.items, j) {
      RingIndexPeriod(s - 1, |q.cells|);
    }
  }

  lemma PopWinKeeps<T>(q: Queue<T>, t: nat)
    requires Inv(q) && t < |q.threads| && q.threads[t] == PopSaw(q.dequeue, q.dequeue + 1)
    ensures Inv(q.(dequeue := q.dequeue + 1).With(t, PopOwns(q.dequeue)))
  {
    var pos, thread := q.dequeue, PopOwns(q.dequeue);
    var q' := q.(dequeue := pos + 1).With(t, thread);
    assert ThreadOk(q, q.threads[t]);
    PopExchange(q, pos + 1);
    forall j | 0 <= j < |q.cells|
      ensures Awaiting(q.cells, q'.dequeue, j) || Filled(q.cells, q.enqueue, q'.dequeue, q.items, j)
    {
      assert Awaiting(q.cells, q.dequeue, j) || Filled(q.cells, q.enqueue, q.dequeue, q.items, j);
    }
    forall i | 0 <= i < |q.threads| && i != t
      ensures ThreadOk(q', q'.threads[i])
      ensures q'.threads[i].Owner() ==> q.Index(q'.threads[i].pos) != q.Index(pos)
    {
      assert ThreadOk(q, q.threads[i]);
      if q.threads[i].Owner() && q.Index(q.threads[i].pos) == q.Index(pos) {
        OwnersOfOneCell(q, i, pos, false);
      }
    }
    forall k | 0 <= k < |q.items|
      ensures Placed(q', k)
    {
      if k != pos {
        StillPlaced(q, q', t, thread, k);
      } else {
        assert q'.threads[t].OwnsPop(k);
      }
    }
  }

  lemma WriteKeeps<T>(q: Queue<T>, t: nat)
    requires Inv(q) && t < |q.threads| && q.threads[t].PushOwns?
    ensures Inv(Apply(q, Advance(t, false)))
  {
    var q', pos := Apply(q, Advance(t, false)), q.threads[t].pos;
    var cell, thread := q.At(pos).(data := q.threads[t].item), PushWrote(pos);
    assert ThreadOk(q, q.threads[t]);
    CellChangeKeeps(q, pos, cell);
    StoreKeepsThreads(q, q', t, cell, thread);
    assert q'.threads[t].OwnsPush(pos);
    StoreKeepsPlaced(q, q', t, cell, thread);
  }

  lemma PublishKeeps<T>(q: Queue<T>, t: nat)
    requires Inv(q) && t < |q.threads| && q.threads[t].PushWrote?
    ensures Inv(Apply(q, Advance(t, false)))
  {
    var q', pos := Apply(q, Advance(t, false)), q.threads[t].pos;
    var cell := q.At(pos).(sequence := pos + 1);
    assert ThreadOk(q, q.threads[t]);
    CellChangeKeeps(q, pos, cell);
    StoreKeepsThreads(q, q', t, cell, Ready);
    assert Resting(q', pos);
    StoreKeepsPlaced(q, q', t, cell, Ready);
  }

  /** While its popper works on it, a cell is not reused. */
  lemma PopperBounds<T>(q: Queue<T>, t: nat)
    requires Inv(q) && t < |q.threads| && (q.threads[t].PopOwns? || q.threads[t].PopTook?)
    ensures q.threads[t].pos < q.dequeue <= q.enqueue <= q.threads[t].pos + |q.cells|
  {
    var pos := q.threads[t].pos;
    assert ThreadOk(q, q.threads[t]);
    NeighboursDiffer(pos, |q.cells|);
    var j := q.Index(pos);
    assert Awaiting(q.cells, q.dequeue, j) || Filled(q.cells, q.enqueue, q.dequeue, q.items, j);
  }

  lemma TakeKeeps<T>(q: Queue<T>, t: nat)
    requires Inv(q) && t < |q.threads| && q.threads[t].PopOwns?
    ensures Inv(Apply(q, Advance(t, false)))
  {
    var q', pos := Apply(q, Advance(t, false)), q.threads[t].pos;
    var cell, thread := q.At(pos).(data := q.blank), PopTook(pos, q.At(pos).data);
    assert ThreadOk(q, q.threads[t]);
    PopperBounds(q, t);
    CellChangeKeeps(q, pos, cell);
    StoreKeepsThreads(q, q', t, cell, thread);
    assert q'.threads[t].OwnsPop(pos);
    StoreKeepsPlaced(q, q', t, cell, thread);
  }

  lemma RecycleKeeps<T>(q: Queue<T>, t: nat)
    requires Inv(q) && t < |q.threads| && q.threads[t].PopTook?
    ensures Inv(Apply(q, Advance(t, false)))
  {
    var q', pos := Apply(q, Advance(t, false)), q.threads[t].pos;
    var cell := q.At(pos).(sequence := pos + |q.cells|);
    assert ThreadOk(q, q.threads[t]);
    PopperBounds(q, t);
    RingIndexPeriod(pos, |q.cells|);
    CellChangeKeeps(q, pos, cell);
    StoreKeepsThreads(q, q', t, cell, Ready);
    StoreKeepsPlaced(q, q', t, cell, Ready);
  }

  lemma DecidePushKeeps<T>(q: Queue<T>, t: nat, item: T, pos: nat, sequence: nat, spurious: bool)
    requires Inv(q) && t < |q.threads| && q.threads[t] == PushSaw(item, pos, sequence)
    ensures Inv(DecidePush(q, t, item, pos, sequence, spurious))
  {
    if sequence < pos {
      MoveKeeps(q, t, Ready);
    } else if sequence == pos && q.enqueue == pos && !spurious {
      PushWinKeeps(q, t, item);
    } else {
      MoveKeeps(q, t, PushAt(item, q.enqueue));
    }
  }

  lemma DecidePopKeeps<T>(q: Queue<T>, t: nat, pos: nat, sequence: nat, spurious: bool)
    requires Inv(q) && t < |q.threads| && q.threads[t] == PopSaw(pos, sequence)
    ensures Inv(DecidePop(q, t, pos, sequence, spurious))
  {
    if sequence < pos + 1 {
      MoveKeeps(q, t, Ready);
    } else if sequence == pos + 1 && q.dequeue == pos && !spurious {
      PopWinKeeps(q, t);
    } else {
      MoveKeeps(q, t, PopAt(q.dequeue));
    }
  }

  lemma StepKeeps<T>(q: Queue<T>, step: Step<T>)
    requires Inv(q) && Enabled(q, step)
    ensures Inv(Apply(q, step))
  {
    var t := step.t;
    assert ThreadOk(q, q.threads[t]);
    match step {
      case StartPush(_, item) => MoveKeeps(q, t, PushAt(item, q.enqueue));
      case StartPop(_) => MoveKeeps(q, t, PopAt(q.dequeue));
      case Advance(_, spurious) => AdvanceKeeps(q, t, spurious);
    }
  }

  lemma AdvanceKeeps<T>(q: Queue<T>, t: nat, spurious: bool)
    requires Inv(q) && Enabled(q, Advance(t, spurious))
    ensures Inv(Apply(q, Advance(t, spurious)))
  {
    assert ThreadOk(q, q.threads[t]);
    match q.threads[t] {
      case PushAt(item, pos) => MoveKeeps(q, t, PushSaw(item, pos, q.At(pos).sequence));
      case PushSaw(item, pos, sequence) => DecidePushKeeps(q, t, item, pos, sequence, spurious);
      case PushOwns(_, _) => WriteKeeps(q, t);
      case PushWrote(_) => PublishKeeps(q, t);
      case PopAt(pos) => MoveKeeps(q, t, PopSaw(pos, q.At(pos).sequence));
      case PopSaw(pos, sequence) => DecidePopKeeps(q, t, pos, sequence, spurious);
      case PopOwns(_) => TakeKeeps(q, t);
      case PopTook(_, _) => RecycleKeeps(q, t);
    }
  }

  lemma {:induction false} RunKeeps<T>(q: Queue<T>, steps: seq<Step<T>>)
    requires Inv(q) && Legal(q, steps)
    ensures Inv(Run(q, steps)) && |Run(q, steps).cells| == |q.cells|
    decreases |steps|
  {
    if steps != [] {
      StepKeeps(q, steps[0]);
      RunKeeps(Apply(q, steps[0]), steps[1..]);
    }
  }

  lemma StartHolds<T>(capacity: nat, threads: nat, blank: T)
    requires capacity >= 2
    ensures Inv(Start(capacity, threads, blank))
  {
    var q := Start(capacity, threads, blank);
    forall j | 0 <= j < capacity
      ensures Awaiting(q.cells, 0, j)
    {
      DivModUnique(j, capacity, 0, j);
    }
  }

  lemma ReachableHolds<T(!new)>(q: Queue<T>, capacity: nat)
    requires capacity >= 2 && ReachableWith(q, capacity)
    ensures Inv(q) && |q.cells| == capacity
  {
    var threads: nat, blank: T, steps :|
      Legal(Start(capacity, threads, blank), steps) && Run(Start(capacity, threads, blank), steps) == q;
    StartHolds(capacity, threads, blank);
    RunKeeps(Start(capacity, threads, blank), steps);
  }

  // ----- Main results -----

  /** Between cursor loads and stores the queue never promises more places than it
      has; this is true exactly from two cells up. */
  lemma OccupancyBounded<T(!new)>(q: Queue<T>, capacity: nat)
    requires capacity >= 2 && ReachableWith(q, capacity)
    ensures q.dequeue <= q.enqueue <= q.dequeue + capacity
  {
    ReachableHolds(q, capacity);
  }

  /** The pop about to return ticket `k` carries exactly the item pushed with `k`;
      no pop has returned `k` before and none is working on it besides. */
  lemma PopReturnsItsTicketOnce<T(!new)>(q: Queue<T>, capacity: nat, t: nat)
    requires capacity >= 2 && ReachableWith(q, capacity)
    requires t < |q.threads| && q.threads[t].PopTook?
    ensures var k := q.threads[t].pos;
      && k < |q.items| && q.threads[t].taken == q.items[k]
      && k !in q.popped
      && forall i :: 0 <= i < |q.threads| && i != t ==> !q.threads[i].OwnsPop(k)
  {
    ReachableHolds(q, capacity);
    assert ThreadOk(q, q.threads[t]);
  }

  /** Every finished pop returned the item of its own ticket. */
  lemma PoppedMatchesPushed<T(!new)>(q: Queue<T>, capacity: nat, k: nat)
    requires capacity >= 2 && ReachableWith(q, capacity) && k in q.popped
    ensures k < |q.items| && q.popped[k] == q.items[k]
  {
    ReachableHolds(q, capacity);
  }

  /** No cell is touched by two threads at a time. */
  lemma OwnersApart<T(!new)>(q: Queue<T>, capacity: nat, i: nat, k: nat)
    requires capacity >= 2 && ReachableWith(q, capacity)
    requires i < |q.threads| && k < |q.threads| && i != k && q.threads[i].Owner() && q.threads[k].Owner()
    ensures q.cells != [] && q.Index(q.threads[i].pos) != q.Index(q.threads[k].pos)
  {
    ReachableHolds(q, capacity);
  }

  function Count(b: bool): nat {
    if b then 1 else 0
  }

  /** Nothing is lost or duplicated: every pushed ticket is in exactly one of being
      written, resting in its cell, being read, or returned. */
  lemma TicketInOnePlace<T(!new)>(q: Queue<T>, capacity: nat, k: nat)
    requires capacity >= 2 && ReachableWith(q, capacity) && k < |q.items|
    ensures q.cells != []
    ensures Count(PushInProgress(q, k)) + Count(Resting(q, k)) + Count(PopInProgress(q, k)) + Count(k in q.popped) == 1
  {
    ReachableHolds(q, capacity);
    assert Placed(q, k);
    if PushInProgress(q, k) {
      var i :| 0 <= i < |q.threads| && q.threads[i].OwnsPush(k);
      assert ThreadOk(q, q.threads[i]);
    }
    if PopInProgress(q, k) {
      var i :| 0 <= i < |q.threads| && q.threads[i].OwnsPop(k);
      assert ThreadOk(q, q.threads[i]);
    }
  }

  /** A push that is about to read "full" is right: the ticket one lap earlier has
      not been returned, so all places are taken or one is still being emptied. */
  lemma PushRefusedOnlyWhenFull<T(!new)>(q: Queue<T>, capacity: nat, t: nat)
    requires capacity >= 2 && ReachableWith(q, capacity) && t < |q.threads| && q.threads[t].PushAt?
    requires q.cells != [] && q.At(q.threads[t].pos).sequence < q.threads[t].pos
    ensures q.threads[t].pos == q.enqueue && q.enqueue >= capacity && q.enqueue - capacity !in q.popped
    ensures q.enqueue == q.dequeue + capacity || PopInProgress(q, q.enqueue - capacity)
  {
    ReachableHolds(q, capacity);
    var pos, j := q.threads[t].pos, q.Index(q.threads[t].pos);
    var s := q.At(pos).sequence;
    assert ThreadOk(q, q.threads[t]);
    assert Awaiting(q.cells, q.dequeue, j) || Filled(q.cells, q.enqueue, q.dequeue, q.items, j);
    if Awaiting(q.cells, q.dequeue, j) {
      NextTurn(s, pos, capacity);
    } else {
      NextTurn(s - 1, pos, capacity);
      assert q.enqueue - capacity == s - 1;
      assert Placed(q, s - 1);
    }
  }

  /** A pop that is about to read "empty" is right: nothing is queued behind its
      ticket, or the push that took the ticket has not finished. */
  lemma PopRefusedOnlyWhenEmpty<T(!new)>(q: Queue<T>, capacity: nat, t: nat)
    requires capacity >= 2 && ReachableWith(q, capacity) && t < |q.threads| && q.threads[t].PopAt?
    requires q.cells != [] && q.At(q.threads[t].pos).sequence < q.threads[t].pos + 1
    ensures q.threads[t].pos == q.dequeue
    ensures q.dequeue == q.enqueue || PushInProgress(q, q.dequeue)
  {
    ReachableHolds(q, capacity);
    var pos, j := q.threads[t].pos, q.Index(q.threads[t].pos);
    var s := q.At(pos).sequence;
    assert ThreadOk(q, q.threads[t]);
    assert Awaiting(q.cells, q.dequeue, j) || Filled(q.cells, q.enqueue, q.dequeue, q.items, j);
    if Awaiting(q.cells, q.dequeue, j) {
      assert pos < q.enqueue ==> Placed(q, pos);
    } else {
      NextTurn(s - 1, pos, capacity);
    }
  }

  // ----- One cell is too few -----

  /** The steps of one undisturbed push by the only thread. */
  function PushSteps(item: bool): seq<Step<bool>> {
    [StartPush(0, item), Advance(0, false), Advance(0, false), Advance(0, false), Advance(0, false)]
  }

  /** A one-cell queue after the given pushes: the cell holds the last item. */
  function Overfilled(items: seq<bool>): Queue<bool> {
    var n := |items|;
    Queue([Cell(n, n > 0 && items[n - 1])], n, 0, [Ready], items, map[], false)
  }

  lemma OneCellPush(items: seq<bool>, item: bool)
    ensures Legal(Overfilled(items), PushSteps(item))
    ensures Run(Overfilled(items), PushSteps(item)) == Overfilled(items + [item])
  {
    var n := |items|;
    var q0 := Overfilled(items);
    var q1 := q0.(threads := [PushAt(item, n)]);
    var q2 := q0.(threads := [PushSaw(item, n, n)]);
    var q3 := q0.(enqueue := n + 1, items := items + [item], threads := [PushOwns(item, n)]);
    var q4 := q3.(cells := [Cell(n, item)], threads := [PushWrote(n)]);
    var q5 := q3.(cells := [Cell(n + 1, item)], threads := [Ready]);
    var go: Step<bool> := Advance(0, false);
    OneCellSteps(items, item, q0, q1, q2, q3, q4, q5);
    StepFirst(q4, go, []);
    StepFirst(q3, go, [go]);
    StepFirst(q2, go, [go, go]);
    StepFirst(q1, go, [go, go, go]);
    StepFirst(q0, StartPush(0, item), [go, go, go, go]);
  }

  lemma OneCellSteps(items: seq<bool>, item: bool, q0: Queue<bool>, q1: Queue<bool>, q2: Queue<bool>, q3: Queue<bool>,
                     q4: Queue<bool>, q5: Queue<bool>)
    requires q0 == Overfilled(items) && q1 == q0.(threads := [PushAt(item, |items|)])
    requires q2 == q0.(threads := [PushSaw(item, |items|, |items|)])
    requires q3 == q0.(enqueue := |items| + 1, items := items + [item], threads := [PushOwns(item, |items|)])
    requires q4 == q3.(cells := [Cell(|items|, item)], threads := [PushWrote(|items|)])
    requires q5 == q3.(cells := [Cell(|items| + 1, item)], threads := [Ready])
    ensures Apply(q0, StartPush(0, item)) == q1
    ensures Apply(q1, Advance(0, false)) == q2 && Apply(q2, Advance(0, false)) == q3
    ensures Apply(q3, Advance(0, false)) == q4 && Apply(q4, Advance(0, false)) == q5
    ensures q5 == Overfilled(items + [item])
  {
    assert |items| % 1 == 0;
  }

  lemma StepFirst<T>(q: Queue<T>, step: Step<T>, rest: seq<Step<T>>)
    requires Enabled(q, step) && Legal(Apply(q, step), rest)
    ensures Legal(q, [step] + rest) && Run(q, [step] + rest) == Run(Apply(q, step), rest)
  {
    assert ([step] + rest)[1..] == rest;
  }

  lemma {:induction false} RunsCompose<T>(q: Queue<T>, a: seq<Step<T>>, b: seq<Step<T>>)
    requires Legal(q, a) && Legal(Run(q, a), b)
    ensures Legal(q, a + b) && Run(q, a + b) == Run(Run(q, a), b)
    decreases |a|
  {
    if a == [] {
      assert a + b == b;
    } else {
      assert (a + b)[1..] == a[1..] + b;
      RunsCompose(Apply(q, a[0]), a[1..], b);
    }
  }

  /** With one cell the second push overwrites an item nobody has popped: two
      tickets are out at once, `true` went in first, and the only cell holds `false`. */
  lemma OneCellOverwrites() returns (q: Queue<bool>)
    ensures ReachableWith(q, 1) && q.enqueue > q.dequeue + 1
    ensures q.items == [true, false] && q.popped == map[] && |q.cells| == 1 && q.cells[0].data == false
  {
    assert Start(1, 1, false) == Overfilled([]);
    OneCellPush([], true);
    assert [] + [true] == [true];
    OneCellPush([true], false);
    assert [true] + [false] == [true, false];
    RunsCompose(Overfilled([]), PushSteps(true), PushSteps(false));
    q := Overfilled([true, false]);
  }

  /** The occupancy bound holds in every reachable state exactly when the queue
      has at least two cells. */
  lemma CapacityCondition(capacity: nat)
    requires capacity >= 1
    ensures capacity >= 2 <==>
      forall q: Queue<bool> :: ReachableWith(q, capacity) ==> q.enqueue <= q.dequeue + capacity
  {
    if capacity >= 2 {
      forall q: Queue<bool> | ReachableWith(q, capacity)
        ensures q.enqueue <= q.dequeue + capacity
      {
        OccupancyBounded(q, capacity);
      }
    } else {
      var q := OneCellOverwrites();
    }
  }
}
