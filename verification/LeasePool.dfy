/** The lease pool's intrusive free list, under any interleaving of its callers.

    A block's first word links it to the next free block while it is free and is the
    holder's to overwrite while it is handed out.  Each atomic access, each link
    read and each link write is one step; exchanges may fail spuriously.  `list` is
    history: the blocks pushed and not yet popped, newest first. */
module LeasePools {
  import opened Base

  const BLOCK_BYTES: nat := 128

  datatype Popper = PopIdle | PopLoaded(block: nat) | PopRead(block: nat, next: Option<nat>)

  datatype Pusher = PushIdle | PushLoaded(block: nat, seen: Option<nat>) | PushLinked(block: nat, seen: Option<nat>)

  datatype Pool = Pool(links: seq<Option<nat>>, head: Option<nat>, poppers: seq<Popper>, pushers: seq<Pusher>,
                       handed: set<nat>, list: seq<nat>)
  {
    function WithPopper(t: nat, p: Popper): Pool
      requires t < |poppers|
    {
      this.(poppers := poppers[t := p])
    }

    function WithPusher(t: nat, p: Pusher): Pool
      requires t < |pushers|
    {
      this.(pushers := pushers[t := p])
    }
  }

  datatype Step =
    | Scribble(block: nat, word: Option<nat>)       // a holder uses its block
    | StartPop(t: nat) | ReadLink(t: nat) | ExchangePop(t: nat, spurious: bool)
    | StartPush(t: nat, block: nat) | WriteLink(t: nat) | ExchangePush(t: nat, spurious: bool)

  predicate Enabled(p: Pool, step: Step) {
    match step
    case Scribble(b, _) => b in p.handed && b < |p.links|
    case StartPop(t) => t < |p.poppers| && p.poppers[t].PopIdle?
    case ReadLink(t) => t < |p.poppers| && p.poppers[t].PopLoaded? && p.poppers[t].block < |p.links|
    case ExchangePop(t, _) => t < |p.poppers| && p.poppers[t].PopRead?
    case StartPush(t, b) => t < |p.pushers| && p.pushers[t].PushIdle? && b in p.handed
    case WriteLink(t) => t < |p.pushers| && p.pushers[t].PushLoaded? && p.pushers[t].block < |p.links|
    case ExchangePush(t, _) => t < |p.pushers| && p.pushers[t].PushLinked?
  }

  /** The top of the pop loop: give up on an empty list. */
  function LoopTop(head: Option<nat>): Popper {
    if head.None? then PopIdle else PopLoaded(head.value)
  }

  function Apply(p: Pool, step: Step): Pool
    requires Enabled(p, step)
  {
    match step
    case Scribble(b, word) => p.(links := p.links[b := word])
    case StartPop(t) => p.WithPopper(t, LoopTop(p.head))
    case ReadLink(t) => p.WithPopper(t, PopRead(p.poppers[t].block, p.links[p.poppers[t].block]))
    case ExchangePop(t, spurious) =>
      var PopRead(b, next) := p.poppers[t];
      if p.head == Some(b) && !spurious then
        p.(head := next, handed := p.handed + {b}, list := if p.list == [] then [] else p.list[1..])
        .WithPopper(t, PopIdle)
      else p.WithPopper(t, LoopTop(p.head))
    case StartPush(t, b) => p.(handed := p.handed - {b}).WithPusher(t, PushLoaded(b, p.head))
    case WriteLink(t) =>
      var PushLoaded(b, seen) := p.pushers[t];
      p.(links := p.links[b := seen]).WithPusher(t, PushLinked(b, seen))
    case ExchangePush(t, spurious) =>
      var PushLinked(b, seen) := p.pushers[t];
      if p.head == seen && !spurious then
        p.(head := Some(b), list := [b] + p.list).WithPusher(t, PushIdle)
      else p.WithPusher(t, PushLoaded(b, p.head))
  }

  /** The list as the constructor threads it: each block linked to the previous. */
  function NewestFirst(n: nat): (list: seq<nat>)
    ensures |list| == n && forall i :: 0 <= i < n ==> list[i] == n - 1 - i
  {
    if n == 0 then [] else [n - 1] + NewestFirst(n - 1)
  }

  function LinkTo(i: int): Option<nat> {
    if i <= 0 then None else Some(i - 1)
  }

  function Start(blocks: nat, poppers: nat, pushers: nat): Pool {
    Pool(seq(blocks, i => LinkTo(i)), LinkTo(blocks),
         seq(poppers, i => PopIdle), seq(pushers, i => PushIdle), {}, NewestFirst(blocks))
  }

  ghost predicate Legal(p: Pool, steps: seq<Step>)
    decreases |steps|
  {
    steps == [] || (Enabled(p, steps[0]) && Legal(Apply(p, steps[0]), steps[1..]))
  }

  ghost function Run(p: Pool, steps: seq<Step>): Pool
    requires Legal(p, steps)
    decreases |steps|
  {
    if steps == [] then p else Run(Apply(p, steps[0]), steps[1..])
  }

  ghost predicate Reachable(p: Pool, poppers: nat) {
    exists blocks: nat, pushers: nat, steps ::
      Legal(Start(blocks, poppers, pushers), steps) && Run(Start(blocks, poppers, pushers), steps) == p
  }

  // ----- The invariant -----

  /** The link stored in the `i`-th free block. */
  function NextOf(list: seq<nat>, i: nat): Option<nat> {
    if i + 1 < |list| then Some(list[i + 1]) else None
  }

  /** Following links from `head` visits exactly `list`, each block once. */
  ghost predicate Linked(links: seq<Option<nat>>, head: Option<nat>, list: seq<nat>) {
    && (forall i :: 0 <= i < |list| ==> list[i] < |links| && links[list[i]] == NextOf(list, i))
    && (forall i, k :: 0 <= i < k < |list| ==> list[i] != list[k])
    && head == (if list == [] then None else Some(list[0]))
  }

  predicate Holds(p: Pusher, b: nat) {
    !p.PushIdle? && p.block == b
  }

  ghost predicate Pushing(pushers: seq<Pusher>, b: nat) {
    exists t :: 0 <= t < |pushers| && Holds(pushers[t], b)
  }

  function Count(b: bool): nat {
    if b then 1 else 0
  }

  /** Each block is free, handed out, or being pushed: one of the three. */
  ghost predicate OnePlace(p: Pool, b: nat) {
    Count(b in p.list) + Count(b in p.handed) + Count(Pushing(p.pushers, b)) == 1
  }

  /** No two pushers hold the same block. */
  ghost predicate PushersApart(pushers: seq<Pusher>) {
    forall t, u, b :: 0 <= t < |pushers| && 0 <= u < |pushers| && Holds(pushers[t], b) && Holds(pushers[u], b) ==> t == u
  }

  ghost predicate Partitioned(p: Pool) {
    && (forall b :: 0 <= b < |p.links| ==> OnePlace(p, b))
    && (forall b :: b in p.handed ==> b < |p.links|)
    && PushersApart(p.pushers)
  }

  ghost predicate PushersOk(p: Pool) {
    forall t :: 0 <= t < |p.pushers| ==>
      && (!p.pushers[t].PushIdle? ==> p.pushers[t].block < |p.links|)
      && (p.pushers[t].PushLinked? ==> p.links[p.pushers[t].block] == p.pushers[t].seen)
  }

  /** What the only popper has read is still true of the list. */
  ghost predicate PopperOk(p: Pool) {
    |p.poppers| == 1 ==>
      match p.poppers[0]
      case PopIdle => true
      case PopLoaded(b) => b in p.list
      case PopRead(b, next) => b in p.list && b < |p.links| && p.links[b] == next
  }

  ghost predicate Inv(p: Pool) {
    |p.poppers| <= 1 && Linked(p.links, p.head, p.list) && Partitioned(p) && PushersOk(p) && PopperOk(p)
  }

  // ----- List lemmas -----

  lemma PopLinked(links: seq<Option<nat>>, head: Option<nat>, list: seq<nat>)
    requires Linked(links, head, list) && list != []
    ensures head == Some(list[0]) && links[list[0]] == NextOf(list, 0)
    ensures Linked(links, links[list[0]], list[1..])
    ensures list[0] !in list[1..] && forall b :: b in list <==> b == list[0] || b in list[1..]
  {
    assert list == [list[0]] + list[1..];
    forall i | 0 <= i < |list[1..]|
      ensures links[list[1..][i]] == NextOf(list[1..], i)
    {
      assert list[1..][i] == list[i + 1];
    }
  }

  lemma PushLinkedList(links: seq<Option<nat>>, head: Option<nat>, list: seq<nat>, b: nat)
    requires Linked(links, head, list) && b < |links| && b !in list && links[b] == head
    ensures Linked(links, Some(b), [b] + list)
  {
    var list' := [b] + list;
    forall i | 0 <= i < |list'|
      ensures list'[i] < |links| && links[list'[i]] == NextOf(list', i)
    {
      assert i > 0 ==> links[list[i - 1]] == NextOf(list, i - 1);
    }
  }

  /** Writing the first word of a block that is not free leaves the list alone. */
  lemma WriteElsewhere(links: seq<Option<nat>>, head: Option<nat>, list: seq<nat>, b: nat, word: Option<nat>)
    requires Linked(links, head, list) && b < |links| && b !in list
    ensures Linked(links[b := word], head, list)
  {
    forall i | 0 <= i < |list|
      ensures links[b := word][list[i]] == NextOf(list, i)
    {
      assert list[i] in list;
    }
  }

  // ----- Every step keeps the invariant -----

  lemma PushingAfter(pushers: seq<Pusher>, t: nat, p: Pusher, b: nat)
    requires PushersApart(pushers) && t < |pushers|
    ensures Pushing(pushers[t := p], b) <==> Holds(p, b) || (Pushing(pushers, b) && !Holds(pushers[t], b))
  {
    var pushers' := pushers[t := p];
    if Holds(p, b) {
      assert Holds(pushers'[t], b);
    }
    if Pushing(pushers, b) && !Holds(pushers[t], b) {
      var u :| 0 <= u < |pushers| && Holds(pushers[u], b);
      assert Holds(pushers'[u], b);
    }
    if Pushing(pushers', b) && !Holds(p, b) {
      var u :| 0 <= u < |pushers'| && Holds(pushers'[u], b);
      assert Holds(pushers[u], b);
    }
  }

  lemma ScribbleKeeps(p: Pool, b: nat, word: Option<nat>)
    requires Inv(p) && Enabled(p, Scribble(b, word))
    ensures Inv(Apply(p, Scribble(b, word)))
  {
    var p' := Apply(p, Scribble(b, word));
    assert OnePlace(p, b);
    WriteElsewhere(p.links, p.head, p.list, b, word);
    forall t | 0 <= t < |p.pushers| && !p.pushers[t].PushIdle?
      ensures p.pushers[t].block != b
    {
      assert Holds(p.pushers[t], p.pushers[t].block);
    }
    forall c | 0 <= c < |p.links|
      ensures OnePlace(p', c)
    {
      assert OnePlace(p, c);
    }
  }

  /** The popper re-reads the head or a link; the list is not touched. */
  lemma PopperMoveKeeps(p: Pool, t: nat, popper: Popper)
    requires Inv(p) && t < |p.poppers| && PopperOk(p.WithPopper(t, popper))
    ensures Inv(p.WithPopper(t, popper))
  {
    forall c | 0 <= c < |p.links|
      ensures OnePlace(p.WithPopper(t, popper), c)
    {
      assert OnePlace(p, c);
    }
  }

  lemma PopSucceeds(p: Pool, t: nat)
    requires Inv(p) && Enabled(p, ExchangePop(t, false)) && p.head == Some(p.poppers[t].block)
    ensures Inv(Apply(p, ExchangePop(t, false)))
  {
    var p' := Apply(p, ExchangePop(t, false));
    PopLinked(p.links, p.head, p.list);
    forall c | 0 <= c < |p.links|
      ensures OnePlace(p', c)
    {
      assert OnePlace(p, c);
    }
  }

  lemma PopStepKeeps(p: Pool, step: Step)
    requires Inv(p) && Enabled(p, step) && (step.StartPop? || step.ReadLink? || step.ExchangePop?)
    ensures Inv(Apply(p, step))
  {
    assert p.head.Some? ==> p.head.value in p.list;
    match step {
      case StartPop(t) => PopperMoveKeeps(p, t, LoopTop(p.head));
      case ReadLink(t) => PopperMoveKeeps(p, t, PopRead(p.poppers[t].block, p.links[p.poppers[t].block]));
      case ExchangePop(t, spurious) =>
        if p.head == Some(p.poppers[t].block) && !spurious {
          PopSucceeds(p, t);
        } else {
          PopperMoveKeeps(p, t, LoopTop(p.head));
        }
    }
  }

  lemma StartPushKeeps(p: Pool, t: nat, b: nat)
    requires Inv(p) && Enabled(p, StartPush(t, b))
    ensures Inv(Apply(p, StartPush(t, b)))
  {
    var p' := Apply(p, StartPush(t, b));
    assert OnePlace(p, b);
    forall u | 0 <= u < |p.pushers| && !p.pushers[u].PushIdle?
      ensures p.pushers[u].block != b
    {
      assert Holds(p.pushers[u], p.pushers[u].block);
    }
    forall c | 0 <= c < |p.links|
      ensures OnePlace(p', c)
    {
      assert OnePlace(p, c);
      PushingAfter(p.pushers, t, p'.pushers[t], c);
    }
  }

  /** Blocks being pushed are neither free nor handed out. */
  lemma PushedBlockAlone(p: Pool, t: nat)
    requires Inv(p) && t < |p.pushers| && !p.pushers[t].PushIdle?
    ensures var b := p.pushers[t].block;
      && b < |p.links| && b !in p.list && b !in p.handed
      && forall u :: 0 <= u < |p.pushers| && u != t && !p.pushers[u].PushIdle? ==> p.pushers[u].block != b
  {
    var b := p.pushers[t].block;
    assert Holds(p.pushers[t], b);
    assert OnePlace(p, b);
    forall u | 0 <= u < |p.pushers| && u != t && !p.pushers[u].PushIdle?
      ensures p.pushers[u].block != b
    {
      assert Holds(p.pushers[u], p.pushers[u].block);
    }
  }

  lemma WriteLinkKeeps(p: Pool, t: nat)
    requires Inv(p) && Enabled(p, WriteLink(t))
    ensures Inv(Apply(p, WriteLink(t)))
  {
    var p', b := Apply(p, WriteLink(t)), p.pushers[t].block;
    PushedBlockAlone(p, t);
    WriteElsewhere(p.links, p.head, p.list, b, p.pushers[t].seen);
    forall c | 0 <= c < |p.links|
      ensures OnePlace(p', c)
    {
      assert OnePlace(p, c);
      PushingAfter(p.pushers, t, p'.pushers[t], c);
    }
  }

  lemma ExchangePushKeeps(p: Pool, t: nat, spurious: bool)
    requires Inv(p) && Enabled(p, ExchangePush(t, spurious))
    ensures Inv(Apply(p, ExchangePush(t, spurious)))
  {
    var p', b := Apply(p, ExchangePush(t, spurious)), p.pushers[t].block;
    PushedBlockAlone(p, t);
    if p.head == p.pushers[t].seen {
      PushLinkedList(p.links, p.head, p.list, b);
    }
    forall c | 0 <= c < |p.links|
      ensures OnePlace(p', c)
    {
      assert OnePlace(p, c);
      PushingAfter(p.pushers, t, p'.pushers[t], c);
    }
  }

  lemma StepKeeps(p: Pool, step: Step)
    requires Inv(p) && Enabled(p, step)
    ensures Inv(Apply(p, step))
  {
    match step {
      case Scribble(b, word) => ScribbleKeeps(p, b, word);
      case StartPush(t, b) => StartPushKeeps(p, t, b);
      case WriteLink(t) => WriteLinkKeeps(p, t);
      case ExchangePush(t, spurious) => ExchangePushKeeps(p, t, spurious);
      case _ => PopStepKeeps(p, step);
    }
  }

  lemma {:induction false} RunKeeps(p: Pool, steps: seq<Step>)
    requires Inv(p) && Legal(p, steps)
    ensures Inv(Run(p, steps))
    decreases |steps|
  {
    if steps != [] {
      StepKeeps(p, steps[0]);
      RunKeeps(Apply(p, steps[0]), steps[1..]);
    }
  }

  lemma StartHolds(blocks: nat, poppers: nat, pushers: nat)
    requires poppers <= 1
    ensures Inv(Start(blocks, poppers, pushers))
  {
    var p := Start(blocks, poppers, pushers);
    forall b | 0 <= b < blocks
      ensures OnePlace(p, b)
    {
      assert p.list[blocks - 1 - b] == b;
    }
  }

  lemma ReachableHolds(p: Pool, poppers: nat)
    requires poppers <= 1 && Reachable(p, poppers)
    ensures Inv(p)
  {
    var blocks: nat, pushers: nat, steps :|
      Legal(Start(blocks, poppers, pushers), steps) && Run(Start(blocks, poppers, pushers), steps) == p;
    StartHolds(blocks, poppers, pushers);
    RunKeeps(Start(blocks, poppers, pushers), steps);
  }

  // ----- Main results -----

  /** Following the links from the head always ends, visiting each free block once. */
  lemma FreeListAcyclic(p: Pool)
    requires Reachable(p, 1)
    ensures Linked(p.links, p.head, p.list)
  {
    ReachableHolds(p, 1);
  }

  /** No block is both free and handed out, handed out twice, or lost. */
  lemma BlocksPartitioned(p: Pool, b: nat)
    requires Reachable(p, 1) && b < |p.links|
    ensures OnePlace(p, b)
  {
    ReachableHolds(p, 1);
  }

  /** A pop exchange that succeeds installs the true second block of the list, and
      the block it takes was free. */
  lemma PopInstallsSuccessor(p: Pool)
    requires Reachable(p, 1) && |p.poppers| == 1 && p.poppers[0].PopRead? && p.head == Some(p.poppers[0].block)
    ensures p.list != [] && p.list[0] == p.poppers[0].block && p.poppers[0].block !in p.handed
    ensures p.poppers[0].next == NextOf(p.list, 0)
  {
    ReachableHolds(p, 1);
    assert OnePlace(p, p.list[0]);
  }

  /** The block the next pop would take is not one somebody holds. */
  predicate HeadIsFree(p: Pool) {
    p.head.Some? ==> p.head.value !in p.handed
  }

  lemma OnePopperIsSafe(p: Pool, poppers: nat)
    requires poppers <= 1 && Reachable(p, poppers)
    ensures HeadIsFree(p)
  {
    ReachableHolds(p, poppers);
    assert p.head.Some? ==> OnePlace(p, p.list[0]);
  }

  // ----- Two poppers are too many -----

  function TwoPoppers(n: nat, a: Popper, b: Popper): seq<Popper> {
    seq(n, i => if i == 0 then a else if i == 1 then b else PopIdle)
  }

  /** One popper reads the head and its link; another takes both blocks and the
      first comes back; then the stale exchange goes through. */
  const STALE_POP: seq<Step> := [
    StartPop(0), ReadLink(0),
    StartPop(1), ReadLink(1), ExchangePop(1, false),
    StartPop(1), ReadLink(1), ExchangePop(1, false),
    StartPush(0, 1), WriteLink(0), ExchangePush(0, false),
    ExchangePop(0, false)]

  /** The state of a two-block pool after `i` of those steps. */
  function StaleState(n: nat, i: nat): Pool
    requires i <= 12
  {
    var a := if i == 0 || i == 12 then PopIdle else if i == 1 then PopLoaded(1) else PopRead(1, Some(0));
    var b := if i == 3 then PopLoaded(1) else if i == 4 then PopRead(1, Some(0))
             else if i == 6 then PopLoaded(0) else if i == 7 then PopRead(0, None) else PopIdle;
    var pusher := if i == 9 then PushLoaded(1, None) else if i == 10 then PushLinked(1, None) else PushIdle;
    var links := if i < 10 then [None, Some(0)] else [None, None];
    var head := if i < 5 then Some(1) else if i < 8 then Some(0) else if i < 11 then None
                else if i < 12 then Some(1) else Some(0);
    var handed := if i < 5 then {} else if i < 8 then {1} else if i < 9 then {0, 1} else if i < 12 then {0} else {0, 1};
    var list := if i < 5 then [1, 0] else if i < 8 then [0] else if i == 11 then [1] else [];
    Pool(links, head, TwoPoppers(n, a, b), [pusher], handed, list)
  }

  lemma StaleStep(n: nat, i: nat)
    requires n >= 2 && i < 12
    ensures Enabled(StaleState(n, i), STALE_POP[i])
    ensures Apply(StaleState(n, i), STALE_POP[i]) == StaleState(n, i + 1)
  {
  }

  lemma {:induction false} StaleRun(n: nat, i: nat)
    requires n >= 2 && i <= 12
    ensures Legal(StaleState(n, i), STALE_POP[i..]) && Run(StaleState(n, i), STALE_POP[i..]) == StaleState(n, 12)
    decreases 12 - i
  {
    if i < 12 {
      StaleStep(n, i);
      StaleRun(n, i + 1);
      assert STALE_POP[i..][1..] == STALE_POP[i + 1..];
    }
  }

  /** With two poppers a block somebody holds becomes the head of the free list. */
  lemma StalePopHandsOutTwice(n: nat)
    requires n >= 2
    ensures Reachable(StaleState(n, 12), n) && !HeadIsFree(StaleState(n, 12))
  {
    assert NewestFirst(2) == [1, 0];
    assert Start(2, n, 1) == StaleState(n, 0);
    StaleRun(n, 0);
    assert STALE_POP[0..] == STALE_POP;
  }

  /** The stack is safe in every run exactly when at most one thread pops. */
  lemma PopperCondition(n: nat)
    ensures n <= 1 <==> forall p :: Reachable(p, n) ==> HeadIsFree(p)
  {
    if n <= 1 {
      forall p | Reachable(p, n)
        ensures HeadIsFree(p)
      {
        OnePopperIsSafe(p, n);
      }
    } else {
      StalePopHandsOutTwice(n);
    }
  }

  // ----- The pool as one thread uses it -----

  class LeasePool {
    const links: array<Option<nat>>
    var head: Option<nat>
    var overflows: nat
    ghost var list: seq<nat>

    ghost predicate Valid()
      reads this, links
    {
      Linked(links[..], head, list)
    }

    /** Thread the free list through the blocks, newest first. */
    constructor (blocks: nat)
      ensures Valid() && fresh(links) && links.Length == blocks
      ensures list == NewestFirst(blocks) && overflows == 0
    {
      links := new Option<nat>[blocks](i => None);
      head := None;
      overflows := 0;
      list := [];
      new;
      for i := 0 to blocks
        invariant Valid() && overflows == 0 && list == NewestFirst(i)
      {
        ghost var before := links[..];
        WriteElsewhere(before, head, list, i, head);
        links[i] := head;
        assert links[..] == before[i := head];
        PushLinkedList(links[..], head, list, i);
        head := Some(i);
        list := [i] + list;
      }
    }

    /** Take the newest free block, unless the request is too large or none is left. */
    method Allocate(bytes: nat) returns (block: Option<nat>)
      requires Valid()
      modifies this
      ensures Valid()
      ensures block.None? <==> bytes > BLOCK_BYTES || old(list) == []
      ensures block.None? ==> list == old(list) && overflows == old(overflows) + 1
      ensures block.Some? ==> old(list) == [block.value] + list && block.value !in list && overflows == old(overflows)
    {
      if bytes > BLOCK_BYTES || head.None? {
        overflows := overflows + 1;
        return None;
      }
      PopLinked(links[..], head, list);
      block := head;
      head := links[head.value];
      list := list[1..];
    }

    /** Return a block; a null pointer is ignored. */
    method Deallocate(block: Option<nat>)
      requires Valid() && (block.Some? ==> block.value < links.Length && block.value !in list)
      modifies this`head, this`list, links
      ensures Valid()
      ensures list == (if block.Some? then [block.value] else []) + old(list)
    {
      if block.None? {
        return;
      }
      WriteElsewhere(links[..], head, list, block.value, head);
      links[block.value] := head;
      assert links[..] == old(links[..])[block.value := old(head)];
      PushLinkedList(links[..], head, list, block.value);
      head := block;
      list := [block.value] + list;
    }
  }
}
