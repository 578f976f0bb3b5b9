/** AllActive fan-out is lossless for a session whose admission limit took effect
    in time: it finds its window open at every later fan-out, whatever windows the
    other sessions negotiated, and its sequences carry consecutive ordinals.

    Arming is three accesses, and publish calls on application threads keep
    claiming ordinals under the old limit between them.  What decides is the state
    at the last one, the store of the limit. */
module AllActive {
  import opened Base
  import opened Credit
  import opened Sessions
  import opened FanOut
  import opened SlotConservation

  /** What a session's promise depends on beyond the session itself: the ordinal
      the next queued frame will carry, one past the last ordinal a publish call
      has claimed, the next ordinal to leave the queue, the admission limit, the
      queue's capacity and whether a fan-out is running. */
  datatype Gate = Gate(next: nat, claimed: nat, front: int, limit: nat, capacity: nat, idle: bool, strict: bool)

  ghost function GateOf(p: Publisher): Gate {
    Gate(NextOrdinal(p), Claimed(p), Front(p), p.limit, p.config.queueCapacity, !p.fanning.Visiting?, p.config.allActive)
  }

  /** The ordinal of the next frame seat `j` will be visited with. */
  ghost function Due(f: Fanning, front: int, j: nat): int {
    if f.Visiting? && f.next <= j then f.item.ordinal else front
  }

  ghost predicate QueueOrdered(p: Publisher) {
    && 0 <= Front(p) && |p.queue| <= p.config.queueCapacity
    && (forall k :: 0 <= k < |p.queue| ==> p.queue[k].ordinal == Front(p) + k)
    && (p.fanning.Visiting? ==> p.fanning.item.ordinal + 1 == Front(p) && p.fanning.next <= |p.sessions|)
    && (p.publishing.Decided? ==> p.publishing.ordinal == p.admitted)
    && p.credited <= GateOf(p).next
  }

  /** The frames a session has outstanding are in publication order and all came
      before the one it is due. */
  ghost predicate Ordered(s: Session, due: int, next: nat)
    requires s.Sound()
  {
    && s.processed <= next
    && (forall q :: s.window.credited <= q < s.window.next ==>
          s.At(q).ordinal < s.processed && s.At(q).ordinal < due)
    && (forall q, r :: s.window.credited <= q < r < s.window.next ==> s.At(q).ordinal < s.At(r).ordinal)
  }

  /** Sequence `q` carries ordinal `base + q`: nothing was skipped. */
  ghost predicate Consecutive(s: Session)
    requires s.Sound()
  {
    && s.processed == s.base + s.window.next
    && forall q :: s.window.credited <= q < s.window.next ==> s.At(q).ordinal == s.base + q
  }

  /** The oldest ordinal the session's window has to reach back to: its oldest
      outstanding frame, or the one it is due. */
  ghost function Floor(s: Session, due: int): int
    requires s.Sound()
  {
    if s.window.next == s.window.credited then due else s.At(s.window.credited).ordinal
  }

  /** The admission limit respects the session's window. */
  ghost predicate Covered(s: Session, due: int, g: Gate)
    requires s.Sound()
  {
    s.processed <= due && g.limit <= Floor(s, due) + s.window.width
  }

  /** The limit has not been set from the session's progress yet, but the queue is
      too short to hold more than its window. */
  ghost predicate Buffered(s: Session, due: int, g: Gate)
    requires s.Sound()
  {
    && g.capacity + 2 <= s.window.width
    && (Floor(s, due) == g.front
        || (!g.idle && Floor(s, due) == g.front - 1 && (s.processed <= due || due == g.front - 1)))
  }

  /** What a cleanly armed session is promised under AllActive. */
  ghost predicate Promised(s: Session, due: int, g: Gate)
    requires s.Sound()
  {
    && (s.window.next > 0 ==> s.processed == due)
    && g.claimed <= Floor(s, due) + s.window.width
    && (Covered(s, due, g) || Buffered(s, due, g))
    && (s.steady && s.window.next > 0 ==> Consecutive(s))
  }

  ghost predicate SeatInv(s: Session, due: int, g: Gate)
    requires s.Sound()
  {
    && s.processed <= g.next
    && (s.state == SessionState.Open ==> s.window.next == 0)
    && (Live(s.state) ==> s.window.width >= 1)
    && (s.Eligible() ==> Ordered(s, due, g.next))
    && (s.Eligible() && s.clean && g.strict ==> Promised(s, due, g))
  }

  ghost predicate TableInv(ss: seq<Session>, f: Fanning, g: Gate)
    requires AllSound(ss)
  {
    forall j :: 0 <= j < |ss| ==> SeatInv(ss[j], Due(f, g.front, j), g)
  }

  /** A session half way through arming has been sent nothing and promised nothing. */
  ghost predicate ArmingFresh(ss: seq<Session>, f: Fanning) {
    f.Arming? ==> f.seat < |ss| && (ss[f.seat].Eligible() ==> ss[f.seat].window.next == 0 && !ss[f.seat].clean)
  }

  ghost predicate Inv(p: Publisher) {
    && Shaped(p) && QueueOrdered(p)
    && ArmingFresh(p.sessions, p.fanning)
    && TableInv(p.sessions, p.fanning, GateOf(p))
  }

  // ----- One session -----

  /** Increasing ordinals grow at least as fast as sequences. */
  lemma {:induction false} OrdinalsSpread(s: Session, due: int, next: nat, q: nat)
    requires s.Sound() && Ordered(s, due, next) && s.window.credited <= q < s.window.next
    ensures s.At(q).ordinal >= s.At(s.window.credited).ordinal + (q - s.window.credited)
    decreases q
  {
    if q > s.window.credited {
      OrdinalsSpread(s, due, next, q - 1);
      assert s.At(q - 1).ordinal < s.At(q).ordinal;
    }
  }

  lemma RetiredBelowProcessed(s: Session, due: int, next: nat)
    requires s.Sound() && Ordered(s, due, next)
    ensures s.Retired() <= s.processed <= next
    ensures s.window.next - s.window.credited <= s.processed - s.Retired()
  {
    if s.window.next > s.window.credited {
      OrdinalsSpread(s, due, next, s.window.next - 1);
    }
  }

  /** The heart of the claim: the window is open for the frame that is due. */
  lemma PromisedWindowOpen(s: Session, due: nat, g: Gate)
    requires s.Sound() && s.window.width >= 1 && Ordered(s, due, g.next) && Promised(s, due, g)
    requires due < g.claimed
    ensures s.window.CanSubmit()
  {
    RetiredBelowProcessed(s, due, g.next);
  }

  /** The frame takes the next sequence and goes to the end of the order. */
  lemma SubmittedKeeps(s: Session, g: Gate, item: Item)
    requires s.Sound() && s.window.width <= |s.inflight| && s.Eligible() && SeatInv(s, item.ordinal, g)
    requires item.ordinal < g.next <= g.claimed && g.front == item.ordinal + 1 && !g.idle && s.window.CanSubmit()
    ensures var s' := s.(processed := item.ordinal + 1).Submitted(item);
      s'.Sound() && SeatInv(s', item.ordinal + 1, g)
  {
    var s' := s.(processed := item.ordinal + 1).Submitted(item);
    RetiredBelowProcessed(s, item.ordinal, g.next);
    forall q | s.window.credited <= q < s.window.next
      ensures s'.At(q) == s.At(q)
    {
      RingEntriesKept(s, item, q);
    }
    assert s'.At(s.window.next) == item;
    assert Ordered(s', item.ordinal + 1, g.next);
  }

  lemma FailedKeeps(s: Session, g: Gate, item: Item, elsewhere: bool)
    requires s.Sound() && s.window.width <= |s.inflight| && s.Eligible() && SeatInv(s, item.ordinal, g)
    requires item.ordinal < g.next && g.front == item.ordinal + 1 && !g.idle && s.window.CanSubmit()
    ensures var s' := s.(processed := item.ordinal + 1).SendFailed(item, elsewhere);
      s'.Sound() && SeatInv(s', item.ordinal + 1, g)
  {
    var s' := s.(processed := item.ordinal + 1).SendFailed(item, elsewhere);
    RetiredBelowProcessed(s, item.ordinal, g.next);
    forall q | s.window.credited <= q < s.window.next
      ensures s'.At(q) == s.At(q)
    {
      RingEntriesKept(s, item, q);
    }
    assert Ordered(s', item.ordinal + 1, g.next);
  }

  /** Only a session without the promise can find its window closed. */
  lemma SkippedKeeps(s: Session, g: Gate, item: Item)
    requires s.Sound() && s.Eligible() && SeatInv(s, item.ordinal, g)
    requires item.ordinal < g.next <= g.claimed && !s.window.CanSubmit()
    ensures var s' := s.(processed := item.ordinal + 1, dropped := s.dropped + 1);
      SeatInv(s', item.ordinal + 1, g)
  {
    var s' := s.(processed := item.ordinal + 1, dropped := s.dropped + 1);
    assert !(s.clean && g.strict) by {
      if s.clean && g.strict {
        PromisedWindowOpen(s, item.ordinal, g);
      }
    }
    forall q | s.window.credited <= q < s.window.next
      ensures s'.At(q) == s.At(q)
    {
    }
  }

  /** A visit keeps a session's frames in order and its promise intact. */
  lemma VisitedKeeps(s: Session, g: Gate, item: Item, sent: bool, elsewhere: bool, raced: bool)
    requires s.Sound() && s.window.width <= |s.inflight| && SeatInv(s, item.ordinal, g)
    requires item.ordinal < g.next <= g.claimed && g.front == item.ordinal + 1 && !g.idle
    ensures var s' := s.Visited(item, sent, elsewhere, raced).0;
      s'.Sound() && SeatInv(s', item.ordinal + 1, g)
  {
    if s.Eligible() {
      if !s.window.CanSubmit() {
        SkippedKeeps(s, g, item);
      } else if sent {
        SubmittedKeeps(s, g, item);
      } else {
        FailedKeeps(s, g, item, elsewhere);
      }
    }
  }

  /** A credit moves a session forward. */
  lemma CreditedKeeps(s: Session, due: int, g: Gate, ack: nat)
    requires s.Sound() && s.window.Valid() && SeatInv(s, due, g) && g.idle && due == g.front
    ensures var s' := s.(window := s.window.ApplyCredit(ack).0);
      s'.Sound() && SeatInv(s', due, g)
  {
    var s' := s.(window := s.window.ApplyCredit(ack).0);
    forall q | s'.window.credited <= q < s'.window.next
      ensures s'.At(q) == s.At(q)
    {
    }
    if s.Eligible() {
      RetiredBelowProcessed(s, due, g.next);
      if s'.window.credited < s'.window.next && s.window.credited < s'.window.credited {
        assert s.At(s.window.credited).ordinal < s.At(s'.window.credited).ordinal;
      }
    }
  }

  /** One more claimed ordinal is within the limit, and within what the queue and
      one publish call can hold. */
  ghost predicate GateSteps(g: Gate, g': Gate) {
    && g.next <= g'.next && g' == g.(next := g'.next, claimed := g'.claimed)
    && (g'.claimed <= g.claimed
        || (g'.claimed == g.claimed + 1 && (g.strict ==> g.claimed < g.limit) && g'.claimed <= g.front + g.capacity + 1))
  }

  lemma GateMoves(s: Session, due: int, g: Gate, g': Gate)
    requires s.Sound() && SeatInv(s, due, g) && GateSteps(g, g')
    ensures SeatInv(s, due, g')
  {
  }

  // ----- Gauges -----

  lemma {:induction false} StrictLimitBounds(ss: seq<Session>, j: nat)
    requires AllSound(ss) && j < |ss| && ss[j].Eligible()
    ensures StrictLimit(ss) <= ss[j].Retired() + ss[j].window.width
    ensures Armeds(ss) > 0
  {
    if j > 0 {
      StrictLimitBounds(ss[1..], j - 1);
    }
  }

  lemma {:induction false} BestBounded(ss: seq<Session>, bound: nat)
    requires AllSound(ss)
    requires forall s :: s in ss && s.Eligible() ==> s.Retired() <= bound
    ensures Best(ss) <= bound
  {
    if ss != [] {
      BestBounded(ss[1..], bound);
    }
  }

  lemma RefreshKeeps(p: Publisher)
    requires Inv(p)
    ensures Inv(Refresh(p))
  {
    var p' := Refresh(p);
    forall s | s in p.sessions && s.Eligible()
      ensures s.Retired() <= GateOf(p).next
    {
      var j :| 0 <= j < |p.sessions| && p.sessions[j] == s;
      assert SeatInv(p.sessions[j], Due(p.fanning, Front(p), j), GateOf(p));
      RetiredBelowProcessed(s, Due(p.fanning, Front(p), j), GateOf(p).next);
    }
    BestBounded(p.sessions, GateOf(p).next);
    forall j | 0 <= j < |p.sessions|
      ensures SeatInv(p'.sessions[j], Due(p'.fanning, Front(p'), j), GateOf(p'))
    {
      assert SeatInv(p.sessions[j], Due(p.fanning, Front(p), j), GateOf(p));
      if p.sessions[j].Eligible() {
        StrictLimitBounds(p.sessions, j);
      }
      LimitMoves(p.sessions[j], Due(p.fanning, Front(p), j), GateOf(p), p'.limit);
    }
  }

  /** A new limit that respects the session keeps its promise. */
  lemma LimitMoves(s: Session, due: int, g: Gate, limit: nat)
    requires s.Sound() && SeatInv(s, due, g)
    requires s.Eligible() ==> limit <= s.Retired() + s.window.width
    ensures SeatInv(s, due, g.(limit := limit))
  {
  }

  // ----- Every step keeps the order -----

  lemma TableGateMoves(p: Publisher, p': Publisher)
    requires Inv(p) && p'.sessions == p.sessions && p'.fanning == p.fanning && GateSteps(GateOf(p), GateOf(p'))
    ensures TableInv(p'.sessions, p'.fanning, GateOf(p'))
  {
    forall j | 0 <= j < |p.sessions|
      ensures SeatInv(p'.sessions[j], Due(p'.fanning, Front(p'), j), GateOf(p'))
    {
      assert SeatInv(p.sessions[j], Due(p.fanning, Front(p), j), GateOf(p));
      GateMoves(p.sessions[j], Due(p.fanning, Front(p), j), GateOf(p), GateOf(p'));
    }
  }

  lemma PublishStepKeeps(p: Publisher, step: Step)
    requires Inv(p) && Enabled(p, step) && (step.Decide? || step.Push? || step.Count?)
    ensures Inv(Apply(p, step))
  {
    TableGateMoves(p, Apply(p, step));
  }

  lemma HandleStepKeeps(p: Publisher, step: Step)
    requires Inv(p) && Enabled(p, step) && (step.Acquire? || step.DropHandle? || step.RejectNoSession? || step.Enter? || step.Busy?)
    ensures Inv(Apply(p, step))
  {
    TableGateMoves(p, Apply(p, step));
  }

  /** Taking a frame off the queue leaves every session due the same frame. */
  lemma BeginKeeps(p: Publisher)
    requires Inv(p) && Enabled(p, BeginFanOut)
    ensures Inv(Apply(p, BeginFanOut))
  {
    var p' := Apply(p, BeginFanOut);
    assert p.queue[0].ordinal == Front(p);
    assert GateOf(p') == GateOf(p).(front := Front(p) + 1, idle := false);
    forall j | 0 <= j < |p.sessions|
      ensures SeatInv(p'.sessions[j], Due(p'.fanning, Front(p'), j), GateOf(p'))
    {
      assert SeatInv(p.sessions[j], Due(p.fanning, Front(p), j), GateOf(p));
    }
  }

  /** Once every session has been visited, the new limit respects each of them. */
  lemma FinishedSeatKeeps(s: Session, g: Gate, limit: nat)
    requires s.Sound() && SeatInv(s, g.front, g)
    requires s.Eligible() ==> limit <= s.Retired() + s.window.width
    ensures SeatInv(s, g.front, g.(limit := limit, idle := true))
  {
  }

  lemma EndKeeps(p: Publisher)
    requires Inv(p) && Enabled(p, EndFanOut)
    ensures Inv(Apply(p, EndFanOut))
  {
    var q := p.(pool := p.pool.Release(p.fanning.item.slot), fanning := Idle);
    var p' := Apply(p, EndFanOut);
    RefreshBounds(q, p);
    assert GateOf(p') == GateOf(p).(limit := p'.limit, idle := true);
    forall j | 0 <= j < |p.sessions|
      ensures SeatInv(p'.sessions[j], Due(p'.fanning, Front(p'), j), GateOf(p'))
    {
      assert SeatInv(p.sessions[j], Due(p.fanning, Front(p), j), GateOf(p));
      if p.sessions[j].Eligible() {
        StrictLimitBounds(p.sessions, j);
      }
      FinishedSeatKeeps(p.sessions[j], GateOf(p), p'.limit);
    }
  }

  lemma TableUpdates(ss: seq<Session>, f: Fanning, g: Gate, j: nat, s': Session)
    requires AllSound(ss) && TableInv(ss, f, g) && j < |ss| && s'.Sound() && SeatInv(s', Due(f, g.front, j), g)
    ensures AllSound(ss[j := s']) && TableInv(ss[j := s'], f, g)
  {
    forall k | 0 <= k < |ss|
      ensures SeatInv(ss[j := s'][k], Due(f, g.front, k), g)
    {
      assert SeatInv(ss[k], Due(f, g.front, k), g);
    }
  }

  /** Replacing one seat by one that satisfies its part. */
  lemma TableReplace(p: Publisher, j: nat, s': Session)
    requires Inv(p) && j < |p.sessions|
    requires |s'.inflight| == p.config.depth && s'.window.Valid() && s'.window.width <= p.config.depth
    requires SeatInv(s', Due(p.fanning, Front(p), j), GateOf(p))
    requires ArmingFresh(p.sessions[j := s'], p.fanning)
    ensures Inv(p.(sessions := p.sessions[j := s']))
  {
    var p' := p.(sessions := p.sessions[j := s']);
    ShapeUpdates(p.config.depth, p.sessions, j, s');
    assert Shaped(p');
    TableUpdates(p.sessions, p.fanning, GateOf(p), j, s');
    assert GateOf(p') == GateOf(p);
    QueueOrderedAlike(p, p');
  }

  lemma ShapeUpdates(depth: nat, ss: seq<Session>, j: nat, s': Session)
    requires TableShaped(depth, ss) && j < |ss|
    requires |s'.inflight| == depth && s'.window.Valid() && s'.window.width <= depth
    ensures TableShaped(depth, ss[j := s'])
  {
  }

  lemma QueueOrderedAlike(p: Publisher, p': Publisher)
    requires QueueOrdered(p) && p' == p.(sessions := p'.sessions) && |p'.sessions| == |p.sessions|
    ensures QueueOrdered(p')
  {
  }

  lemma TableVisit(ss: seq<Session>, item: Item, j: nat, g: Gate, s': Session)
    requires AllSound(ss) && j < |ss| && s'.Sound()
    requires g.front == item.ordinal + 1 && TableInv(ss, Visiting(item, j), g) && SeatInv(s', item.ordinal + 1, g)
    ensures AllSound(ss[j := s'])
    ensures TableInv(ss[j := s'], Visiting(item, j + 1), g)
  {
    var ss' := ss[j := s'];
    forall k | 0 <= k < |ss|
      ensures SeatInv(ss'[k], Due(Visiting(item, j + 1), item.ordinal + 1, k), g)
    {
      assert SeatInv(ss[k], Due(Visiting(item, j), item.ordinal + 1, k), g);
    }
  }

  lemma VisitedWindow(s: Session, depth: nat, item: Item, sent: bool, elsewhere: bool, raced: bool)
    requires |s.inflight| == depth > 0 && s.window.Valid() && s.window.width <= depth && s.window.next < MAX64
    ensures var s' := s.Visited(item, sent, elsewhere, raced).0;
      |s'.inflight| == depth && s'.window.Valid() && s'.window.width <= depth
  {
  }

  /** Putting a visited session back and moving the loop on. */
  lemma VisitAssembles(p: Publisher, s': Session, pool': Pool)
    requires Inv(p) && p.fanning.Visiting? && p.fanning.next < |p.sessions| && |pool'.refs| == p.config.depth
    requires |s'.inflight| == p.config.depth && s'.window.Valid() && s'.window.width <= p.config.depth
    requires SeatInv(s', p.fanning.item.ordinal + 1, GateOf(p))
    ensures Inv(p.(sessions := p.sessions[p.fanning.next := s'], pool := pool',
                   fanning := Visiting(p.fanning.item, p.fanning.next + 1)))
  {
    TableVisit(p.sessions, p.fanning.item, p.fanning.next, GateOf(p), s');
  }

  /** What a visit leaves in the visited seat. */
  lemma VisitedSeatKeeps(p: Publisher, sent: bool, elsewhere: bool, raced: bool)
    requires Inv(p) && Enabled(p, Visit(sent, elsewhere, raced))
    ensures var s' := p.sessions[p.fanning.next].Visited(p.fanning.item, sent, elsewhere, raced).0;
      s'.Sound() && SeatInv(s', p.fanning.item.ordinal + 1, GateOf(p))
  {
    var j, item := p.fanning.next, p.fanning.item;
    assert SeatInv(p.sessions[j], Due(p.fanning, Front(p), j), GateOf(p));
    VisitedKeeps(p.sessions[j], GateOf(p), item, sent, elsewhere, raced);
  }

  lemma VisitKeeps(p: Publisher, sent: bool, elsewhere: bool, raced: bool)
    requires Inv(p) && Enabled(p, Visit(sent, elsewhere, raced))
    ensures Inv(Apply(p, Visit(sent, elsewhere, raced)))
  {
    var j, item := p.fanning.next, p.fanning.item;
    var p' := Apply(p, Visit(sent, elsewhere, raced));
    var s' := p.sessions[j].Visited(item, sent, elsewhere, raced).0;
    VisitedSeatKeeps(p, sent, elsewhere, raced);
    VisitedWindow(p.sessions[j], p.config.depth, item, sent, elsewhere, raced);
    assert p' == p.(sessions := p.sessions[j := s'], pool := p'.pool, fanning := Visiting(item, j + 1));
    VisitAssembles(p, s', p'.pool);
  }

  lemma BatchKeeps(p: Publisher, j: nat, s': Session, batch: seq<Item>)
    requires Inv(p) && j < |p.sessions| && p.fanning.Idle?
    requires |s'.inflight| == p.config.depth && s'.window.Valid() && s'.window.width <= p.config.depth
    requires SeatInv(s', Due(p.fanning, Front(p), j), GateOf(p))
    ensures Inv(Refresh(p.(sessions := p.sessions[j := s'], pool := p.pool.ReleaseAll(batch))))
  {
    var q := p.(sessions := p.sessions[j := s']);
    TableReplace(p, j, s');
    PoolSize(p.pool, batch);
    PoolIrrelevant(q, p.pool.ReleaseAll(batch));
    RefreshKeeps(q.(pool := p.pool.ReleaseAll(batch)));
  }

  lemma PoolIrrelevant(p: Publisher, pool': Pool)
    requires Inv(p) && |pool'.refs| == |p.pool.refs|
    ensures Inv(p.(pool := pool'))
  {
    assert Front(p.(pool := pool')) == Front(p) && GateOf(p.(pool := pool')) == GateOf(p);
  }

  lemma CreditKeeps(p: Publisher, j: nat, ack: nat)
    requires Inv(p) && Enabled(p, Step.Credit(j, ack))
    ensures Inv(Apply(p, Step.Credit(j, ack)))
  {
    var s := p.sessions[j];
    assert SeatInv(s, Due(p.fanning, Front(p), j), GateOf(p));
    var (w, _, released) := s.window.ApplyCredit(ack);
    CreditedKeeps(s, Due(p.fanning, Front(p), j), GateOf(p), ack);
    if released != 0 {
      var s' := s.(window := w);
      BatchKeeps(p, j, s', s.Outstanding()[..released]);
    }
  }

  lemma {:induction false} PoolSize(p: Pool, items: seq<Item>)
    ensures |p.ReleaseAll(items).refs| == |p.refs|
    decreases |items|
  {
    if items != [] {
      PoolSize(p.Release(items[0].slot), items[1..]);
    }
  }

  lemma TeardownKeeps(p: Publisher, j: nat)
    requires Inv(p) && Enabled(p, Teardown(j))
    ensures Inv(Apply(p, Teardown(j)))
  {
    var s := p.sessions[j];
    var s' := s.(window := Window(s.window.width, 0, 0), state := Closed, processed := 0, dropped := 0);
    BatchKeeps(p, j, s', s.Outstanding());
  }

  /** Outside a fan-out, the engine's own progress matters to no session. */
  lemma EngineMoveKeeps(p: Publisher, f: Fanning)
    requires Inv(p) && !p.fanning.Visiting? && !f.Visiting? && ArmingFresh(p.sessions, f)
    ensures Inv(p.(fanning := f))
  {
    var p' := p.(fanning := f);
    assert Front(p') == Front(p) && GateOf(p') == GateOf(p);
    forall k | 0 <= k < |p.sessions|
      ensures SeatInv(p'.sessions[k], Due(f, Front(p'), k), GateOf(p'))
    {
      assert SeatInv(p.sessions[k], Due(p.fanning, Front(p), k), GateOf(p));
    }
  }

  /** The state exchange and the read of the publish count promise nothing yet. */
  lemma ArmKeeps(p: Publisher, step: Step)
    requires Inv(p) && Enabled(p, step) && (step.Arm? || step.LoadCount?)
    ensures Inv(Apply(p, step))
  {
    var j := if step.Arm? then step.j else p.fanning.seat;
    var s := p.sessions[j];
    assert SeatInv(s, Due(p.fanning, Front(p), j), GateOf(p));
    var s' := if step.Arm? then s.(state := Armed, clean := false, steady := true) else s.(processed := p.admitted);
    TableReplace(p, j, s');
    EngineMoveKeeps(p.(sessions := p.sessions[j := s']), Arming(j, step.LoadCount?));
  }

  /** The promise starts when the new limit is stored. */
  lemma PromiseStarts(s: Session, p: Publisher, limit: nat)
    requires s.Sound() && SeatInv(s, Front(p), GateOf(p)) && (s.Eligible() ==> s.window.next == 0)
    requires s.Eligible() ==> limit <= s.Retired() + s.window.width
    ensures SeatInv(s.(clean := StartsWithin(p, s)), Front(p), GateOf(p).(limit := limit))
  {
  }

  lemma StoreKeeps(p: Publisher)
    requires Inv(p) && Enabled(p, StoreGauges)
    ensures Inv(Apply(p, StoreGauges))
  {
    var j := p.fanning.seat;
    var s := p.sessions[j];
    var q := p.(sessions := p.sessions[j := s.(clean := StartsWithin(p, s))], fanning := Idle);
    var p' := Refresh(q);
    assert SeatInv(s, Due(p.fanning, Front(p), j), GateOf(p));
    RefreshBounds(q, p);
    assert Front(p') == Front(p) && GateOf(p') == GateOf(p).(limit := p'.limit);
    forall k | 0 <= k < |q.sessions|
      ensures SeatInv(q.sessions[k], Due(Idle, Front(p), k), GateOf(p'))
    {
      StoredSeatKeeps(p, k);
    }
  }

  lemma StoredSeatKeeps(p: Publisher, k: nat)
    requires Inv(p) && Enabled(p, StoreGauges) && k < |p.sessions|
    ensures var p' := Apply(p, StoreGauges);
      SeatInv(p'.sessions[k], Front(p), GateOf(p).(limit := p'.limit))
  {
    var p' := Apply(p, StoreGauges);
    assert SeatInv(p.sessions[k], Due(p.fanning, Front(p), k), GateOf(p));
    if p'.sessions[k].Eligible() {
      StrictLimitBounds(p'.sessions, k);
    }
    if k == p.fanning.seat {
      PromiseStarts(p.sessions[k], p, p'.limit);
    } else {
      LimitMoves(p.sessions[k], Front(p), GateOf(p), p'.limit);
    }
  }

  lemma RefreshBounds(q: Publisher, p: Publisher)
    requires Inv(p) && AllSound(q.sessions) && GateOf(q).next == GateOf(p).next && q.admitted == p.admitted
    requires forall s :: s in q.sessions && s.Eligible() ==>
      s in p.sessions || (s.window.next == s.window.credited && s.processed <= GateOf(p).next)
    ensures Refresh(q).credited <= GateOf(p).next
  {
    forall s | s in q.sessions && s.Eligible()
      ensures s.Retired() <= GateOf(p).next
    {
      if s in p.sessions {
        var j :| 0 <= j < |p.sessions| && p.sessions[j] == s;
        assert SeatInv(p.sessions[j], Due(p.fanning, Front(p), j), GateOf(p));
        RetiredBelowProcessed(s, Due(p.fanning, Front(p), j), GateOf(p).next);
      }
    }
    BestBounded(q.sessions, GateOf(p).next);
  }

  lemma SeatStepKeeps(p: Publisher, step: Step)
    requires Inv(p) && Enabled(p, step) && (step.Open? || step.End?)
    ensures Inv(Apply(p, step))
  {
    assert SeatInv(p.sessions[step.j], Due(p.fanning, Front(p), step.j), GateOf(p));
    TableReplace(p, step.j, Apply(p, step).sessions[step.j]);
  }

  lemma StepKeeps(p: Publisher, step: Step)
    requires Inv(p) && Enabled(p, step)
    ensures Inv(Apply(p, step))
  {
    match step {
      case Decide(_) => PublishStepKeeps(p, step);
      case Push => PublishStepKeeps(p, step);
      case Count => PublishStepKeeps(p, step);
      case Acquire => HandleStepKeeps(p, step);
      case DropHandle(_) => HandleStepKeeps(p, step);
      case RejectNoSession(_) => HandleStepKeeps(p, step);
      case Enter(_) => HandleStepKeeps(p, step);
      case Busy(_) => HandleStepKeeps(p, step);
      case BeginFanOut => BeginKeeps(p);
      case EndFanOut => EndKeeps(p);
      case Visit(sent, elsewhere, raced) => VisitKeeps(p, sent, elsewhere, raced);
      case Credit(j, ack) => CreditKeeps(p, j, ack);
      case Teardown(j) => TeardownKeeps(p, j);
      case Arm(_) => ArmKeeps(p, step);
      case LoadCount => ArmKeeps(p, step);
      case StoreGauges => StoreKeeps(p);
      case _ => SeatStepKeeps(p, step);
    }
  }

  lemma {:induction false} RunKeeps(p: Publisher, steps: seq<Step>)
    requires Inv(p) && Legal(p, steps)
    ensures Inv(Run(p, steps))
    decreases |steps|
  {
    if steps != [] {
      StepKeeps(p, steps[0]);
      RunKeeps(Apply(p, steps[0]), steps[1..]);
    }
  }

  lemma ReachableOrdered(p: Publisher)
    requires Reachable(p)
    ensures Inv(p)
  {
    var config: Config, seats: nat, steps :|
      config.Valid() && Legal(Start(config, seats), steps) && Run(Start(config, seats), steps) == p;
    assert Inv(Start(config, seats));
    RunKeeps(Start(config, seats), steps);
  }

  // ----- Main results -----

  /** The invariant keeps the window of a cleanly armed session open. */
  lemma CleanWindowOpen(p: Publisher)
    requires Inv(p) && p.config.allActive && p.fanning.Visiting? && p.fanning.next < |p.sessions|
    requires var s := p.sessions[p.fanning.next]; s.Eligible() && s.clean
    ensures var s := p.sessions[p.fanning.next];
      && s.Sound() && s.window.CanSubmit()
      && (s.steady && s.window.next > 0 ==> Consecutive(s) && p.fanning.item.ordinal == s.processed)
  {
    var j := p.fanning.next;
    assert SeatInv(p.sessions[j], Due(p.fanning, Front(p), j), GateOf(p));
    PromisedWindowOpen(p.sessions[j], p.fanning.item.ordinal, GateOf(p));
  }

  /** Under AllActive, the fan-out reaches no cleanly armed session whose window
      is closed, so the skip branch is never taken for it; and while no send to it
      has failed, the frame it is about to get carries the very next ordinal. */
  lemma AllActiveLossless(p: Publisher)
    requires Reachable(p) && p.config.allActive
    requires p.fanning.Visiting? && p.fanning.next < |p.sessions|
    requires var s := p.sessions[p.fanning.next]; s.Eligible() && s.clean
    ensures var s := p.sessions[p.fanning.next];
      && s.Sound() && s.window.CanSubmit()
      && (s.steady && s.window.next > 0 ==>
            && p.fanning.item.ordinal == s.base + s.window.next
            && forall q :: s.window.credited <= q < s.window.next ==> s.At(q).ordinal == s.base + q)
  {
    ReachableOrdered(p);
    CleanWindowOpen(p);
  }

  /** The admission gauge never overtakes the publish count an application thread
      compares it with, so the unsigned difference cannot wrap. */
  lemma GaugeNeverOvertakes(p: Publisher)
    requires Reachable(p) && p.publishing.NoPublish?
    ensures p.credited <= p.admitted
  {
    ReachableOrdered(p);
  }
}
