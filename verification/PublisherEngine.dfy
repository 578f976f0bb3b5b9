/** The publisher as its threads run it: the free list and reference counts, the
    publish call, the fan-out loop, credit handling, teardown and the gauge loop.
    Each method is proved to take the corresponding steps of the fan-out system,
    starting and ending in a state that conserves slots. */
module PublisherEngine {
  import opened Base
  import opened Credit
  import opened Sessions
  import opened FanOut
  import opened SlotConservation

  /** What the transport and the control threads do during one visit. */
  datatype Outcome = Outcome(sent: bool, claimedElsewhere: bool, raced: bool)

  datatype PublishResult = Accepted | NoSession | QueueFull | CreditStalled | WouldBlock

  function VisitSteps(outcomes: seq<Outcome>): (steps: seq<Step>)
    ensures |steps| == |outcomes|
  {
    seq(|outcomes|, i requires 0 <= i < |outcomes| =>
      Visit(outcomes[i].sent, outcomes[i].claimedElsewhere, outcomes[i].raced))
  }

  function FanOutSteps(outcomes: seq<Outcome>): seq<Step> {
    [BeginFanOut] + VisitSteps(outcomes) + [EndFanOut]
  }

  /** The steps of one publish call, by its outcome. */
  function PublishSteps(slot: nat, r: PublishResult): seq<Step> {
    match r
    case NoSession => [RejectNoSession(slot)]
    case Accepted => [Enter(slot), Decide(slot), Push, Count]
    case QueueFull => [Enter(slot), Decide(slot), Push]
    case _ => [Enter(slot), Decide(slot)]
  }

  /** The outcome of a publish call nobody disturbs, from the gauges and the queue. */
  function PublishOutcome(p: Publisher): PublishResult {
    if p.armed == 0 then NoSession
    else if p.config.allActive && p.admitted >= p.limit then WouldBlock
    else if !p.config.allActive && p.admitted >= p.credited + p.config.window then CreditStalled
    else if |p.queue| >= p.config.queueCapacity then QueueFull
    else Accepted
  }

  /** What the call leaves. */
  function AfterPublish(p: Publisher, slot: nat): Publisher {
    match PublishOutcome(p)
    case NoSession => FanOut.ResetHandle(p, slot)
    case CreditStalled => FanOut.ResetHandle(p, slot)
    case Accepted =>
      p.(queue := p.queue + [Item(slot, p.admitted)], handles := p.handles - {slot}, admitted := p.admitted + 1)
    case _ => p
  }

  /** The call enters and decides. */
  lemma DecideRun(p: Publisher, slot: nat)
    requires Conserved(p) && slot in p.handles && p.entered == {} && p.publishing.NoPublish? && p.armed > 0
    ensures Reached(p, [Enter(slot), Decide(slot)], FanOut.DecideAdmission(p, slot))
  {
    Advance(p, [], p, Enter(slot));
    assert [] + [Enter(slot)] == [Enter(slot)];
    var entered := Apply(p, Enter(slot));
    Advance(p, [Enter(slot)], entered, Decide(slot));
    assert [Enter(slot)] + [Decide(slot)] == [Enter(slot), Decide(slot)];
    assert entered.entered - {slot} == {} == p.entered - {slot};
  }

  lemma PushRun(p: Publisher, slot: nat)
    requires Conserved(p) && slot in p.handles && p.entered == {} && p.publishing.NoPublish?
    requires PublishOutcome(p) == Accepted || PublishOutcome(p) == QueueFull
    ensures Reached(p, [Enter(slot), Decide(slot), Push],
                    if PublishOutcome(p) == QueueFull then p
                    else p.(queue := p.queue + [Item(slot, p.admitted)], handles := p.handles - {slot}, publishing := Pushed))
  {
    DecideRun(p, slot);
    assert p.entered - {slot} == p.entered;
    Advance(p, [Enter(slot), Decide(slot)], FanOut.DecideAdmission(p, slot), Push);
    assert [Enter(slot), Decide(slot)] + [Push] == [Enter(slot), Decide(slot), Push];
  }

  /** A publish call as steps of the system, whatever its outcome. */
  lemma PublishRun(p: Publisher, slot: nat)
    requires Conserved(p) && slot in p.handles && p.entered == {} && p.publishing.NoPublish?
    ensures Reached(p, PublishSteps(slot, PublishOutcome(p)), AfterPublish(p, slot))
  {
    match PublishOutcome(p) {
      case NoSession =>
        Advance(p, [], p, RejectNoSession(slot));
        assert [] + [RejectNoSession(slot)] == [RejectNoSession(slot)];
      case Accepted =>
        PushRun(p, slot);
        var pushed := p.(queue := p.queue + [Item(slot, p.admitted)], handles := p.handles - {slot}, publishing := Pushed);
        Advance(p, [Enter(slot), Decide(slot), Push], pushed, Count);
        assert [Enter(slot), Decide(slot), Push] + [Count] == [Enter(slot), Decide(slot), Push, Count];
      case QueueFull => PushRun(p, slot);
      case _ =>
        DecideRun(p, slot);
        assert p.entered - {slot} == p.entered;
    }
  }

  /** The session an undisturbed arm leaves. */
  function ArmedLevel(p: Publisher, s: Session): Session {
    s.(state := Armed, processed := p.admitted, steady := true,
       clean := |p.queue| <= s.window.width && (p.queue == [] || p.config.queueCapacity + 2 <= s.window.width))
  }

  /** Half way: the state is exchanged and the publish count read. */
  lemma ArmRun(p: Publisher, j: nat)
    requires Conserved(p) && Enabled(p, Arm(j))
    ensures var s := p.sessions[j].(state := Armed, clean := false, steady := true, processed := p.admitted);
      Reached(p, [Arm(j), LoadCount], p.(sessions := p.sessions[j := s], fanning := Arming(j, true)))
  {
    Advance(p, [], p, Arm(j));
    assert [] + [Arm(j)] == [Arm(j)];
    Advance(p, [Arm(j)], Apply(p, Arm(j)), LoadCount);
    assert [Arm(j)] + [LoadCount] == [Arm(j), LoadCount];
  }

  lemma StoreLevel(p: Publisher, j: nat, counted: Publisher)
    requires p.fanning.Idle? && p.publishing.NoPublish? && j < |p.sessions| && Enabled(counted, StoreGauges)
    requires counted == p.(sessions := counted.sessions, fanning := Arming(j, true))
    requires counted.sessions
          == p.sessions[j := p.sessions[j].(state := Armed, clean := false, steady := true, processed := p.admitted)]
    ensures AllSound(p.sessions[j := ArmedLevel(p, p.sessions[j])])
    ensures Apply(counted, StoreGauges) == Refresh(p.(sessions := p.sessions[j := ArmedLevel(p, p.sessions[j])]))
  {
    var s := counted.sessions[j];
    assert s.(clean := StartsWithin(counted, s)) == ArmedLevel(p, p.sessions[j]);
    assert counted.sessions[j := ArmedLevel(p, p.sessions[j])] == p.sessions[j := ArmedLevel(p, p.sessions[j])];
  }

  /** An undisturbed arm, as three steps of the system. */
  lemma ProbeAckRun(p: Publisher, j: nat)
    requires Conserved(p) && p.publishing.NoPublish? && Enabled(p, Arm(j))
    ensures AllSound(p.sessions[j := ArmedLevel(p, p.sessions[j])])
    ensures Reached(p, [Arm(j), LoadCount, StoreGauges],
                    Refresh(p.(sessions := p.sessions[j := ArmedLevel(p, p.sessions[j])])))
  {
    ArmRun(p, j);
    var counted := Run(p, [Arm(j), LoadCount]);
    StoreLevel(p, j, counted);
    Advance(p, [Arm(j), LoadCount], counted, StoreGauges);
    assert [Arm(j), LoadCount] + [StoreGauges] == [Arm(j), LoadCount, StoreGauges];
  }

  /** Releasing the rest of a batch after its first reference. */
  lemma ReleaseRest(pool: Pool, items: seq<Item>)
    requires PoolOk(pool) && items != []
    requires Releasable(pool.refs, items)
    ensures items[0].slot < |pool.refs| && pool.refs[items[0].slot] > 0
    ensures var pool' := pool.Release(items[0].slot);
      PoolOk(pool') && Releasable(pool'.refs, items[1..]) && pool'.ReleaseAll(items[1..]) == pool.ReleaseAll(items)
  {
    assert items[0] in items;
    SlotsOfFirst(items);
    ReleaseOne(pool, items[0].slot);
  }

  lemma SlotsOfFirst(items: seq<Item>)
    requires items != []
    ensures multiset(Slots(items)) == multiset{items[0].slot} + multiset(Slots(items[1..]))
  {
    assert Slots(items) == [items[0].slot] + Slots(items[1..]);
  }

  /** Every reference of the batch is backed by the counts. */
  ghost predicate Releasable(refs: seq<nat>, items: seq<Item>) {
    && (forall q :: q in items ==> q.slot < |refs|)
    && (forall i :: 0 <= i < |refs| ==> multiset(Slots(items))[i] <= refs[i])
  }

  class Engine {
    const config: Config
    var refs: array<nat>
    var free: seq<nat>
    var handles: set<nat>
    var queue: seq<Item>
    var sessions: seq<Session>
    var admitted: nat
    var credited: nat
    var limit: nat
    var armed: nat

    ghost function PoolState(): Pool
      reads this, refs
    {
      Pool(refs[..], free, false)
    }

    /** The state seen between two engine operations, or inside one. */
    ghost function StateAt(f: Fanning): Publisher
      reads this, refs
    {
      Publisher(config, PoolState(), handles, {}, queue, sessions, f, NoPublish, admitted, credited, limit, armed)
    }

    ghost function State(): Publisher
      reads this, refs
    {
      StateAt(Idle)
    }

    ghost predicate Valid()
      reads this, refs
    {
      Conserved(State())
    }

    constructor (config: Config, seats: nat)
      requires config.Valid()
      ensures Valid() && fresh(refs) && State() == Start(config, seats)
    {
      this.config := config;
      refs := new nat[config.depth](i => 0);
      free := seq(config.depth, i => i);
      handles, queue := {}, [];
      sessions := seq(seats, i => Session(Unknown, Window(config.window, 0, 0),
                                          seq(config.depth, i => Item(0, 0)), 0, 0, false, false, 0));
      admitted, credited, limit, armed := 0, 0, MAX64, 0;
      new;
      StartConserves(config, seats);
      assert refs[..] == seq(config.depth, i => 0);
    }

    method TryAcquire() returns (slot: Option<nat>)
      requires Valid()
      modifies this`free, this`handles
      ensures Valid()
      ensures slot.None? <==> old(free) == []
      ensures slot.None? ==> State() == old(State())
      ensures slot.Some? ==> Enabled(old(State()), Acquire) && State() == Apply(old(State()), Acquire) && slot.value in handles
    {
      if free == [] {
        return None;
      }
      StepConserves(State(), Acquire);
      slot := Some(free[0]);
      handles := handles + {free[0]};
      free := free[1..];
    }

    /** An unpublished handle returns its slot. */
    method ResetHandle(slot: nat)
      requires Valid() && slot in handles
      modifies this`free, this`handles
      ensures Valid() && State() == Apply(old(State()), DropHandle(slot))
    {
      StepConserves(State(), DropHandle(slot));
      assert |free| < |refs[..]| by {
        assert !Apply(State(), DropHandle(slot)).pool.fault;
      }
      handles := handles - {slot};
      free := free + [slot];
    }

    /** Publish one filled slot, undisturbed by other threads. */
    method Publish(slot: nat) returns (r: PublishResult)
      requires Valid() && slot in handles
      modifies this`free, this`handles, this`queue, this`admitted
      ensures Valid()
      ensures r == NoSession <==> old(armed) == 0
      ensures r == WouldBlock <==> old(armed) > 0 && config.allActive && old(admitted) >= old(limit)
      ensures r == CreditStalled <==>
        old(armed) > 0 && !config.allActive && old(admitted) >= old(credited) + config.window
      ensures r == QueueFull ==> |old(queue)| >= config.queueCapacity
      ensures r == WouldBlock || r == QueueFull ==> State() == old(State())
      ensures r == NoSession || r == CreditStalled ==> State() == Apply(old(State()), DropHandle(slot))
      ensures Reached(old(State()), PublishSteps(slot, r), State())
    {
      PublishRun(State(), slot);
      if armed == 0 {
        ResetHandle(slot);
        return NoSession;
      }
      if config.allActive && admitted >= limit {
        return WouldBlock;
      }
      if !config.allActive && admitted >= credited + config.window {
        ResetHandle(slot);
        return CreditStalled;
      }
      if |queue| >= config.queueCapacity {
        return QueueFull;
      }
      queue := queue + [Item(slot, admitted)];
      handles := handles - {slot};
      admitted := admitted + 1;
      r := Accepted;
    }

    /** Drop one reference; the slot goes back at zero. */
    method ReleaseSlotRef(slot: nat)
      requires PoolOk(PoolState()) && slot < refs.Length && refs[slot] > 0
      modifies refs, this`free
      ensures PoolState() == old(PoolState()).Release(slot)
    {
      ReleaseOne(PoolState(), slot);
      refs[slot] := refs[slot] - 1;
      if refs[slot] == 0 {
        free := free + [slot];
      }
    }

    /** Recompute the admission gauges in one pass over the table. */
    method RefreshGauges()
      requires AllSound(sessions)
      modifies this`credited, this`limit, this`armed
      ensures State() == Refresh(old(State()))
    {
      assert sessions[0..] == sessions;
      var best: nat, worst: nat, strict: nat, live := 0, admitted, MAX64, 0;
      var j := 0;
      while j < |sessions|
        invariant 0 <= j <= |sessions| && worst <= admitted && strict <= MAX64
        invariant live + Armeds(sessions[j..]) == Armeds(sessions)
        invariant Max(best, Best(sessions[j..])) == Best(sessions)
        invariant Min(worst, Worst(sessions[j..], admitted)) == Worst(sessions, admitted)
        invariant Min(strict, StrictLimit(sessions[j..])) == StrictLimit(sessions)
      {
        var s := sessions[j];
        assert sessions[j..][0] == s && sessions[j..][1..] == sessions[j + 1..];
        if s.Eligible() {
          live := live + 1;
          var retired := s.Retired();
          best := Max(best, retired);
          worst := Min(worst, retired);
          strict := Min(strict, retired + s.window.width);
        }
        j := j + 1;
      }
      assert sessions[j..] == [];
      credited := if live == 0 then admitted else if config.allActive then worst else best;
      limit := if live == 0 then MAX64 else strict;
      armed := live;
    }

    /** Take the oldest queued frame off the queue with the fan-out's own reference. */
    method TakeOldest() returns (item: Item)
      requires Valid() && queue != []
      modifies this`queue, refs
      ensures refs == old(refs)
      ensures Reached(old(State()), [BeginFanOut], StateAt(Visiting(item, 0)))
    {
      assert queue[0] in queue;
      Advance(State(), [], State(), BeginFanOut);
      assert [] + [BeginFanOut] == [BeginFanOut];
      item := queue[0];
      queue := queue[1..];
      refs[item.slot] := 1;
    }

    /** A visit as a step of the system. */
    method VisitNext(item: Item, j: nat, o: Outcome, ghost p: Publisher, ghost steps: seq<Step>)
      requires j < |sessions| && sessions[j].window.next < MAX64
      requires Reached(p, steps, StateAt(Visiting(item, j)))
      modifies this`sessions, refs
      ensures |sessions| == old(|sessions|) && forall k :: 0 <= k < |sessions| && k != j ==> sessions[k] == old(sessions)[k]
      ensures Reached(p, steps + [Visit(o.sent, o.claimedElsewhere, o.raced)], StateAt(Visiting(item, j + 1)))
    {
      Advance(p, steps, StateAt(Visiting(item, j)), Visit(o.sent, o.claimedElsewhere, o.raced));
      VisitOne(item, j, o);
    }

    /** Visit every session in table order. */
    method VisitAll(item: Item, outcomes: seq<Outcome>, ghost p: Publisher)
      requires |outcomes| == |sessions|
      requires forall k :: 0 <= k < |sessions| ==> sessions[k].window.next < MAX64
      requires Reached(p, [BeginFanOut], StateAt(Visiting(item, 0)))
      modifies this`sessions, refs
      ensures |sessions| == old(|sessions|)
      ensures Reached(p, [BeginFanOut] + VisitSteps(outcomes), StateAt(Visiting(item, |sessions|)))
    {
      ghost var steps := [BeginFanOut];
      var j := 0;
      while j < |sessions|
        invariant 0 <= j <= |sessions| == |outcomes|
        invariant forall k :: j <= k < |sessions| ==> sessions[k].window.next < MAX64
        invariant steps == [BeginFanOut] + VisitSteps(outcomes)[..j]
        invariant Reached(p, steps, StateAt(Visiting(item, j)))
      {
        VisitNext(item, j, outcomes[j], p, steps);
        steps := steps + [VisitSteps(outcomes)[j]];
        j := j + 1;
      }
      assert VisitSteps(outcomes)[..j] == VisitSteps(outcomes);
    }

    /** Submit the oldest queued frame to every eligible session. */
    method FanOut(outcomes: seq<Outcome>)
      requires Valid() && queue != [] && |outcomes| == |sessions|
      requires forall k :: 0 <= k < |sessions| ==> sessions[k].window.next < MAX64
      modifies this, refs
      ensures Reached(old(State()), FanOutSteps(outcomes), State())
    {
      var item := TakeOldest();
      VisitAll(item, outcomes, old(State()));
      FinishFanOut(item, old(State()), [BeginFanOut] + VisitSteps(outcomes));
    }

    /** Claim a session's end after a transport error, unless it is claimed already. */
    method BeginExpiry(j: nat, claimedElsewhere: bool)
      requires j < |sessions|
      modifies this`sessions
      ensures |sessions| == old(|sessions|) && forall k :: 0 <= k < |sessions| && k != j ==> sessions[k] == old(sessions[k])
      ensures sessions[j] == old(sessions[j]).(steady := false, state := if claimedElsewhere then old(sessions[j].state) else Expiring)
    {
      var s := sessions[j].(steady := false);
      if !claimedElsewhere {
        s := s.(state := Expiring);
      }
      sessions := sessions[j := s];
    }

    /** Hand one frame to the transport.  The in-flight entry is written first; the
        sequence is used only if the send is accepted, and the first frame activates
        a session that is still armed. */
    method SubmitTo(j: nat, item: Item, sent: bool, claimedElsewhere: bool) returns (accepted: bool)
      requires j < |sessions| && sessions[j].Sound()
      modifies this`sessions
      ensures accepted == sent
      ensures |sessions| == old(|sessions|) && forall k :: 0 <= k < |sessions| && k != j ==> sessions[k] == old(sessions[k])
      ensures sessions[j] == if sent then old(sessions[j]).Submitted(item) else old(sessions[j]).SendFailed(item, claimedElsewhere)
    {
      var sequence := sessions[j].window.next;
      var index := sequence % |sessions[j].inflight|;
      sessions := sessions[j := sessions[j].(inflight := sessions[j].inflight[index := item])];
      if !sent {
        BeginExpiry(j, claimedElsewhere);
        return false;
      }
      var s := sessions[j].(window := sessions[j].window.NoteSubmitted());
      if sequence == 0 {
        s := s.(base := item.ordinal);
      }
      if s.state == Armed {
        s := s.(state := Active);
      }
      sessions := sessions[j := s];
      accepted := true;
    }

    /** One turn of the fan-out loop: skip a session that is not eligible or whose
        window is closed, otherwise take a reference and give it back if the send is
        refused. */
    method VisitOne(item: Item, j: nat, o: Outcome)
      requires j < |sessions| && sessions[j].Sound() && item.slot < refs.Length
      modifies this`sessions, refs
      ensures refs == old(refs)
      ensures StateAt(Visiting(item, j + 1))
           == VisitSession(old(StateAt(Visiting(item, j))), j, item, o.sent, o.claimedElsewhere, o.raced)
              .(fanning := Visiting(item, j + 1))
      ensures forall k :: 0 <= k < |sessions| && k != j ==> sessions[k] == old(sessions)[k]
    {
      ghost var before, counts := sessions, refs[..];
      if !sessions[j].Eligible() && !(o.raced && sessions[j].state == Expiring) {
        assert before[j := before[j]] == before;
        return;
      }
      sessions := sessions[j := sessions[j].(processed := item.ordinal + 1)];
      if !sessions[j].window.CanSubmit() {
        sessions := sessions[j := sessions[j].(dropped := sessions[j].dropped + 1)];
        return;
      }
      refs[item.slot] := refs[item.slot] + 1;
      var accepted := SubmitTo(j, item, o.sent, o.claimedElsewhere);
      if !accepted {
        refs[item.slot] := refs[item.slot] - 1;
        assert refs[..] == counts;
      }
      assert sessions == before[j := before[j].Visited(item, o.sent, o.claimedElsewhere, o.raced).0];
    }

    /** A client answers the probe: exchange its state, start it level with the
        publish count and recompute the gauges, undisturbed by publish calls. */
    method HandleProbeAck(j: nat)
      requires Valid() && j < |sessions|
      modifies this`sessions, this`credited, this`limit, this`armed
      ensures Valid()
      ensures old(sessions[j].state) != SessionState.Open ==> State() == old(State())
      ensures old(sessions[j].state) == SessionState.Open ==>
        Reached(old(State()), [Arm(j), LoadCount, StoreGauges], State())
    {
      if sessions[j].state != SessionState.Open {
        return;
      }
      ProbeAckRun(State(), j);
      var s := sessions[j].(state := Armed, steady := true);
      s := s.(processed := admitted);
      s := s.(clean := |queue| <= s.window.width && (queue == [] || config.queueCapacity + 2 <= s.window.width));
      sessions := sessions[j := s];
      RefreshGauges();
    }

    /** The fan-out gives up its own reference and refreshes the gauges. */
    method FinishFanOut(item: Item, ghost p: Publisher, ghost steps: seq<Step>)
      requires Reached(p, steps, StateAt(Visiting(item, |sessions|)))
      modifies this, refs
      ensures refs == old(refs)
      ensures Reached(p, steps + [EndFanOut], State())
    {
      Advance(p, steps, StateAt(Visiting(item, |sessions|)), EndFanOut);
      PoolOfConserved(StateAt(Visiting(item, |sessions|)));
      ReleaseSlotRef(item.slot);
      RefreshGauges();
    }

    /** Hand back a batch of references, oldest first. */
    method ReleaseBatchOf(items: seq<Item>)
      requires PoolOk(PoolState()) && Releasable(refs[..], items)
      modifies refs, this`free
      ensures PoolState() == old(PoolState()).ReleaseAll(items)
    {
      var k := 0;
      assert items[0..] == items;
      while k < |items|
        invariant 0 <= k <= |items| && refs == old(refs)
        invariant PoolOk(PoolState()) && Releasable(refs[..], items[k..])
        invariant PoolState().ReleaseAll(items[k..]) == old(PoolState()).ReleaseAll(items)
      {
        ReleaseRest(PoolState(), items[k..]);
        assert items[k..][1..] == items[k + 1..];
        ReleaseSlotRef(items[k].slot);
        k := k + 1;
      }
    }

    /** A credit message for a live session. */
    method HandleCredit(j: nat, ack: u64)
      requires Valid() && j < |sessions| && Live(sessions[j].state)
      modifies this, refs
      ensures Valid() && State() == Apply(old(State()), Step.Credit(j, ack))
    {
      StepConserves(State(), Step.Credit(j, ack));
      var s := sessions[j];
      var (w, _, released) := s.window.ApplyCredit(ack);
      if released == 0 {
        return;
      }
      BatchReleasable(State(), j, released);
      ReleaseAndRefresh(j, s.(window := w), s.Outstanding()[..released]);
    }

    /** Replace a session, hand back the references it gives up, and recompute the
        gauges. */
    method ReleaseAndRefresh(j: nat, s': Session, batch: seq<Item>)
      requires AllSound(sessions) && j < |sessions| && s'.Sound()
      requires PoolOk(PoolState()) && Releasable(refs[..], batch)
      modifies this, refs
      ensures AllSound(old(sessions)[j := s'])
      ensures refs == old(refs)
      ensures State() == Refresh(old(State()).(sessions := old(sessions)[j := s'], pool := old(PoolState()).ReleaseAll(batch)))
    {
      sessions := sessions[j := s'];
      ReleaseBatchOf(batch);
      RefreshGauges();
    }

    /** Release what an ended session still holds and retire its seat. */
    method TeardownSession(j: nat)
      requires Valid() && j < |sessions| && sessions[j].state == Expiring
      modifies this, refs
      ensures Valid() && State() == Apply(old(State()), Teardown(j))
    {
      StepConserves(State(), Teardown(j));
      var s := sessions[j];
      BatchReleasable(State(), j, |s.Outstanding()|);
      assert s.Outstanding()[..|s.Outstanding()|] == s.Outstanding();
      ReleaseAndRefresh(j, s.(window := Window(s.window.width, 0, 0), state := Closed, processed := 0, dropped := 0),
                        s.Outstanding());
    }
  }

  lemma BatchReleasable(p: Publisher, j: nat, n: nat)
    requires Conserved(p) && j < |p.sessions| && n <= |p.sessions[j].Outstanding()|
    ensures PoolOk(p.pool)
    ensures Releasable(p.pool.refs, p.sessions[j].Outstanding()[..n])
  {
    PoolOfConserved(p);
    HeldWithinRefs(p, j);
    SplitHeld(p.sessions[j], n);
    forall q | q in p.sessions[j].Outstanding()[..n]
      ensures q.slot < |p.pool.refs|
    {
      OutstandingInRing(p.sessions[j], q);
      assert SessionOk(p.sessions[j], p.config.depth);
    }
  }
}
