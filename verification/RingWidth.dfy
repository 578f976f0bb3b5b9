/** A session references each slot at most once, and never the slot of a frame it
    has yet to be visited with.  A window as wide as the ring therefore never
    closes, whatever the fan-out mode. */
module RingWidth {
  import opened Base
  import opened Credit
  import opened Sessions
  import opened FanOut
  import opened SlotConservation

  ghost predicate HoldsOnce(s: Session)
    requires s.Sound()
  {
    forall i :: Held(s)[i] <= 1
  }

  ghost predicate TableHoldsOnce(ss: seq<Session>)
    requires AllSound(ss)
  {
    forall j :: 0 <= j < |ss| ==> HoldsOnce(ss[j])
  }

  /** No session still to be visited holds the frame's slot. */
  ghost predicate FrameIsNew(ss: seq<Session>, f: Fanning)
    requires AllSound(ss)
  {
    f.Visiting? ==> forall j :: f.next <= j < |ss| ==> Held(ss[j])[f.item.slot] == 0
  }

  ghost predicate Single(p: Publisher) {
    Conserved(p) && TableHoldsOnce(p.sessions) && FrameIsNew(p.sessions, p.fanning)
  }

  /** A queued slot is referenced by nobody. */
  lemma BeginIsNew(p: Publisher)
    requires Single(p) && Enabled(p, BeginFanOut)
    ensures Single(Apply(p, BeginFanOut))
  {
    StepConserves(p, BeginFanOut);
    var slot := p.queue[0].slot;
    assert Slots(p.queue)[0] == slot;
    assert Places(p.pool, p.queue, p.handles, slot) == 1;
    forall j | 0 <= j < |p.sessions|
      ensures Held(p.sessions[j])[slot] == 0
    {
      HeldWithinRefs(p, j);
    }
  }

  lemma VisitStaysSingle(p: Publisher, sent: bool, elsewhere: bool, raced: bool)
    requires Single(p) && Enabled(p, Visit(sent, elsewhere, raced))
    ensures Single(Apply(p, Visit(sent, elsewhere, raced)))
  {
    StepConserves(p, Visit(sent, elsewhere, raced));
    var j, item := p.fanning.next, p.fanning.item;
    var ss' := Apply(p, Visit(sent, elsewhere, raced)).sessions;
    VisitedHolds(p.sessions[j], item, sent, elsewhere, raced);
    forall k | 0 <= k < |ss'|
      ensures HoldsOnce(ss'[k])
    {
      assert HoldsOnce(p.sessions[k]);
    }
  }

  /** A seat that forgets its oldest frames, or none, keeps each slot single. */
  lemma SuffixHoldsOnce(s: Session, s': Session, n: nat)
    requires s.Sound() && s'.Sound() && HoldsOnce(s) && n <= |s.Outstanding()| && s'.Outstanding() == s.Outstanding()[n..]
    ensures HoldsOnce(s')
  {
    SplitHeld(s, n);
    forall i
      ensures Held(s')[i] <= 1
    {
      assert Held(s')[i] <= Held(s)[i];
    }
  }

  lemma SeatStaysSingle(p: Publisher, p': Publisher, j: nat, n: nat)
    requires Single(p) && Conserved(p') && !p'.fanning.Visiting? && j < |p.sessions| == |p'.sessions|
    requires p'.sessions == p.sessions[j := p'.sessions[j]] && n <= |p.sessions[j].Outstanding()|
    requires p'.sessions[j].Outstanding() == p.sessions[j].Outstanding()[n..]
    ensures Single(p')
  {
    assert HoldsOnce(p.sessions[j]);
    SuffixHoldsOnce(p.sessions[j], p'.sessions[j], n);
    forall k | 0 <= k < |p'.sessions|
      ensures HoldsOnce(p'.sessions[k])
    {
      assert HoldsOnce(p.sessions[k]);
    }
  }

  /** Opening and ending a session can fall inside a fan-out. */
  lemma ControlStaysSingle(p: Publisher, step: Step)
    requires Single(p) && Enabled(p, step) && (step.Open? || step.End?)
    ensures Single(Apply(p, step))
  {
    StepConserves(p, step);
    var s, s' := p.sessions[step.j], Apply(p, step).sessions[step.j];
    assert SessionOk(s, p.config.depth);
    if step.Open? {
      assert s'.Outstanding() == [] == s.Outstanding();
    } else {
      SameRing(s, s');
    }
    var ss' := Apply(p, step).sessions;
    forall k | 0 <= k < |ss'|
      ensures HoldsOnce(ss'[k]) && (p.fanning.Visiting? && p.fanning.next <= k ==> Held(ss'[k])[p.fanning.item.slot] == 0)
    {
      assert HoldsOnce(p.sessions[k]);
      assert Held(ss'[k]) == Held(p.sessions[k]);
    }
  }

  lemma ArmStaysSingle(p: Publisher, step: Step)
    requires Single(p) && Enabled(p, step) && (step.Arm? || step.LoadCount? || step.StoreGauges?)
    ensures Single(Apply(p, step))
  {
    StepConserves(p, step);
    var j := if step.Arm? then step.j else p.fanning.seat;
    var s, s' := p.sessions[j], Apply(p, step).sessions[j];
    SameRing(s, s');
    assert s.Outstanding()[0..] == s.Outstanding();
    SeatStaysSingle(p, Apply(p, step), j, 0);
  }

  lemma CreditStaysSingle(p: Publisher, j: nat, ack: nat)
    requires Single(p) && Enabled(p, Step.Credit(j, ack))
    ensures Single(Apply(p, Step.Credit(j, ack)))
  {
    StepConserves(p, Step.Credit(j, ack));
    var s := p.sessions[j];
    var released := s.window.ApplyCredit(ack).2;
    if released != 0 {
      RingSuffix(s, Apply(p, Step.Credit(j, ack)).sessions[j], released);
      SeatStaysSingle(p, Apply(p, Step.Credit(j, ack)), j, released);
    }
  }

  lemma TeardownStaysSingle(p: Publisher, j: nat)
    requires Single(p) && Enabled(p, Teardown(j))
    ensures Single(Apply(p, Teardown(j)))
  {
    StepConserves(p, Teardown(j));
    SeatStaysSingle(p, Apply(p, Teardown(j)), j, |p.sessions[j].Outstanding()|);
  }

  /** The remaining steps touch no session; the end of a fan-out frees its frame. */
  lemma OtherStaysSingle(p: Publisher, step: Step)
    requires Single(p) && Enabled(p, step)
    requires !(step.BeginFanOut? || step.Visit? || step.Credit? || step.Teardown? || step.Open? || step.End?
               || step.Arm? || step.LoadCount? || step.StoreGauges?)
    ensures Single(Apply(p, step))
  {
    StepConserves(p, step);
    assert Apply(p, step).sessions == p.sessions;
  }

  lemma StepStaysSingle(p: Publisher, step: Step)
    requires Single(p) && Enabled(p, step)
    ensures Single(Apply(p, step))
  {
    match step {
      case BeginFanOut => BeginIsNew(p);
      case Visit(sent, elsewhere, raced) => VisitStaysSingle(p, sent, elsewhere, raced);
      case Credit(j, ack) => CreditStaysSingle(p, j, ack);
      case Teardown(j) => TeardownStaysSingle(p, j);
      case Open(_, _) => ControlStaysSingle(p, step);
      case End(_) => ControlStaysSingle(p, step);
      case Arm(_) => ArmStaysSingle(p, step);
      case LoadCount => ArmStaysSingle(p, step);
      case StoreGauges => ArmStaysSingle(p, step);
      case _ => OtherStaysSingle(p, step);
    }
  }

  lemma {:induction false} RunStaysSingle(p: Publisher, steps: seq<Step>)
    requires Single(p) && Legal(p, steps)
    ensures Single(Run(p, steps))
    decreases |steps|
  {
    if steps != [] {
      StepStaysSingle(p, steps[0]);
      RunStaysSingle(Apply(p, steps[0]), steps[1..]);
    }
  }

  lemma ReachableSingle(p: Publisher)
    requires Reachable(p)
    ensures Single(p)
  {
    var config: Config, seats: nat, steps :|
      config.Valid() && Legal(Start(config, seats), steps) && Run(Start(config, seats), steps) == p;
    StartConserves(config, seats);
    forall j | 0 <= j < seats
      ensures HoldsOnce(Start(config, seats).sessions[j])
    {
      assert Start(config, seats).sessions[j].Outstanding() == [];
    }
    RunStaysSingle(Start(config, seats), steps);
  }

  /** What a session yet to be visited has outstanding are distinct slots other
      than the frame's, so they are fewer than the ring has. */
  lemma RingHasRoom(p: Publisher, j: nat)
    requires Single(p) && p.fanning.Visiting? && p.fanning.next <= j < |p.sessions|
    ensures p.sessions[j].window.next - p.sessions[j].window.credited < p.config.depth
  {
    var s := p.sessions[j];
    assert HoldsOnce(s) && SessionOk(s, p.config.depth);
    forall i | i in Slots(s.Outstanding())
      ensures i < p.config.depth && multiset(Slots(s.Outstanding()))[i] <= 1
    {
      assert Held(s)[i] <= 1;
      var k :| 0 <= k < |Slots(s.Outstanding())| && Slots(s.Outstanding())[k] == i;
      OutstandingInRing(s, s.Outstanding()[k]);
    }
    assert Held(s)[p.fanning.item.slot] == 0;
    RoomForMissing(Slots(s.Outstanding()), p.config.depth, p.fanning.item.slot);
  }

  /** A session whose window is as wide as the ring is never skipped, in either
      fan-out mode and however it was armed. */
  lemma FullWindowNeverSkipped(p: Publisher)
    requires Reachable(p) && p.fanning.Visiting? && p.fanning.next < |p.sessions|
    requires p.sessions[p.fanning.next].window.width == p.config.depth
    ensures p.sessions[p.fanning.next].Sound() && p.sessions[p.fanning.next].window.CanSubmit()
  {
    ReachableSingle(p);
    RingHasRoom(p, p.fanning.next);
  }
}
