/** The credit protocol end to end: one publisher session, a network, and the
    subscriber's receive slots, views, credit-return queue and release tracker.

    Frames in flight arrive at most once and in any order.  Credit messages are
    delivered in any order, may be duplicated, and may be lost; the transport
    reports a loss through the send's completion, or, if it breaks that promise,
    says nothing. */
module CreditProtocol {
  import opened Base
  import opened Credit

  /** What happens to a frame when the receive callback runs.  The headers and
      the transport decide; the model allows every answer. */
  datatype Arrival =
    | Ignored              // teardown, undecodable, foreign stream, stale epoch
    | GeometryChanged      // released, and the session fails
    | BadLength            // released: declared and delivered sizes differ
    | Oversize             // released: larger than granted
    | EagerIntoDevice      // released, and the session fails
    | RendezvousRefused    // the receive could not be started; the session fails
    | RendezvousInline
    | RendezvousPending
    | Eager

  datatype Slot = Slot(occupied: bool, sequence: nat)

  /** The receive side.  `depth` slots were registered, `granted` of them are in
      use, and `receiving` are the slots with a rendezvous in flight. */
  datatype Subscriber = Subscriber(granted: nat, slots: seq<Slot>, receiving: set<nat>,
                                   views: set<nat>, creditReturns: seq<nat>,
                                   tracker: Tracker, failed: bool)
  {
    ghost predicate Shaped() {
      && 0 < granted <= |slots| == tracker.depth
      && tracker.Valid()
      && (forall i :: i in receiving ==> i < granted)
    }

    function ReleaseOf(s: nat): Subscriber
      requires Shaped()
    {
      this.(tracker := tracker.Release(s).0)
    }

    function Fail(): Subscriber {
      this.(failed := true)
    }

    function Occupy(s: nat): Subscriber
      requires Shaped()
    {
      this.(slots := slots[s % granted := Slot(true, s)])
    }

    function Vacate(i: nat): Subscriber
      requires i < |slots|
    {
      this.(slots := slots[i := slots[i].(occupied := false)])
    }

    /** A filled slot becomes a view holding the sequence its header named. */
    function Commit(i: nat): Subscriber
      requires i < |slots|
    {
      this.(views := views + {slots[i].sequence})
    }

    predicate SlotBusy(s: nat)
      requires Shaped()
    {
      slots[s % granted].occupied || s < tracker.end
    }

    function HandleFrame(s: nat, a: Arrival): Subscriber
      requires Shaped()
    {
      if a.Ignored? then this
      else if a.GeometryChanged? then ReleaseOf(s).Fail()
      else if a.BadLength? || a.Oversize? then ReleaseOf(s)
      else if SlotBusy(s) then this
      else
        var u := Occupy(s);
        if a.RendezvousPending? then u.(receiving := receiving + {s % granted})
        else if a.RendezvousRefused? then u.Vacate(s % granted).Fail()
        else if a.EagerIntoDevice? then u.Vacate(s % granted).(tracker := tracker.Release(s).0).Fail()
        else u.Commit(s % granted)
    }

    function RendezvousDone(i: nat, ok: bool): Subscriber
      requires i < |slots|
    {
      var done := this.(receiving := receiving - {i});
      if ok then done.Commit(i) else done.Vacate(i).Fail()
    }

    /** The last copy of a view goes away: its sequence joins the return queue. */
    function DropView(s: nat): Subscriber {
      this.(views := views - {s}, creditReturns := creditReturns + [s])
    }

    function DrainOne(): Subscriber
      requires Shaped() && creditReturns != []
    {
      var s := creditReturns[0];
      Vacate(s % granted).(creditReturns := creditReturns[1..], tracker := tracker.Release(s).0)
    }
  }

  /** `transit` are the acknowledgements on the way, with multiplicity, and
      `reports` the failed completions the engine has yet to see.  `silent` is
      history: the acknowledgements that were lost without a report. */
  datatype System = System(window: Window, net: set<nat>, transit: multiset<nat>, reports: nat,
                           silent: set<nat>, sub: Subscriber)

  datatype Step =
    | Submit
    | Arrive(s: nat, how: Arrival)
    | LoseFrame(s: nat)
    | RendezvousEnds(i: nat, ok: bool)
    | LastCopyGone(s: nat)
    | DrainCredit
    | SendCredit(ok: bool)
    | CreditReportedLost
    | DeliverCredit(ack: nat, again: bool)
    | LoseCredit(ack: nat, reported: bool)
    | FalseReport

  /** When the code can take a step.  Sequences never wrap. */
  ghost predicate Enabled(y: System, step: Step) {
    && y.sub.Shaped()
    && match step
       case Submit => y.window.Valid() && y.window.CanSubmit() && y.window.next < MAX64
       case Arrive(s, _) => s in y.net
       case LoseFrame(s) => s in y.net
       case RendezvousEnds(i, _) => i in y.sub.receiving
       case LastCopyGone(s) => s in y.sub.views
       case DrainCredit => y.sub.creditReturns != []
       case SendCredit(_) => true
       case CreditReportedLost => y.reports > 0
       case DeliverCredit(ack, _) => ack in y.transit
       case LoseCredit(ack, _) => ack in y.transit
       case FalseReport => true
  }

  ghost function Apply(y: System, step: Step): System
    requires Enabled(y, step)
  {
    match step
    case Submit => y.(window := y.window.NoteSubmitted(), net := y.net + {y.window.next})
    case Arrive(s, how) => y.(net := y.net - {s}, sub := y.sub.HandleFrame(s, how))
    case LoseFrame(s) => y.(net := y.net - {s})
    case RendezvousEnds(i, ok) => y.(sub := y.sub.RendezvousDone(i, ok))
    case LastCopyGone(s) => y.(sub := y.sub.DropView(s))
    case DrainCredit => y.(sub := y.sub.DrainOne())
    case SendCredit(ok) =>
      var (t, ack) := y.sub.tracker.TakePendingAck();
      if ack.None? then y
      else if ok then y.(transit := y.transit + multiset{ack.value}, sub := y.sub.(tracker := t))
      else y.(sub := y.sub.(tracker := t.MarkAckFailed()))
    case CreditReportedLost =>
      y.(reports := y.reports - 1, sub := y.sub.(tracker := y.sub.tracker.MarkAckFailed()))
    case DeliverCredit(ack, again) =>
      y.(window := y.window.ApplyCredit(ack).0,
         transit := if again then y.transit else y.transit - multiset{ack})
    case LoseCredit(ack, reported) =>
      var y' := y.(transit := y.transit - multiset{ack});
      if reported then y'.(reports := y.reports + 1) else y'.(silent := y.silent + {ack})
    case FalseReport => y.(reports := y.reports + 1)
  }

  // ----- The handshake -----

  /** The ring depth and credit window one side asks for or is configured with. */
  datatype Limits = Limits(ring: nat, window: nat) {
    predicate Valid() {
      2 <= ring <= MAX32 && 1 <= window <= ring
    }
  }

  /** The publisher clamps the request by its own configuration. */
  function Clamp(request: Limits, config: Limits): (g: Limits)
    ensures request.Valid() && config.Valid() ==> g.Valid() && g.ring <= request.ring && g.ring <= config.ring
  {
    Limits(Min(request.ring, config.ring), Min(request.window, config.window))
  }

  function Start(request: Limits, config: Limits): System {
    var g := Clamp(request, config);
    System(Window(g.window, 0, 0), {}, multiset{}, 0, {},
           Subscriber(g.ring, seq(request.ring, i => Slot(false, 0)), {}, {}, [],
                      FreshTracker(request.ring, 0), false))
  }

  // ----- Runs -----

  ghost predicate Legal(y: System, steps: seq<Step>)
    decreases |steps|
  {
    steps == [] || (Enabled(y, steps[0]) && Legal(Apply(y, steps[0]), steps[1..]))
  }

  ghost function Run(y: System, steps: seq<Step>): System
    requires Legal(y, steps)
    decreases |steps|
  {
    if steps == [] then y else Run(Apply(y, steps[0]), steps[1..])
  }

  // ----- The invariant -----

  /** A sequence that has been submitted and not released at the subscriber. */
  ghost predicate Pending(y: System, s: nat) {
    y.sub.tracker.end <= s < y.window.next && s !in y.sub.tracker.ahead
  }

  /** The slot that belongs to `s` holds it. */
  ghost predicate HoldsSlot(u: Subscriber, s: nat)
    requires u.Shaped()
  {
    u.slots[s % u.granted] == Slot(true, s)
  }

  ghost predicate WindowInv(y: System) {
    && y.window.Valid()
    && y.sub.Shaped()
    && y.window.width <= y.sub.granted
    && y.sub.tracker.start == 0
    && y.window.credited <= y.sub.tracker.end <= y.window.next
    && (forall s :: s in y.sub.tracker.ahead ==> s < y.window.next)
  }

  /** What can have become of an acknowledgement once it was sent. */
  ghost predicate Traced(y: System, ack: nat) {
    || ack in y.transit                // still on its way
    || ack < y.window.credited         // applied, or overtaken by a newer one
    || y.reports > 0                   // a failed completion is waiting for the engine
    || ack in y.silent                 // lost without a report
  }

  ghost predicate AckInv(y: System) {
    && (forall a :: a in y.transit ==> a < y.sub.tracker.end)
    && (y.sub.tracker.ackSent ==> Traced(y, y.sub.tracker.lastAck))
  }

  /** Which of the three things an occupied slot is doing. */
  ghost predicate InUse(u: Subscriber, s: nat)
    requires u.Shaped()
  {
    s % u.granted in u.receiving || s in u.views || s in u.creditReturns
  }

  ghost predicate SlotInv(y: System)
    requires y.sub.Shaped()
  {
    var u := y.sub;
    && (forall s :: s in y.net ==> Pending(y, s))
    && (forall s :: s in u.views ==> HoldsSlot(u, s) && s % u.granted !in u.receiving && s !in u.creditReturns)
    && (forall s :: s in u.creditReturns ==> HoldsSlot(u, s) && s % u.granted !in u.receiving)
    && (forall i :: i in u.receiving ==> u.slots[i].occupied)
    && (forall i, j :: 0 <= i < j < |u.creditReturns| ==> u.creditReturns[i] != u.creditReturns[j])
    && (forall i :: 0 <= i < |u.slots| && u.slots[i].occupied ==> OccupantInv(y, i))
  }

  ghost predicate OccupantInv(y: System, i: nat)
    requires y.sub.Shaped() && i < |y.sub.slots|
  {
    var s := y.sub.slots[i].sequence;
    && i < y.sub.granted && s % y.sub.granted == i
    && Pending(y, s) && s !in y.net && InUse(y.sub, s)
  }

  ghost predicate Inv(y: System) {
    WindowInv(y) && AckInv(y) && SlotInv(y)
  }

  // ----- What a release does to the tracker -----

  lemma ReleasePending(t: Tracker, s: nat, next: nat)
    requires t.Valid() && t.end <= s < next && s !in t.ahead && t.end <= next
    requires forall x :: x in t.ahead ==> x < next
    ensures var t' := t.Release(s).0;
      && t'.Valid() && t'.depth == t.depth && t'.start == t.start
      && t'.lastAck == t.lastAck && t'.ackSent == t.ackSent
      && t.end <= t'.end <= next
      && (forall x :: x in t'.ahead ==> x < next)
      && (forall x :: x >= t.end && x != s ==> (x >= t'.end && x !in t'.ahead <==> x !in t.ahead))
  {
    ReleaseKeepsValid(t, s);
    var (t', r) := t.Release(s);
    if t' != t {
      var (e, a) := Swallow(t.end, t.ahead + {s});
      assert e > t.end ==> e - 1 in t.ahead + {s};
    }
  }

  /** Every pending sequence lies in one ring's worth above the released end, so
      no two of them share a slot. */
  lemma PendingSlotsDistinct(y: System, a: nat, b: nat)
    requires WindowInv(y) && Pending(y, a) && Pending(y, b)
    requires a % y.sub.granted == b % y.sub.granted
    ensures a == b
  {
    if a <= b {
      RingIndexUnique(a, b, y.sub.granted);
    } else {
      RingIndexUnique(b, a, y.sub.granted);
    }
  }

  lemma NetSlotFree(y: System, s: nat)
    requires Inv(y) && s in y.net
    ensures !y.sub.SlotBusy(s)
  {
    var i := s % y.sub.granted;
    if y.sub.slots[i].occupied {
      assert OccupantInv(y, i);
      PendingSlotsDistinct(y, s, y.sub.slots[i].sequence);
    }
  }

  // ----- Every step keeps the invariant -----

  lemma SubmitKeeps(y: System)
    requires Inv(y) && Enabled(y, Submit)
    ensures Inv(Apply(y, Submit))
  {
    var y' := Apply(y, Submit);
    forall i | 0 <= i < |y'.sub.slots| && y'.sub.slots[i].occupied
      ensures OccupantInv(y', i)
    {
      assert OccupantInv(y, i);
    }
  }

  /** Releasing one pending sequence that no slot, view or queue holds. */
  lemma ReleaseUnheldKeeps(y: System, s: nat)
    requires Inv(y) && s in y.net
    ensures Inv(y.(net := y.net - {s}, sub := y.sub.ReleaseOf(s)))
  {
    ReleasePending(y.sub.tracker, s, y.window.next);
    var y' := y.(net := y.net - {s}, sub := y.sub.ReleaseOf(s));
    forall i | 0 <= i < |y'.sub.slots| && y'.sub.slots[i].occupied
      ensures OccupantInv(y', i)
    {
      assert OccupantInv(y, i);
    }
  }

  /** What an unoccupied slot last held does not matter. */
  lemma VacantSlotKeeps(y: System, i: nat, q: nat)
    requires Inv(y) && i < |y.sub.slots| && !y.sub.slots[i].occupied
    ensures Inv(y.(sub := y.sub.(slots := y.sub.slots[i := Slot(false, q)])))
  {
    var y' := y.(sub := y.sub.(slots := y.sub.slots[i := Slot(false, q)]));
    forall j | 0 <= j < |y'.sub.slots| && y'.sub.slots[j].occupied
      ensures OccupantInv(y', j)
    {
      assert OccupantInv(y, j);
    }
  }

  lemma AcceptKeeps(y: System, s: nat, how: Arrival)
    requires Inv(y) && s in y.net
    requires how.RendezvousInline? || how.RendezvousPending? || how.Eager?
    ensures Inv(Apply(y, Arrive(s, how)))
  {
    var y' := Apply(y, Arrive(s, how));
    NetSlotFree(y, s);
    forall i | 0 <= i < |y'.sub.slots| && y'.sub.slots[i].occupied
      ensures OccupantInv(y', i)
    {
      if i != s % y.sub.granted {
        assert OccupantInv(y, i);
      }
    }
  }

  lemma LoseKeeps(y: System, s: nat)
    requires Inv(y)
    ensures Inv(y.(net := y.net - {s}))
  {
    var y' := y.(net := y.net - {s});
    forall i | 0 <= i < |y'.sub.slots| && y'.sub.slots[i].occupied
      ensures OccupantInv(y', i)
    {
      assert OccupantInv(y, i);
    }
  }

  lemma FailureIrrelevant(y: System)
    requires Inv(y)
    ensures Inv(y.(sub := y.sub.Fail()))
  {
    var y' := y.(sub := y.sub.Fail());
    forall i | 0 <= i < |y'.sub.slots| && y'.sub.slots[i].occupied
      ensures OccupantInv(y', i)
    {
      assert OccupantInv(y, i);
    }
  }

  /** A frame that is released on arrival without being delivered. */
  lemma RefusedFrameKeeps(y: System, s: nat, how: Arrival)
    requires Inv(y) && s in y.net
    requires how.GeometryChanged? || how.BadLength? || how.Oversize?
    ensures Inv(Apply(y, Arrive(s, how)))
  {
    ReleaseUnheldKeeps(y, s);
    FailureIrrelevant(y.(net := y.net - {s}, sub := y.sub.ReleaseOf(s)));
  }

  lemma EagerIntoDeviceKeeps(y: System, s: nat)
    requires Inv(y) && s in y.net
    ensures Inv(Apply(y, Arrive(s, EagerIntoDevice)))
  {
    var i := s % y.sub.granted;
    var released := y.(net := y.net - {s}, sub := y.sub.ReleaseOf(s));
    var vacated := released.(sub := released.sub.(slots := y.sub.slots[i := Slot(false, s)]));
    NetSlotFree(y, s);
    ReleaseUnheldKeeps(y, s);
    VacantSlotKeeps(released, i, s);
    FailureIrrelevant(vacated);
    assert y.sub.slots[i := Slot(true, s)][i := Slot(false, s)] == y.sub.slots[i := Slot(false, s)];
    assert Apply(y, Arrive(s, EagerIntoDevice)) == vacated.(sub := vacated.sub.Fail());
  }

  lemma RefusedReceiveKeeps(y: System, s: nat)
    requires Inv(y) && s in y.net
    ensures Inv(Apply(y, Arrive(s, RendezvousRefused)))
  {
    var i := s % y.sub.granted;
    var gone := y.(net := y.net - {s});
    var vacated := gone.(sub := y.sub.(slots := y.sub.slots[i := Slot(false, s)]));
    NetSlotFree(y, s);
    LoseKeeps(y, s);
    VacantSlotKeeps(gone, i, s);
    FailureIrrelevant(vacated);
    assert y.sub.slots[i := Slot(true, s)][i := Slot(false, s)] == y.sub.slots[i := Slot(false, s)];
    assert Apply(y, Arrive(s, RendezvousRefused)) == vacated.(sub := vacated.sub.Fail());
  }

  lemma ArriveKeeps(y: System, s: nat, how: Arrival)
    requires Inv(y) && s in y.net
    ensures Inv(Apply(y, Arrive(s, how)))
  {
    match how {
      case Ignored => LoseKeeps(y, s);
      case RendezvousRefused => RefusedReceiveKeeps(y, s);
      case RendezvousInline => AcceptKeeps(y, s, how);
      case RendezvousPending => AcceptKeeps(y, s, how);
      case Eager => AcceptKeeps(y, s, how);
      case EagerIntoDevice => EagerIntoDeviceKeeps(y, s);
      case _ => RefusedFrameKeeps(y, s, how);
    }
  }

  lemma RendezvousKeeps(y: System, i: nat, ok: bool)
    requires Inv(y) && i in y.sub.receiving
    ensures Inv(Apply(y, RendezvousEnds(i, ok)))
  {
    var y' := Apply(y, RendezvousEnds(i, ok));
    assert OccupantInv(y, i);
    forall j | 0 <= j < |y'.sub.slots| && y'.sub.slots[j].occupied
      ensures OccupantInv(y', j)
    {
      assert OccupantInv(y, j);
    }
  }

  lemma DropViewKeeps(y: System, s: nat)
    requires Inv(y) && s in y.sub.views
    ensures Inv(Apply(y, LastCopyGone(s)))
  {
    var y' := Apply(y, LastCopyGone(s));
    assert OccupantInv(y, s % y.sub.granted);
    forall j | 0 <= j < |y'.sub.slots| && y'.sub.slots[j].occupied
      ensures OccupantInv(y', j)
    {
      assert OccupantInv(y, j);
    }
  }

  lemma DrainKeeps(y: System)
    requires Inv(y) && y.sub.creditReturns != []
    ensures Inv(Apply(y, DrainCredit))
  {
    var y' := Apply(y, DrainCredit);
    var s := y.sub.creditReturns[0];
    assert OccupantInv(y, s % y.sub.granted);
    ReleasePending(y.sub.tracker, s, y.window.next);
    forall j | 0 <= j < |y'.sub.slots| && y'.sub.slots[j].occupied
      ensures OccupantInv(y', j)
    {
      assert OccupantInv(y, j);
    }
  }

  /** The slots do not care which acknowledgements were sent or arrived. */
  lemma SlotsUntouched(y: System, y': System)
    requires y.sub.Shaped() && y'.sub.Shaped() && SlotInv(y) && y'.net == y.net && y'.window.next == y.window.next
    requires var t := y.sub.tracker;
      y'.sub == y.sub.(tracker := t.(lastAck := y'.sub.tracker.lastAck, ackSent := y'.sub.tracker.ackSent))
    ensures SlotInv(y')
  {
    forall j | 0 <= j < |y'.sub.slots| && y'.sub.slots[j].occupied
      ensures OccupantInv(y', j)
    {
      assert OccupantInv(y, j);
    }
  }

  lemma SentTraced(y: System, ok: bool)
    requires WindowInv(y) && AckInv(y)
    ensures WindowInv(Apply(y, SendCredit(ok))) && AckInv(Apply(y, SendCredit(ok)))
  {
  }

  /** A delivered acknowledgement has been applied or overtaken. */
  lemma DeliveredTraced(y: System, ack: nat, again: bool)
    requires WindowInv(y) && AckInv(y) && ack in y.transit
    ensures var y' := Apply(y, DeliverCredit(ack, again)); WindowInv(y') && AckInv(y')
  {
    var y' := Apply(y, DeliverCredit(ack, again));
    assert forall a :: a in y'.transit ==> a in y.transit;
    assert forall a :: a in y.transit ==> a in y'.transit || a == ack;
    assert ack < y'.window.credited;
    assert y.window.credited <= y'.window.credited;
  }

  lemma LostTraced(y: System, ack: nat, reported: bool)
    requires WindowInv(y) && AckInv(y) && ack in y.transit
    ensures var y' := Apply(y, LoseCredit(ack, reported)); WindowInv(y') && AckInv(y')
  {
    var y' := Apply(y, LoseCredit(ack, reported));
    assert forall a :: a in y'.transit ==> a in y.transit;
    assert forall a :: a in y.transit ==> a in y'.transit || a == ack;
  }

  lemma ReportTraced(y: System, step: Step)
    requires WindowInv(y) && AckInv(y) && Enabled(y, step) && (step.CreditReportedLost? || step.FalseReport?)
    ensures WindowInv(Apply(y, step)) && AckInv(Apply(y, step))
  {
  }

  predicate Traffic(step: Step) {
    step.SendCredit? || step.CreditReportedLost? || step.DeliverCredit? || step.LoseCredit? || step.FalseReport?
  }

  lemma TrafficTraced(y: System, step: Step)
    requires WindowInv(y) && AckInv(y) && Enabled(y, step) && Traffic(step)
    ensures WindowInv(Apply(y, step)) && AckInv(Apply(y, step))
  {
    match step {
      case SendCredit(ok) => SentTraced(y, ok);
      case DeliverCredit(ack, again) => DeliveredTraced(y, ack, again);
      case LoseCredit(ack, reported) => LostTraced(y, ack, reported);
      case CreditReportedLost => ReportTraced(y, step);
      case FalseReport => ReportTraced(y, step);
    }
  }

  lemma TrafficLeavesSlots(y: System, step: Step)
    requires y.sub.Shaped() && Enabled(y, step) && Traffic(step)
    ensures var y', t := Apply(y, step), y.sub.tracker;
      && y'.net == y.net && y'.window.next == y.window.next
      && y'.sub == y.sub.(tracker := t.(lastAck := y'.sub.tracker.lastAck, ackSent := y'.sub.tracker.ackSent))
  {
  }

  lemma CreditTrafficKeeps(y: System, step: Step)
    requires Inv(y) && Enabled(y, step) && Traffic(step)
    ensures Inv(Apply(y, step))
  {
    TrafficTraced(y, step);
    TrafficLeavesSlots(y, step);
    SlotsUntouched(y, Apply(y, step));
  }

  lemma StepKeeps(y: System, step: Step)
    requires Inv(y) && Enabled(y, step)
    ensures Inv(Apply(y, step))
  {
    match step {
      case Submit => SubmitKeeps(y);
      case Arrive(s, how) => ArriveKeeps(y, s, how);
      case LoseFrame(s) => LoseKeeps(y, s);
      case RendezvousEnds(i, ok) => RendezvousKeeps(y, i, ok);
      case LastCopyGone(s) => DropViewKeeps(y, s);
      case DrainCredit => DrainKeeps(y);
      case _ => CreditTrafficKeeps(y, step);
    }
  }

  lemma {:induction false} RunKeeps(y: System, steps: seq<Step>)
    requires Inv(y) && Legal(y, steps)
    ensures Inv(Run(y, steps))
    decreases |steps|
  {
    if steps != [] {
      StepKeeps(y, steps[0]);
      RunKeeps(Apply(y, steps[0]), steps[1..]);
    }
  }

  lemma StartHolds(request: Limits, config: Limits)
    requires request.Valid() && config.Valid()
    ensures Inv(Start(request, config))
  {
  }

  /** Some run of some correctly configured pair of peers ends in `y`. */
  ghost predicate Reachable(y: System) {
    exists request: Limits, config: Limits, steps ::
      && request.Valid() && config.Valid()
      && Legal(Start(request, config), steps) && Run(Start(request, config), steps) == y
  }

  lemma ReachableHolds(y: System)
    requires Reachable(y)
    ensures Inv(y)
  {
    var request: Limits, config: Limits, steps :|
      && request.Valid() && config.Valid()
      && Legal(Start(request, config), steps) && Run(Start(request, config), steps) == y;
    StartHolds(request, config);
    RunKeeps(Start(request, config), steps);
  }

  // ----- Main results, over every run of every pair of peers -----

  /** A sequence the subscriber still has to deal with: in flight, landing in a
      slot, visible to the application, or waiting to be credited. */
  ghost predicate StillOwned(y: System, s: nat) {
    || s in y.net
    || Landing(y.sub, s)
    || s in y.sub.views
    || s in y.sub.creditReturns
  }

  ghost predicate Landing(u: Subscriber, s: nat) {
    exists i :: i in u.receiving && i < |u.slots| && u.slots[i].sequence == s
  }

  lemma OwnedIsPending(y: System, s: nat)
    requires Inv(y) && StillOwned(y, s)
    ensures Pending(y, s)
  {
    if Landing(y.sub, s) {
      var i :| i in y.sub.receiving && i < |y.sub.slots| && y.sub.slots[i].sequence == s;
      assert OccupantInv(y, i);
    } else if s !in y.net {
      assert OccupantInv(y, s % y.sub.granted);
    }
  }

  /** Credit never runs ahead of release, so nothing the publisher considers
      credited is in flight, landing, held by a view, or queued. */
  lemma CreditSafety(y: System, s: nat)
    requires Reachable(y)
    ensures y.window.credited <= y.sub.tracker.end <= y.window.next
    ensures StillOwned(y, s) ==> y.window.credited <= s < y.window.next
  {
    ReachableHolds(y);
    if StillOwned(y, s) {
      OwnedIsPending(y, s);
    }
  }

  /** Every frame that arrives finds its slot free and is never dropped as a
      duplicate: the clamped window cannot overrun the granted ring. */
  lemma ReceiveSlotExclusive(y: System, s: nat)
    requires Reachable(y) && s in y.net
    ensures y.sub.Shaped() && !y.sub.SlotBusy(s)
  {
    ReachableHolds(y);
    NetSlotFree(y, s);
  }

  /** Live views and queued credits together fit the credit window: the
      double-depth return queue cannot fill, and `ring_depth` control blocks are
      enough for every lease. */
  lemma CreditQueueHasRoom(y: System)
    requires Reachable(y)
    ensures |y.sub.creditReturns| + |y.sub.views| <= y.window.width <= y.sub.granted
    ensures forall i, j :: 0 <= i < j < |y.sub.creditReturns| ==> y.sub.creditReturns[i] != y.sub.creditReturns[j]
    ensures y.sub.views != {} ==> |y.sub.creditReturns| < 2 * |y.sub.slots|
  {
    ReachableHolds(y);
    forall s | s in y.sub.creditReturns || s in y.sub.views
      ensures y.sub.tracker.end <= s < y.window.next
    {
      OwnedIsPending(y, s);
    }
    DistinctFitInterval(y.sub.creditReturns, y.sub.views, y.sub.tracker.end, y.window.next);
    assert y.sub.views != {} ==> |y.sub.views| >= 1;
  }

  /** The tracker has an acknowledgement to send. */
  ghost predicate Offers(y: System) {
    y.sub.Shaped() && y.sub.tracker.TakePendingAck().1.Some?
  }

  /** The newest contiguous acknowledgement is never forgotten: the publisher has
      applied it, it is on its way, a report of its loss is waiting, or the tracker
      offers it, unless the transport lost it and said nothing. */
  lemma NewestAckRecoverable(y: System)
    requires Reachable(y) && y.sub.tracker.end > 0 && y.sub.tracker.end - 1 !in y.silent
    ensures var newest := y.sub.tracker.end - 1;
      || y.window.credited == newest + 1
      || newest in y.transit
      || y.reports > 0
      || (y.sub.Shaped() && y.sub.tracker.TakePendingAck().1 == Some(newest))
  {
    ReachableHolds(y);
  }

  /** What the two ends and the transport do by themselves to get the newest
      acknowledgement across. */
  ghost function Recovery(y: System): seq<Step>
    requires y.window.credited <= y.window.next
  {
    var newest := y.window.next - 1;
    if y.window.credited == y.window.next then []
    else if newest in y.transit then [DeliverCredit(newest, false)]
    else if Offers(y) then [SendCredit(true), DeliverCredit(newest, false)]
    else [CreditReportedLost, SendCredit(true), DeliverCredit(newest, false)]
  }

  lemma DeliverNewest(y: System)
    requires Inv(y) && y.sub.tracker.end == y.window.next > 0 && y.window.next - 1 in y.transit
    ensures var round := [DeliverCredit(y.window.next - 1, false)];
      && Legal(y, round)
      && Run(y, round).window.credited == Run(y, round).window.next == y.window.next
  {
    var deliver := DeliverCredit(y.window.next - 1, false);
    assert [deliver][1..] == [];
    assert Legal(Apply(y, deliver), []) && Run(Apply(y, deliver), []) == Apply(y, deliver);
  }

  lemma SendAndDeliverNewest(y: System)
    requires Inv(y) && y.sub.tracker.end == y.window.next > 0 && Offers(y)
    ensures var round := [SendCredit(true), DeliverCredit(y.window.next - 1, false)];
      && Legal(y, round)
      && Run(y, round).window.credited == Run(y, round).window.next == y.window.next
  {
    CreditTrafficKeeps(y, SendCredit(true));
    DeliverNewest(Apply(y, SendCredit(true)));
    assert [SendCredit(true), DeliverCredit(y.window.next - 1, false)][1..] == [DeliverCredit(y.window.next - 1, false)];
  }

  lemma ReportAndSendNewest(y: System)
    requires Inv(y) && y.sub.tracker.end == y.window.next > 0 && y.reports > 0
    ensures var round := [CreditReportedLost, SendCredit(true), DeliverCredit(y.window.next - 1, false)];
      && Legal(y, round)
      && Run(y, round).window.credited == Run(y, round).window.next == y.window.next
  {
    CreditTrafficKeeps(y, CreditReportedLost);
    SendAndDeliverNewest(Apply(y, CreditReportedLost));
    assert [CreditReportedLost, SendCredit(true), DeliverCredit(y.window.next - 1, false)][1..]
        == [SendCredit(true), DeliverCredit(y.window.next - 1, false)];
  }

  /** Once everything sent has been released, one recovery round empties the
      publisher's window, whatever became of the credits sent so far, unless the
      last one was lost without a report. */
  lemma CreditRoundEmptiesWindow(y: System)
    requires Inv(y) && y.sub.tracker.end == y.window.next > 0 && y.window.next - 1 !in y.silent
    ensures Legal(y, Recovery(y))
    ensures Run(y, Recovery(y)).window.credited == Run(y, Recovery(y)).window.next == y.window.next
  {
    if y.window.credited < y.window.next {
      if y.window.next - 1 in y.transit {
        DeliverNewest(y);
      } else if Offers(y) {
        SendAndDeliverNewest(y);
      } else {
        ReportAndSendNewest(y);
      }
    }
  }

  // ----- Nothing vanishes unless the transport loses it -----

  /** A step that neither loses a frame, nor drops one unreleased, nor loses a
      credit without a report, taken while the tracker's window still fits below
      the 64-bit end. */
  ghost predicate KeepsFrames(y: System, step: Step) {
    && !step.LoseFrame?
    && !(step.Arrive? && (step.how.Ignored? || step.how.RendezvousRefused?))
    && !(step.RendezvousEnds? && !step.ok)
    && !(step.LoseCredit? && !step.reported)
    && y.window.next + y.sub.tracker.depth <= MAX64
  }

  ghost predicate Reliable(y: System, steps: seq<Step>)
    requires Legal(y, steps)
    decreases |steps|
  {
    steps == [] || (KeepsFrames(y, steps[0]) && Reliable(Apply(y, steps[0]), steps[1..]))
  }

  ghost predicate Accounted(y: System) {
    forall s: nat :: s < y.window.next ==> StillOwned(y, s) || y.sub.tracker.Released(s)
  }

  lemma ReleaseRecords(t: Tracker, s: nat)
    requires t.Valid() && t.start == 0 && t.end <= s < t.end + t.depth <= MAX64
    ensures forall x: nat :: t.Release(s).0.Released(x) <==> t.Released(x) || x == s
  {
    if s !in t.ahead {
      var (e, a) := Swallow(t.end, t.ahead + {s});
    }
  }

  lemma ArrivalNotLost(y: System, q: nat, how: Arrival, s: nat)
    requires Inv(y) && q in y.net && KeepsFrames(y, Arrive(q, how))
    requires StillOwned(y, s) || y.sub.tracker.Released(s)
    ensures var y' := Apply(y, Arrive(q, how));
      StillOwned(y', s) || y'.sub.tracker.Released(s)
  {
    var y' := Apply(y, Arrive(q, how));
    NetSlotFree(y, q);
    ReleaseRecords(y.sub.tracker, q);
    if Landing(y.sub, s) {
      var i :| i in y.sub.receiving && i < |y.sub.slots| && y.sub.slots[i].sequence == s;
      assert i in y'.sub.receiving && y'.sub.slots[i].sequence == s;
    }
    if s == q && how.RendezvousPending? {
      assert s % y.sub.granted in y'.sub.receiving;
    }
  }

  lemma DrainNotLost(y: System, s: nat)
    requires Inv(y) && y.sub.creditReturns != [] && KeepsFrames(y, DrainCredit)
    requires StillOwned(y, s) || y.sub.tracker.Released(s)
    ensures var y' := Apply(y, DrainCredit);
      StillOwned(y', s) || y'.sub.tracker.Released(s)
  {
    var y' := Apply(y, DrainCredit);
    var q := y.sub.creditReturns[0];
    OwnedIsPending(y, q);
    ReleaseRecords(y.sub.tracker, q);
    if Landing(y.sub, s) {
      var i :| i in y.sub.receiving && i < |y.sub.slots| && y.sub.slots[i].sequence == s;
      assert i in y'.sub.receiving && y'.sub.slots[i].sequence == s;
    }
    if s in y.sub.creditReturns && s != q {
      assert s in y'.sub.creditReturns;
    }
  }

  lemma MovedNotLost(y: System, step: Step, s: nat)
    requires Inv(y) && Enabled(y, step) && KeepsFrames(y, step)
    requires StillOwned(y, s) || y.sub.tracker.Released(s)
    ensures StillOwned(Apply(y, step), s) || Apply(y, step).sub.tracker.Released(s)
  {
    var y' := Apply(y, step);
    match step {
      case Arrive(q, how) => ArrivalNotLost(y, q, how, s);
      case DrainCredit => DrainNotLost(y, s);
      case LastCopyGone(q) =>
      case RendezvousEnds(j, ok) =>
        if Landing(y.sub, s) {
          var i :| i in y.sub.receiving && i < |y.sub.slots| && y.sub.slots[i].sequence == s;
          assert i in y'.sub.receiving || s in y'.sub.views;
        }
      case _ =>
    }
  }

  lemma StepAccounts(y: System, step: Step)
    requires Inv(y) && Enabled(y, step) && KeepsFrames(y, step) && Accounted(y)
    ensures Accounted(Apply(y, step))
  {
    var y' := Apply(y, step);
    forall s: nat | s < y'.window.next
      ensures StillOwned(y', s) || y'.sub.tracker.Released(s)
    {
      if s < y.window.next {
        MovedNotLost(y, step, s);
      } else {
        assert s in y'.net;
      }
    }
  }

  lemma {:induction false} RunAccounts(y: System, steps: seq<Step>)
    requires Inv(y) && Accounted(y) && Legal(y, steps) && Reliable(y, steps)
    ensures Inv(Run(y, steps)) && Accounted(Run(y, steps)) && Run(y, steps).silent == y.silent
    decreases |steps|
  {
    if steps != [] {
      StepKeeps(y, steps[0]);
      StepAccounts(y, steps[0]);
      RunAccounts(Apply(y, steps[0]), steps[1..]);
    }
  }

  /** The application has let every view go and every frame has been dealt with. */
  ghost predicate Quiescent(y: System) {
    y.net == {} && y.sub.receiving == {} && y.sub.views == {} && y.sub.creditReturns == []
  }

  lemma QuietIsReleased(request: Limits, config: Limits, steps: seq<Step>)
    requires request.Valid() && config.Valid()
    requires Legal(Start(request, config), steps) && Reliable(Start(request, config), steps)
    requires Quiescent(Run(Start(request, config), steps))
    ensures var y := Run(Start(request, config), steps);
      Inv(y) && y.silent == {} && y.sub.tracker.end == y.window.next
  {
    StartHolds(request, config);
    RunAccounts(Start(request, config), steps);
    var y := Run(Start(request, config), steps);
    var end := y.sub.tracker.end;
    assert !StillOwned(y, end) && !y.sub.tracker.Released(end);
  }

  /** After any run whose transport lost no frame and reported every credit it
      lost, once the application has let every view go, the recovery round leaves
      the publisher with nothing outstanding. */
  lemma NothingLeftOutstanding(request: Limits, config: Limits, steps: seq<Step>)
    requires request.Valid() && config.Valid()
    requires Legal(Start(request, config), steps)
    requires Reliable(Start(request, config), steps)
    requires Quiescent(Run(Start(request, config), steps))
    ensures var y := Run(Start(request, config), steps);
      && y.sub.tracker.end == y.window.next
      && y.window.credited <= y.window.next
      && Legal(y, Recovery(y)) && Run(y, Recovery(y)).window.credited == Run(y, Recovery(y)).window.next
  {
    QuietIsReleased(request, config, steps);
    var y := Run(Start(request, config), steps);
    if y.window.next > 0 {
      CreditRoundEmptiesWindow(y);
    }
  }

  // ----- The credit path comes to rest, and at rest nothing is outstanding -----

  /** No credit on its way, no report waiting, nothing to send. */
  ghost predicate Settled(y: System) {
    y.transit == multiset{} && y.reports == 0 && !Offers(y)
  }

  /** How much the credit path still has to do. */
  ghost function CreditWork(y: System): nat {
    3 * y.reports + |y.transit| + if Offers(y) then 2 else 0
  }

  /** The credit path works on its own: a report reaches the engine, a pending
      acknowledgement is sent, a credit arrives. */
  ghost predicate Works(y: System, step: Step) {
    && Enabled(y, step)
    && (step.CreditReportedLost? || (step == SendCredit(true) && Offers(y)) || (step.DeliverCredit? && !step.again))
  }

  lemma WorkShrinks(y: System, step: Step)
    requires Inv(y) && Works(y, step)
    ensures CreditWork(Apply(y, step)) < CreditWork(y)
  {
    if step.DeliverCredit? {
      assert |y.transit - multiset{step.ack}| == |y.transit| - 1;
      assert Apply(y, step).sub == y.sub;
    } else if step.SendCredit? {
      assert !Offers(Apply(y, step));
    }
  }

  /** Until it rests, the credit path has a step to take, and every such step gets it
      closer: whatever the order, it rests after at most `CreditWork` of them. */
  lemma CreditPathRests(y: System)
    requires Inv(y)
    ensures Settled(y) <==> forall step :: !Works(y, step)
    ensures forall step :: Works(y, step) ==> CreditWork(Apply(y, step)) < CreditWork(y)
  {
    if y.reports > 0 {
      assert Works(y, CreditReportedLost);
    } else if y.transit != multiset{} {
      var ack :| ack in y.transit;
      assert Works(y, DeliverCredit(ack, false));
    } else if Offers(y) {
      assert Works(y, SendCredit(true));
    }
    forall step | Works(y, step)
      ensures CreditWork(Apply(y, step)) < CreditWork(y)
    {
      WorkShrinks(y, step);
    }
  }

  /** At rest the publisher has applied everything released, or the newest
      acknowledgement was lost without a report. */
  lemma RestIsCreditedOrSilent(y: System)
    requires Reachable(y) && Settled(y)
    ensures y.window.credited == y.sub.tracker.end || y.sub.tracker.end - 1 in y.silent
  {
    ReachableHolds(y);
  }

  /** However the credits of a reliable run were lost, reported, duplicated and
      reordered, when both directions are quiet nothing is outstanding. */
  lemma RestLeavesNothingOutstanding(request: Limits, config: Limits, steps: seq<Step>)
    requires request.Valid() && config.Valid()
    requires Legal(Start(request, config), steps) && Reliable(Start(request, config), steps)
    requires Quiescent(Run(Start(request, config), steps)) && Settled(Run(Start(request, config), steps))
    ensures var y := Run(Start(request, config), steps);
      y.window.credited == y.sub.tracker.end == y.window.next
  {
    QuietIsReleased(request, config, steps);
  }

  // ----- One silent loss can strand the publisher -----

  /** Everything is released and acknowledged, the publisher's window is full, and
      nothing that would open it is on its way. */
  ghost predicate Stranded(y: System) {
    && Inv(y) && Quiescent(y) && Settled(y)
    && y.window.next - y.window.credited == y.window.width > 0
  }

  lemma StrandedStep(y: System, step: Step)
    requires Stranded(y) && Enabled(y, step) && step != FalseReport
    ensures Apply(y, step) == y
  {
  }

  /** From there no step of either end changes anything, for ever: the tracker does
      not offer the acknowledgement again, and the publisher cannot send the frame
      whose release would. */
  lemma {:induction false} StrandedForever(y: System, steps: seq<Step>)
    requires Stranded(y) && Legal(y, steps) && FalseReport !in steps
    ensures Run(y, steps) == y
    decreases |steps|
  {
    if steps != [] {
      StrandedStep(y, steps[0]);
      assert FalseReport !in steps[1..];
      StrandedForever(y, steps[1..]);
    }
  }

  /** A run without a loss so far. */
  ghost predicate Going(y: System, steps: seq<Step>, now: System) {
    && Legal(y, steps) && Run(y, steps) == now && Inv(now)
    && forall i :: 0 <= i < |steps| ==> !Loses(steps[i])
  }

  predicate Loses(step: Step) {
    || step.LoseFrame? || step.LoseCredit? || step.FalseReport?
    || (step.Arrive? && !step.how.Eager?) || (step.RendezvousEnds? && !step.ok) || (step.SendCredit? && !step.ok)
  }

  lemma {:induction false} RunExtends(y: System, steps: seq<Step>, step: Step)
    requires Legal(y, steps) && Enabled(Run(y, steps), step)
    ensures Legal(y, steps + [step]) && Run(y, steps + [step]) == Apply(Run(y, steps), step)
    decreases |steps|
  {
    if steps == [] {
      assert [step][1..] == [];
      assert Legal(Apply(y, step), []) && Run(Apply(y, step), []) == Apply(y, step);
    } else {
      assert (steps + [step])[1..] == steps[1..] + [step];
      RunExtends(Apply(y, steps[0]), steps[1..], step);
    }
  }

  lemma Go(y: System, steps: seq<Step>, now: System, step: Step) returns (steps': seq<Step>)
    requires Going(y, steps, now) && Enabled(now, step) && !Loses(step)
    ensures Going(y, steps', Apply(now, step))
  {
    RunExtends(y, steps, step);
    StepKeeps(now, step);
    steps' := steps + [step];
  }

  /** `n` frames have been sent, seen and released, and no acknowledgement has. */
  ghost predicate Unacknowledged(y: System, width: nat, n: nat) {
    && Inv(y) && Quiescent(y)
    && y.window == Window(width, n, 0) && y.sub.tracker == FreshTracker(y.sub.tracker.depth, 0).(end := n)
    && y.sub.tracker.depth <= MAX32
    && y.transit == multiset{} && y.reports == 0 && y.silent == {}
  }

  /** The frame arrives and becomes visible. */
  lemma SendOne(y: System, steps: seq<Step>, now: System, width: nat, n: nat) returns (steps': seq<Step>, now': System)
    requires Going(y, steps, now) && Unacknowledged(now, width, n) && n < width <= MAX32
    ensures Going(y, steps', now')
    ensures now' == now.(window := Window(width, n + 1, 0), sub := now'.sub)
    ensures now'.sub == now.sub.(slots := now'.sub.slots, views := {n})
  {
    steps' := Go(y, steps, now, Submit);
    now' := Apply(now, Submit);
    assert n in now'.net;
    NetSlotFree(now', n);
    steps' := Go(y, steps', now', Arrive(n, Eager));
    now' := Apply(now', Arrive(n, Eager));
    assert now'.net == {};
  }

  /** Releasing the next sequence in order moves the end by one. */
  lemma ReleaseInOrder(t: Tracker)
    requires t.Valid() && t.ahead == {} && t.end + t.depth <= MAX64
    ensures t.Release(t.end).0 == t.(end := t.end + 1)
  {
    assert {t.end} - {t.end} == {};
    assert Swallow(t.end + 1, {}) == (t.end + 1, {});
    assert t.ahead + {t.end} == {t.end};
    assert Swallow(t.end, {t.end}) == (t.end + 1, {});
  }

  /** One more frame is sent, seen and released. */
  lemma SeeOne(y: System, steps: seq<Step>, now: System, width: nat, n: nat) returns (steps': seq<Step>, now': System)
    requires Going(y, steps, now) && Unacknowledged(now, width, n) && n < width <= MAX32
    ensures Going(y, steps', now') && Unacknowledged(now', width, n + 1)
  {
    steps', now' := SendOne(y, steps, now, width, n);
    steps' := Go(y, steps', now', LastCopyGone(n));
    now' := Apply(now', LastCopyGone(n));
    assert now'.sub.views == {} && now'.sub.creditReturns == [n];
    ReleaseInOrder(now'.sub.tracker);
    steps' := Go(y, steps', now', DrainCredit);
    now' := Apply(now', DrainCredit);
  }

  lemma SeeAll(request: Limits, config: Limits) returns (steps: seq<Step>, now: System)
    requires request.Valid() && config.Valid()
    ensures Going(Start(request, config), steps, now)
    ensures var width := Clamp(request, config).window; width > 0 && Unacknowledged(now, width, width)
  {
    var y, width := Start(request, config), Clamp(request, config).window;
    StartHolds(request, config);
    steps, now := [], y;
    var n := 0;
    while n < width
      invariant 0 <= n <= width && Going(y, steps, now) && Unacknowledged(now, width, n)
    {
      steps, now := SeeOne(y, steps, now, width, n);
      n := n + 1;
    }
  }

  /** Whatever the two sides agree on, losing one acknowledgement in silence, and
      nothing else, strands the publisher: the run sends a whole window, releases
      it, acknowledges it once, and loses that acknowledgement last. */
  lemma SilentLossStrands(request: Limits, config: Limits) returns (steps: seq<Step>, ack: nat)
    requires request.Valid() && config.Valid()
    ensures Legal(Start(request, config), steps + [LoseCredit(ack, false)])
    ensures forall i :: 0 <= i < |steps| ==> !Loses(steps[i])
    ensures var y := Run(Start(request, config), steps + [LoseCredit(ack, false)]); Stranded(y) && y.silent == {ack}
  {
    var y := Start(request, config);
    var now;
    steps, now := SeeAll(request, config);
    ack := now.sub.tracker.end - 1;
    steps := Go(y, steps, now, SendCredit(true));
    now := Apply(now, SendCredit(true));
    assert now.transit == multiset{ack};
    RunExtends(y, steps, LoseCredit(ack, false));
    StepKeeps(now, LoseCredit(ack, false));
  }
}
