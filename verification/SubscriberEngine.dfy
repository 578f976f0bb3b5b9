/** The subscriber's receive engine as the engine thread runs it: slot flags,
    rendezvous bookkeeping, the release tracker and the drain loop.  Each callback
    is proved to take the corresponding step of the credit protocol. */
module SubscriberEngine {
  import opened Base
  import opened Credit
  import opened CreditProtocol

  /** Drain the return queue until it is empty. */
  ghost function DrainAll(u: Subscriber): (r: Subscriber)
    requires u.Shaped()
    ensures r.Shaped() && r.creditReturns == []
    decreases |u.creditReturns|
  {
    if u.creditReturns == [] then u
    else
      ReleaseKeepsValid(u.tracker, u.creditReturns[0]);
      DrainAll(u.DrainOne())
  }

  /** Draining the queue is that many credit-draining steps of the protocol. */
  lemma {:induction false} DrainIsRun(y: System)
    requires y.sub.Shaped()
    ensures var steps := seq(|y.sub.creditReturns|, i => DrainCredit);
      Legal(y, steps) && Run(y, steps) == y.(sub := DrainAll(y.sub))
    decreases |y.sub.creditReturns|
  {
    if y.sub.creditReturns != [] {
      ReleaseKeepsValid(y.sub.tracker, y.sub.creditReturns[0]);
      var y' := Apply(y, DrainCredit);
      DrainIsRun(y');
      assert seq(|y.sub.creditReturns|, i => DrainCredit)[1..] == seq(|y'.sub.creditReturns|, i => DrainCredit);
    }
  }

  class Engine {
    const granted: u32
    const slots: array<Slot>
    const tracker: ReleaseTracker
    var receiving: set<nat>
    var creditReturns: seq<u64>
    var failed: bool

    /** The sequences some application view still holds.  The leases own them;
        the engine only ever adds to this set. */
    ghost var views: set<nat>

    ghost function State(): Subscriber
      reads this, slots, tracker, tracker.words
      requires tracker.ringDepth > 0 && tracker.words.Length == WordCount(tracker.ringDepth)
    {
      Subscriber(granted, slots[..], receiving, views, creditReturns, tracker.State(), failed)
    }

    ghost predicate Valid()
      reads this, slots, tracker, tracker.words
    {
      tracker.Valid() && State().Shaped()
    }

    /** The ring is registered at the requested depth before the session opens;
        the grant can only be smaller. */
    constructor (requested: u32, granted: u32)
      requires 0 < granted <= requested
      ensures Valid() && fresh(slots) && fresh(tracker) && fresh(tracker.words)
      ensures State() == Subscriber(granted, seq(requested, i => Slot(false, 0)), {}, {}, [],
                                    FreshTracker(requested, 0), false)
    {
      this.granted := granted;
      slots := new Slot[requested](i => Slot(false, 0));
      tracker := new ReleaseTracker(requested);
      receiving, creditReturns, failed, views := {}, [], false, {};
      new;
      tracker.ValidState();
    }

    method Commit(i: nat)
      requires Valid() && i < slots.Length
      modifies this`views
      ensures Valid() && State() == old(State()).Commit(i)
    {
      views := views + {slots[i].sequence};
    }

    /** A dropped frame's sequence is released here, because nothing else will. */
    method ReleaseDropped(sequence: u64, fail: bool)
      requires Valid()
      modifies this`failed, tracker, tracker.words
      ensures Valid()
      ensures State() == if fail then old(State()).ReleaseOf(sequence).Fail() else old(State()).ReleaseOf(sequence)
    {
      var _ := tracker.Release(sequence);
      tracker.ValidState();
      failed := failed || fail;
    }

    method Vacate(i: nat)
      requires Valid() && i < slots.Length
      modifies slots
      ensures Valid() && State() == old(State()).Vacate(i)
    {
      slots[i] := slots[i].(occupied := false);
    }

    /** The frame callback, branch by branch. */
    method HandleFrame(sequence: u64, how: Arrival)
      requires Valid()
      modifies this, slots, tracker, tracker.words
      ensures Valid() && State() == old(State()).HandleFrame(sequence, how)
    {
      if how.Ignored? {
        return;
      }
      if how.GeometryChanged? || how.BadLength? || how.Oversize? {
        ReleaseDropped(sequence, how.GeometryChanged?);
        return;
      }
      var i := sequence % granted;
      if slots[i].occupied || sequence < tracker.releasedEnd {
        return;
      }
      slots[i] := Slot(true, sequence);
      assert State() == old(State()).Occupy(sequence);
      if how.RendezvousPending? {
        receiving := receiving + {i};
      } else if how.RendezvousRefused? {
        Vacate(i);
        failed := true;
      } else if how.EagerIntoDevice? {
        Vacate(i);
        ReleaseDropped(sequence, true);
      } else {
        Commit(i);
      }
    }

    method OnRendezvousComplete(i: nat, ok: bool)
      requires Valid() && i in receiving
      modifies this, slots
      ensures Valid() && State() == old(State()).RendezvousDone(i, ok)
    {
      receiving := receiving - {i};
      if ok {
        Commit(i);
      } else {
        Vacate(i);
        failed := true;
      }
    }

    /** A lease destructor ran somewhere: only the return queue is touched. */
    method ReturnCredit(sequence: u64)
      requires Valid() && sequence in views
      modifies this`views, this`creditReturns
      ensures Valid() && State() == old(State()).DropView(sequence)
    {
      creditReturns := creditReturns + [sequence];
      views := views - {sequence};
    }

    /** Free the slot of every returned credit and release its sequence. */
    method DrainCreditReturns() returns (worked: bool)
      requires Valid()
      modifies this`creditReturns, slots, tracker, tracker.words
      ensures Valid() && State() == DrainAll(old(State()))
      ensures worked <==> old(creditReturns) != []
    {
      worked := false;
      while creditReturns != []
        invariant Valid()
        invariant DrainAll(State()) == DrainAll(old(State()))
        invariant worked || creditReturns == old(creditReturns)
        invariant worked ==> old(creditReturns) != []
        decreases |creditReturns|
      {
        ghost var before := State();
        var sequence := creditReturns[0];
        creditReturns := creditReturns[1..];
        var i := sequence % granted;
        Vacate(i);
        var _ := tracker.Release(sequence);
        tracker.ValidState();
        assert State() == before.DrainOne();
        worked := true;
      }
    }

    /** Send the newest acknowledgement if there is one to send; a refused send
        hands it back to the tracker. */
    method SendPendingCredit(accepted: bool) returns (ack: Option<nat>)
      requires Valid()
      modifies tracker
      ensures Valid()
      ensures var (t, pending) := old(State()).tracker.TakePendingAck();
        && ack == (if accepted then pending else None)
        && State() == old(State()).(tracker := if pending.None? || accepted then t else t.MarkAckFailed())
    {
      var pending := tracker.TakePendingAck();
      tracker.ValidState();
      ack := if accepted then pending else None;
      if pending.Some? && !accepted {
        tracker.MarkAckFailed();
        tracker.ValidState();
      }
    }

    method OnCreditSent(ok: bool)
      requires Valid()
      modifies tracker
      ensures Valid()
      ensures State() == if ok then old(State()) else old(State()).(tracker := old(State()).tracker.MarkAckFailed())
    {
      if !ok {
        tracker.MarkAckFailed();
        tracker.ValidState();
      }
    }
  }
}
