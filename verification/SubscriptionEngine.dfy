/** The subscription as its control thread runs it.  Each method changes the fields
    in place and is proved to leave the state its specification function gives. */
module SubscriptionEngine {
  import opened Base
  import opened Geometry
  import opened Codec
  import opened ReceivePlans
  import opened Subscriptions

  class Subscription {
    const config: Config
    var session: Session
    var transport: bool
    var retired: Option<GeometryBlock>
    var lastTtl: u32
    var phase: Phase
    var correlation: nat
    ghost var log: seq<Event>

    ghost function State(): Sub
      reads this
    {
      Sub(config, session, transport, retired, lastTtl, phase, correlation, log)
    }

    constructor (config: Config)
      ensures State() == Start(config, true, 0).sub
    {
      this.config := config;
      session, transport, retired, lastTtl := NO_SESSION, false, None, 0;
      phase, correlation, log := Opening, 0, [];
    }

    method SendCloseFor(id: Id)
      modifies this`correlation, this`log
      ensures State() == SendClose(old(State()), id)
    {
      correlation := correlation + 1;
      log := log + [CloseSent(correlation, id)];
    }

    method PublishNothing()
      modifies this
      ensures State() == Unpublish(old(State()))
    {
      if transport {
        lastTtl := Max(lastTtl, session.leaseTtl);
        if session.granted.generation != 0 {
          retired := Some(session.granted);
        }
        session := NO_SESSION;
      }
      transport := false;
    }

    /** Close the published session, and drop the frames it delivered if asked to. */
    method Close(discard: bool)
      modifies this
      ensures State() == CloseSession(old(State()), discard)
    {
      var retiredOne := transport;
      if transport {
        SendCloseFor(session.id);
      }
      PublishNothing();
      if retiredOne && discard {
        log := log + [Discarded];
      }
    }

    /** Bring an adopted session up, or close it again. */
    method EstablishCandidate(candidate: Session, a: Attempt) returns (r: Result)
      requires !transport && session == NO_SESSION
      modifies this
      ensures (State(), r) == Establish(old(State()), candidate, a)
    {
      if retired.Some? && !retired.value.DescribesSameArray(candidate.granted) {
        log := log + [Mismatched(candidate.granted)];
        SendCloseFor(candidate.id);
        return Failure(MISMATCH);
      }
      var status := a.activate;
      if candidate.address == [] || |candidate.address| > MAX_ADDRESS {
        status := TRANSPORT_FAILURE;
      }
      if status != OK {
        SendCloseFor(candidate.id);
        return Failure(status);
      }
      session := candidate;
      transport := true;
      phase := Probing;
      log := log + [Published(candidate.granted)];
      if a.probe.None? {
        phase := Active;
        return Success;
      }
      Close(true);
      r := Failure(a.probe.value);
    }

    method OpenAttempt(a: Attempt) returns (r: Result)
      requires !transport && session == NO_SESSION
      modifies this
      ensures (State(), r) == OpenSubscription(old(State()), a)
    {
      if a.factory.Some? {
        return Failure(a.factory.value);
      }
      correlation := correlation + 1;
      log := log + [OpenSent(correlation)];
      if a.reply.None? {
        return Failure(a.channel);
      }
      var adoption := AdoptOpen(config, a.reply.value, correlation);
      if adoption.Declined? {
        return Failure(adoption.status);
      }
      log := log + [Adopted(correlation, a.reply.value, adoption.session)];
      r := EstablishCandidate(adoption.session, a);
    }

    /** The subscription has failed: end delivery, and close on the way out. */
    method FailWith(ghost l: Life)
      requires l.sub == State()
      modifies this
      ensures State() == Fail(l).sub
    {
      phase := Failed;
      log := log + [DeliveryFailed];
      Close(true);
    }

    /** One reconnect attempt, as a step of the life cycle. */
    method Retry(a: Attempt, ghost now: Life) returns (r: Result)
      requires now.sub == State() && Resting(now) && now.mode.attempt < now.maxAttempts
      modifies this
      ensures Enabled(now, TryOpen(a)) && State() == Apply(now, TryOpen(a)).sub
      ensures r == OpenSubscription(BeforeOpen(now), a).1
    {
      RetryLeaves(now, a);
      log := log + [Discarded];
      phase := Opening;
      r := OpenAttempt(a);
      if r.Failure? {
        if r.status == MISMATCH {
          FailWith(now.(sub := State()));
        } else {
          phase := Reconnecting;
        }
      }
    }

    /** Reopen, up to the configured number of attempts; the attempts run out early
        when the subscription is stopped.  `steps` is the life-cycle run this takes. */
    method Reconnect(attempts: seq<Attempt>, maxAttempts: nat, ghost error: u16)
      returns (reopened: bool, ghost steps: seq<Step>)
      requires AtRest(State()) && session == NO_SESSION && phase == Reconnecting
      modifies this
      ensures if reopened then Up(State()) else AtRest(State()) && session == NO_SESSION
      ensures !reopened && |attempts| >= maxAttempts ==> phase == Failed
      ensures NoMismatch(old(log)) ==> NoMismatch(log) || phase == Failed
      ensures Opens(log) <= Opens(old(log)) + maxAttempts
      ensures Follows(Life(old(State()), Retrying(0, error), true, maxAttempts), steps, State())
      ensures var l := Life(old(State()), Retrying(0, error), true, maxAttempts);
        (reopened <==> Run(l, steps).mode.Running?) && (phase == Failed <==> Run(l, steps).mode.Ended?)
    {
      ghost var l := Life(State(), Retrying(0, error), true, maxAttempts);
      ghost var now := l;
      steps := [];
      var attempt := 0;
      while attempt < |attempts|
        invariant 0 <= attempt <= |attempts| && attempt <= maxAttempts
        invariant AtRest(State()) && session == NO_SESSION && phase == Reconnecting
        invariant NoMismatch(old(log)) ==> NoMismatch(log)
        invariant Follows(l, steps, State()) && Run(l, steps) == now
        invariant now.mode.Retrying? && now.mode.attempt == attempt && now.maxAttempts == maxAttempts
        invariant Opens(log) <= Opens(old(log)) + attempt
      {
        if attempt >= maxAttempts {
          break;
        }
        var r := Retry(attempts[attempt], now);
        RetryOutcome(now, attempts[attempt]);
        RunExtends(l, steps, TryOpen(attempts[attempt]));
        steps := steps + [TryOpen(attempts[attempt])];
        now := Apply(now, TryOpen(attempts[attempt]));
        if r.Success? {
          return true, steps;
        }
        if r.status == MISMATCH {
          return false, steps;
        }
        attempt := attempt + 1;
      }
      if attempt >= maxAttempts {
        NoteKeeps(State(), DeliveryFailed);
        OpensNote(log, DeliveryFailed);
        FailWith(now);
        RunExtends(l, steps, GiveUp);
        steps := steps + [GiveUp];
      }
      reopened := false;
    }
  }

  /** The life-cycle run `steps` from `l` ends in the given state. */
  ghost predicate Follows(l: Life, steps: seq<Step>, s: Sub) {
    Legal(l, steps) && Run(l, steps).sub == s
  }

  /** Between reconnect attempts. */
  ghost predicate Resting(l: Life) {
    l.mode.Retrying? && AtRest(l.sub) && l.sub.session == NO_SESSION && l.sub.phase == Reconnecting
  }

  /** What an attempt leaves, by its result. */
  lemma RetryLeaves(now: Life, a: Attempt)
    requires Resting(now) && now.mode.attempt < now.maxAttempts
    ensures var (s, r) := OpenSubscription(BeforeOpen(now), a);
      && (r.Failure? ==> !s.transport && s.session == NO_SESSION)
      && Apply(now, TryOpen(a)).sub
         == if r.Success? then s else if r.status == MISMATCH then Fail(now.(sub := s)).sub else s.(phase := Reconnecting)
  {
    NoteKeeps(now.sub, Discarded);
    OpenWithKeeps(BeforeOpen(now), a, Adopting(BeforeOpen(now), a));
    RestingSession(BeforeOpen(now), a, Adopting(BeforeOpen(now), a));
  }

  /** An attempt sends at most one Open, and a changed array is the only failure
      that ends the life. */
  lemma RetryOutcome(now: Life, a: Attempt)
    requires Resting(now) && now.mode.attempt < now.maxAttempts
    ensures var r, l' := OpenSubscription(BeforeOpen(now), a).1, Apply(now, TryOpen(a));
      && l'.maxAttempts == now.maxAttempts
      && Opens(l'.sub.log) <= Opens(now.sub.log) + 1
      && (NoMismatch(now.sub.log) ==> NoMismatch(l'.sub.log) || r == Failure(MISMATCH))
      && (if r.Success? then l'.mode == Running && Up(l'.sub) && l'.sub.phase == Active
          else if r.status == MISMATCH
          then l'.mode == Ended && AtRest(l'.sub) && l'.sub.phase == Failed && l'.sub.session == NO_SESSION
          else l'.mode == Retrying(now.mode.attempt + 1, r.status) && Resting(l'))
  {
    var before := BeforeOpen(now);
    RetryLeaves(now, a);
    TryOpenKeeps(now, a);
    RetryOpens(now, a);
    if NoMismatch(now.sub.log) {
      OpenWithMismatch(before, a, Adopting(before, a));
    }
    SuccessIsActive(before, a, Adopting(before, a));
  }

  lemma RetryOpens(now: Life, a: Attempt)
    requires Resting(now) && now.mode.attempt < now.maxAttempts
    ensures Opens(Apply(now, TryOpen(a)).sub.log) <= Opens(now.sub.log) + 1
  {
    var before := BeforeOpen(now);
    var s := OpenSubscription(before, a).0;
    RetryLeaves(now, a);
    OpensNote(now.sub.log, Discarded);
    OneOpenPerAttempt(before, a);
    OpensNote(s.log, DeliveryFailed);
  }

  lemma SuccessIsActive(s: Sub, a: Attempt, adoption: Adoption)
    ensures var (s', r) := OpenWith(s, a, adoption); r.Success? ==> s'.phase == Active
  {
  }

  /** A failed attempt leaves no session in the fields. */
  lemma RestingSession(s: Sub, a: Attempt, adoption: Adoption)
    requires s.session == NO_SESSION
    ensures var (s', r) := OpenWith(s, a, adoption); r.Failure? ==> s'.session == NO_SESSION
  {
  }
}
