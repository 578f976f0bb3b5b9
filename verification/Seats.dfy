/** The seat state machine: how a session is opened, armed, ended and torn down.

    Ending a session reads the state, claims the end reason by compare-exchange and
    stores Expiring, as three separate steps that interleave with the engine's own
    exchanges and teardown.  A Close holds the session mutex for all three; an Open
    picks a seat in one critical section and claims it in a second.  Opens are
    serialised.  `claims` and `ended` are history: each claimed end and each
    teardown, by seat and incarnation. */
module Seats {
  import opened Sessions

  datatype EndReason = Unclaimed | ByClose | ByExpiry | ByTransport

  datatype Seat = Seat(state: SessionState, reason: EndReason, incarnation: nat, poisoned: bool)

  datatype Ending = Ending(seat: nat, incarnation: nat, reason: EndReason)

  /** A begin_expiry call: nothing, the state read live, or the reason claimed. */
  datatype Closer = NoClose | CloseLoaded(seat: nat) | CloseClaimed(seat: nat)

  datatype Engine =
    | EngineIdle
    | EngineLoaded(seat: nat, reason: EndReason)
    | EngineClaimed(seat: nat)
    | Tearing(seat: nat)          // saw Expiring
    | Tallied(seat: nat)          // counted, Closed not stored

  datatype Opener = NoOpen | Picked(seat: nat) | Cleared(seat: nat) | Seated(seat: nat)

  datatype Table = Table(seats: seq<Seat>, closer: Closer, engine: Engine, opener: Opener,
                         sessionsOpened: nat, sessionsClosed: nat, sessionsExpired: nat,
                         claims: seq<Ending>, ended: seq<Ending>)
  {
    predicate MutexFree() {
      closer.NoClose? && !opener.Cleared?
    }

    function Set(j: nat, s: Seat): Table
      requires j < |seats|
    {
      this.(seats := seats[j := s])
    }

    /** The compare-exchange on the end reason. */
    function Claim(j: nat, reason: EndReason): Table
      requires j < |seats|
    {
      Set(j, seats[j].(reason := reason)).(claims := claims + [Ending(j, seats[j].incarnation, reason)])
    }
  }

  datatype Step =
    | Pick(j: nat) | Clear | Publish | CountOpened
    | LoadForClose(j: nat) | ClaimClose | StoreClose
    | LoadForEngine(j: nat, reason: EndReason) | ClaimEngine | StoreEngine
    | Arm(j: nat) | FirstFrame(j: nat)
    | SeeExpiring(j: nat) | Tally | Retire(poison: bool)

  predicate Enabled(t: Table, step: Step) {
    match step
    case Pick(j) =>
      t.MutexFree() && t.opener.NoOpen? && j < |t.seats| && Seatable(t.seats[j].state) && !t.seats[j].poisoned
    case Clear => t.MutexFree() && t.opener.Picked? && t.opener.seat < |t.seats|
    case Publish => t.opener.Cleared? && t.opener.seat < |t.seats|
    case CountOpened => t.opener.Seated?
    case LoadForClose(j) => t.MutexFree() && j < |t.seats| && Live(t.seats[j].state)
    case ClaimClose => t.closer.CloseLoaded? && t.closer.seat < |t.seats|
    case StoreClose => t.closer.CloseClaimed? && t.closer.seat < |t.seats|
    case LoadForEngine(j, reason) =>
      t.engine.EngineIdle? && j < |t.seats| && Live(t.seats[j].state) && (reason.ByExpiry? || reason.ByTransport?)
    case ClaimEngine => t.engine.EngineLoaded? && t.engine.seat < |t.seats|
    case StoreEngine => t.engine.EngineClaimed? && t.engine.seat < |t.seats|
    case Arm(j) => t.engine.EngineIdle? && j < |t.seats| && t.seats[j].state == Open
    case FirstFrame(j) => t.engine.EngineIdle? && j < |t.seats| && t.seats[j].state == Armed
    case SeeExpiring(j) => t.engine.EngineIdle? && j < |t.seats| && t.seats[j].state == Expiring
    case Tally => t.engine.Tearing? && t.engine.seat < |t.seats|
    case Retire(_) => t.engine.Tallied? && t.engine.seat < |t.seats|
  }

  function Apply(t: Table, step: Step): Table
    requires Enabled(t, step)
  {
    match step
    case Pick(j) => t.(opener := Picked(j))
    case Clear =>
      t.Set(t.opener.seat, t.seats[t.opener.seat].(reason := Unclaimed)).(opener := Cleared(t.opener.seat))
    case Publish =>
      var s := t.seats[t.opener.seat];
      t.Set(t.opener.seat, s.(state := Open, incarnation := s.incarnation + 1)).(opener := Seated(t.opener.seat))
    case CountOpened => t.(sessionsOpened := t.sessionsOpened + 1, opener := NoOpen)
    case LoadForClose(j) => t.(closer := CloseLoaded(j))
    case ClaimClose =>
      if t.seats[t.closer.seat].reason.Unclaimed?
      then t.Claim(t.closer.seat, ByClose).(closer := CloseClaimed(t.closer.seat))
      else t.(closer := NoClose)
    case StoreClose =>
      t.Set(t.closer.seat, t.seats[t.closer.seat].(state := Expiring)).(closer := NoClose)
    case LoadForEngine(j, reason) => t.(engine := EngineLoaded(j, reason))
    case ClaimEngine =>
      if t.seats[t.engine.seat].reason.Unclaimed?
      then t.Claim(t.engine.seat, t.engine.reason).(engine := EngineClaimed(t.engine.seat))
      else t.(engine := EngineIdle)
    case StoreEngine =>
      t.Set(t.engine.seat, t.seats[t.engine.seat].(state := Expiring)).(engine := EngineIdle)
    case Arm(j) => t.Set(j, t.seats[j].(state := Armed))
    case FirstFrame(j) => t.Set(j, t.seats[j].(state := Active))
    case SeeExpiring(j) => t.(engine := Tearing(j))
    case Tally =>
      var s := t.seats[t.engine.seat];
      var ended := t.ended + [Ending(t.engine.seat, s.incarnation, s.reason)];
      if s.reason.ByClose?
      then t.(sessionsClosed := t.sessionsClosed + 1, ended := ended, engine := Tallied(t.engine.seat))
      else t.(sessionsExpired := t.sessionsExpired + 1, ended := ended, engine := Tallied(t.engine.seat))
    case Retire(poison) =>
      var s := t.seats[t.engine.seat];
      t.Set(t.engine.seat, s.(state := Closed, poisoned := s.poisoned || poison)).(engine := EngineIdle)
  }

  function Start(seats: nat): Table {
    Table(seq(seats, i => Seat(Unknown, Unclaimed, 0, false)), NoClose, EngineIdle, NoOpen, 0, 0, 0, [], [])
  }

  ghost predicate Legal(t: Table, steps: seq<Step>)
    decreases |steps|
  {
    steps == [] || (Enabled(t, steps[0]) && Legal(Apply(t, steps[0]), steps[1..]))
  }

  ghost function Run(t: Table, steps: seq<Step>): Table
    requires Legal(t, steps)
    decreases |steps|
  {
    if steps == [] then t else Run(Apply(t, steps[0]), steps[1..])
  }

  ghost predicate Reachable(t: Table) {
    exists seats: nat, steps :: Legal(Start(seats), steps) && Run(Start(seats), steps) == t
  }

  // ----- The invariant -----

  /** Some thread has claimed the end of seat `j` and not yet stored Expiring. */
  predicate StorePending(t: Table, j: nat) {
    t.closer == CloseClaimed(j) || t.engine == EngineClaimed(j)
  }

  ghost predicate SeatOk(t: Table, j: nat)
    requires j < |t.seats|
  {
    var s := t.seats[j];
    && (s.state == Unknown ==> s.reason.Unclaimed? && s.incarnation == 0)
    && (Live(s.state) ==> (StorePending(t, j) <==> !s.reason.Unclaimed?))
    && (!Live(s.state) ==> !StorePending(t, j))
    && !(t.closer == CloseClaimed(j) && t.engine == EngineClaimed(j))
    && (s.state == Expiring ==> !s.reason.Unclaimed?)
    && (s.state == Closed && s.reason.Unclaimed? ==> t.opener == Cleared(j))
    && (!s.reason.Unclaimed? ==> Ending(j, s.incarnation, s.reason) in t.claims)
  }

  ghost predicate SeatsOk(t: Table) {
    forall j :: 0 <= j < |t.seats| ==> SeatOk(t, j)
  }

  ghost predicate ThreadsOk(t: Table) {
    && (!t.closer.NoClose? ==> t.closer.seat < |t.seats| && t.seats[t.closer.seat].state != Unknown)
    && (t.engine.EngineLoaded? ==> t.engine.seat < |t.seats| && !Seatable(t.seats[t.engine.seat].state))
    && (t.engine.EngineLoaded? ==> !t.engine.reason.Unclaimed? && !t.engine.reason.ByClose?)
    && (t.engine.EngineClaimed? ==> t.engine.seat < |t.seats| && Live(t.seats[t.engine.seat].state))
    && (t.closer.CloseClaimed? ==> Live(t.seats[t.closer.seat].state))
    && (t.engine.Tearing? || t.engine.Tallied? ==>
          t.engine.seat < |t.seats| && t.seats[t.engine.seat].state == Expiring)
    && (t.opener.Picked? || t.opener.Cleared? ==>
          t.opener.seat < |t.seats| && Seatable(t.seats[t.opener.seat].state))
    && !(t.opener.Cleared? && !t.closer.NoClose?)
    && (t.opener.Cleared? ==> t.seats[t.opener.seat].reason.Unclaimed?)
  }

  /** A recorded claim is of a past incarnation, or is the current one's reason. */
  ghost predicate ClaimOk(t: Table, c: Ending) {
    && c.seat < |t.seats| && !c.reason.Unclaimed?
    && var s := t.seats[c.seat];
       && c.incarnation <= s.incarnation
       && (c.incarnation == s.incarnation ==>
             s.state != Unknown && (s.reason == c.reason || t.opener == Cleared(c.seat)))
  }

  /** A recorded teardown is of a past incarnation, or of one just finished. */
  ghost predicate EndedOk(t: Table, c: Ending) {
    && c in t.claims && c.seat < |t.seats|
    && var s := t.seats[c.seat];
       && c.incarnation <= s.incarnation
       && (c.incarnation == s.incarnation ==> s.state == Closed || t.engine == Tallied(c.seat))
  }

  ghost predicate Torn(log: seq<Ending>, j: nat, incarnation: nat) {
    exists c :: c in log && c.seat == j && c.incarnation == incarnation
  }

  /** A finished seat's current incarnation is in the teardown log. */
  ghost predicate FinishedAreTorn(t: Table) {
    forall j :: 0 <= j < |t.seats| && (t.seats[j].state == Closed || t.engine == Tallied(j)) ==>
      Torn(t.ended, j, t.seats[j].incarnation)
  }

  ghost predicate LogsOk(t: Table) {
    && (forall c :: c in t.claims ==> ClaimOk(t, c))
    && (forall c :: c in t.ended ==> EndedOk(t, c))
  }

  /** No two entries are about the same incarnation of the same seat. */
  ghost predicate OncePerIncarnation(log: seq<Ending>) {
    forall i, k :: 0 <= i < k < |log| ==>
      log[i].seat != log[k].seat || log[i].incarnation != log[k].incarnation
  }

  function EndedBy(log: seq<Ending>, close: bool): nat {
    if log == [] then 0
    else (if log[|log| - 1].reason.ByClose? == close then 1 else 0) + EndedBy(log[..|log| - 1], close)
  }

  /** Whether seat `j` counts as opened and not yet counted as ended. */
  function Up(seat: Seat, engine: Engine, j: nat): nat {
    if !Seatable(seat.state) && engine != Tallied(j) then 1 else 0
  }

  function StillUp(seats: seq<Seat>, engine: Engine): nat {
    if seats == [] then 0
    else Up(seats[|seats| - 1], engine, |seats| - 1) + StillUp(seats[..|seats| - 1], engine)
  }

  ghost predicate Accounted(t: Table) {
    && t.sessionsClosed == EndedBy(t.ended, true) && t.sessionsExpired == EndedBy(t.ended, false)
    && t.sessionsOpened + (if t.opener.Seated? then 1 else 0) == StillUp(t.seats, t.engine) + t.sessionsClosed + t.sessionsExpired
  }

  ghost predicate Inv(t: Table) {
    && SeatsOk(t) && ThreadsOk(t) && LogsOk(t)
    && FinishedAreTorn(t) && OncePerIncarnation(t.claims) && OncePerIncarnation(t.ended)
    && Accounted(t)
  }

  // ----- Every step keeps the invariant -----

  lemma {:induction false} StillUpChange(a: seq<Seat>, before: Engine, b: seq<Seat>, after: Engine, j: nat)
    requires |a| == |b|
    requires forall k :: 0 <= k < |a| && k != j ==> Up(a[k], before, k) == Up(b[k], after, k)
    ensures StillUp(b, after) + (if j < |a| then Up(a[j], before, j) else 0)
         == StillUp(a, before) + (if j < |a| then Up(b[j], after, j) else 0)
  {
    if a != [] {
      var n := |a| - 1;
      forall k | 0 <= k < n && k != j
        ensures Up(a[..n][k], before, k) == Up(b[..n][k], after, k)
      {
        assert a[..n][k] == a[k] && b[..n][k] == b[k];
      }
      StillUpChange(a[..n], before, b[..n], after, j);
    }
  }

  predicate IsOpening(step: Step) {
    step.Pick? || step.Clear? || step.Publish? || step.CountOpened?
  }

  predicate IsClosing(step: Step) {
    step.LoadForClose? || step.ClaimClose? || step.StoreClose?
  }

  lemma OpeningKeepsSeats(t: Table, step: Step)
    requires Inv(t) && Enabled(t, step) && IsOpening(step)
    ensures SeatsOk(Apply(t, step))
  {
    var t' := Apply(t, step);
    forall j | 0 <= j < |t'.seats|
      ensures SeatOk(t', j)
    {
      assert SeatOk(t, j);
    }
  }

  lemma ClosingKeepsSeats(t: Table, step: Step)
    requires Inv(t) && Enabled(t, step) && IsClosing(step)
    ensures SeatsOk(Apply(t, step))
  {
    var t' := Apply(t, step);
    forall j | 0 <= j < |t'.seats|
      ensures SeatOk(t', j)
    {
      assert SeatOk(t, j);
    }
  }

  lemma EngineKeepsSeats(t: Table, step: Step)
    requires Inv(t) && Enabled(t, step) && !IsOpening(step) && !IsClosing(step)
    ensures SeatsOk(Apply(t, step))
  {
    var t' := Apply(t, step);
    forall j | 0 <= j < |t'.seats|
      ensures SeatOk(t', j)
    {
      assert SeatOk(t, j);
    }
  }

  lemma OpeningKeepsThreads(t: Table, step: Step)
    requires Inv(t) && Enabled(t, step) && IsOpening(step)
    ensures ThreadsOk(Apply(t, step))
  {
    if !t.closer.NoClose? {
      assert SeatOk(t, t.closer.seat);
    }
    if !t.engine.EngineIdle? {
      assert SeatOk(t, t.engine.seat);
    }
  }

  lemma ClosingKeepsThreads(t: Table, step: Step)
    requires Inv(t) && Enabled(t, step) && IsClosing(step)
    ensures ThreadsOk(Apply(t, step))
  {
    if !t.closer.NoClose? {
      assert SeatOk(t, t.closer.seat);
    }
    if !t.engine.EngineIdle? {
      assert SeatOk(t, t.engine.seat);
    }
  }

  lemma EngineKeepsThreads(t: Table, step: Step)
    requires Inv(t) && Enabled(t, step) && !IsOpening(step) && !IsClosing(step)
    ensures ThreadsOk(Apply(t, step))
  {
    if !t.closer.NoClose? {
      assert SeatOk(t, t.closer.seat);
    }
    if !t.engine.EngineIdle? {
      assert SeatOk(t, t.engine.seat);
    }
  }

  lemma ClaimsKept(t: Table, step: Step)
    requires Inv(t) && Enabled(t, step)
    ensures forall c :: c in Apply(t, step).claims ==> ClaimOk(Apply(t, step), c)
  {
    var t' := Apply(t, step);
    forall c | c in t'.claims
      ensures ClaimOk(t', c)
    {
      assert c in t.claims ==> ClaimOk(t, c);
      assert c.seat < |t.seats| ==> SeatOk(t, c.seat);
    }
  }

  lemma EndedKept(t: Table, step: Step)
    requires Inv(t) && Enabled(t, step)
    ensures forall c :: c in Apply(t, step).ended ==> EndedOk(Apply(t, step), c)
  {
    var t' := Apply(t, step);
    if t.engine.Tearing? {
      assert SeatOk(t, t.engine.seat);
    }
    forall c | c in t'.ended
      ensures EndedOk(t', c)
    {
      assert c in t.ended ==> EndedOk(t, c);
    }
  }

  lemma FinishedStayTorn(t: Table, step: Step)
    requires Inv(t) && Enabled(t, step)
    ensures FinishedAreTorn(Apply(t, step))
  {
    var t' := Apply(t, step);
    forall j | 0 <= j < |t.seats| && (t'.seats[j].state == Closed || t'.engine == Tallied(j))
      ensures Torn(t'.ended, j, t'.seats[j].incarnation)
    {
      if step.Tally? && t.engine.seat == j {
        var e := Ending(j, t.seats[j].incarnation, t.seats[j].reason);
        assert (t.ended + [e])[|t.ended|] == e;
      } else {
        assert Torn(t.ended, j, t.seats[j].incarnation);
        var c :| c in t.ended && c.seat == j && c.incarnation == t.seats[j].incarnation;
        assert c in t'.ended;
      }
    }
  }

  /** A successful claim is the first of its incarnation. */
  lemma ClaimIsFirst(t: Table, j: nat, c: Ending)
    requires Inv(t) && j < |t.seats| && t.seats[j].reason.Unclaimed? && t.seats[j].state != Unknown
    requires t.opener != Cleared(j) && c in t.claims
    ensures c.seat != j || c.incarnation != t.seats[j].incarnation
  {
    assert ClaimOk(t, c);
  }

  lemma ClaimsStayUnique(t: Table, step: Step)
    requires Inv(t) && Enabled(t, step)
    ensures OncePerIncarnation(Apply(t, step).claims)
  {
    forall c, j | c in t.claims && 0 <= j < |t.seats| && t.seats[j].reason.Unclaimed?
               && t.seats[j].state != Unknown && t.opener != Cleared(j)
      ensures c.seat != j || c.incarnation != t.seats[j].incarnation
    {
      ClaimIsFirst(t, j, c);
    }
    if step.ClaimClose? {
      assert SeatOk(t, t.closer.seat);
    }
    if step.ClaimEngine? {
      assert SeatOk(t, t.engine.seat);
    }
  }

  lemma EndedStaysUnique(t: Table, step: Step)
    requires Inv(t) && Enabled(t, step)
    ensures OncePerIncarnation(Apply(t, step).ended)
  {
    forall c | c in t.ended && t.engine.Tearing?
      ensures c.seat != t.engine.seat || c.incarnation != t.seats[t.engine.seat].incarnation
    {
      assert EndedOk(t, c);
    }
  }

  lemma AccountsKept(t: Table, step: Step)
    requires Inv(t) && Enabled(t, step)
    ensures Accounted(Apply(t, step))
  {
    if step.Tally? {
      TallyAccounts(t);
    } else {
      var t' := Apply(t, step);
      var j := if step.Publish? then t.opener.seat else if step.Retire? then t.engine.seat else |t.seats|;
      SameElsewhere(t, step, j);
      StillUpChange(t.seats, t.engine, t'.seats, t'.engine, j);
    }
  }

  lemma TallyAccounts(t: Table)
    requires Inv(t) && Enabled(t, Tally)
    ensures Accounted(Apply(t, Tally))
  {
    var j := t.engine.seat;
    SameElsewhere(t, Tally, j);
    StillUpChange(t.seats, t.engine, t.seats, Tallied(j), j);
    var e := Ending(j, t.seats[j].incarnation, t.seats[j].reason);
    assert (t.ended + [e])[..|t.ended|] == t.ended;
  }

  lemma SameElsewhere(t: Table, step: Step, j: nat)
    requires Inv(t) && Enabled(t, step)
    requires step.Publish? ==> j == t.opener.seat
    requires step.Tally? || step.Retire? ==> j == t.engine.seat
    ensures forall k :: 0 <= k < |t.seats| && k != j ==>
      Up(t.seats[k], t.engine, k) == Up(Apply(t, step).seats[k], Apply(t, step).engine, k)
  {
    if step.StoreClose? {
      assert SeatOk(t, t.closer.seat);
    }
  }

  lemma StepKeeps(t: Table, step: Step)
    requires Inv(t) && Enabled(t, step)
    ensures Inv(Apply(t, step))
  {
    if IsOpening(step) {
      OpeningKeepsSeats(t, step);
      OpeningKeepsThreads(t, step);
    } else if IsClosing(step) {
      ClosingKeepsSeats(t, step);
      ClosingKeepsThreads(t, step);
    } else {
      EngineKeepsSeats(t, step);
      EngineKeepsThreads(t, step);
    }
    ClaimsKept(t, step);
    EndedKept(t, step);
    FinishedStayTorn(t, step);
    ClaimsStayUnique(t, step);
    EndedStaysUnique(t, step);
    AccountsKept(t, step);
  }

  lemma {:induction false} RunKeeps(t: Table, steps: seq<Step>)
    requires Inv(t) && Legal(t, steps)
    ensures Inv(Run(t, steps))
    decreases |steps|
  {
    if steps != [] {
      StepKeeps(t, steps[0]);
      RunKeeps(Apply(t, steps[0]), steps[1..]);
    }
  }

  lemma {:induction false} NothingUp(seats: seq<Seat>)
    requires forall s :: s in seats ==> s.state == Unknown
    ensures StillUp(seats, EngineIdle) == 0
  {
    if seats != [] {
      NothingUp(seats[..|seats| - 1]);
    }
  }

  lemma ReachableHolds(t: Table)
    requires Reachable(t)
    ensures Inv(t)
  {
    var seats: nat, steps :| Legal(Start(seats), steps) && Run(Start(seats), steps) == t;
    NothingUp(Start(seats).seats);
    RunKeeps(Start(seats), steps);
  }

  // ----- Main results -----

  /** How far a seat's current incarnation has got. */
  function Stage(s: SessionState): nat {
    match s
    case Unknown => 0
    case Open => 1
    case Armed => 2
    case Active => 3
    case Expiring => 4
    case Closed => 5
  }

  /** A later incarnation, or the same one at the same or a later stage. */
  predicate NoEarlier(a: Seat, b: Seat) {
    a.incarnation < b.incarnation || (a.incarnation == b.incarnation && Stage(a.state) <= Stage(b.state))
  }

  lemma StepNeverRevives(t: Table, step: Step, j: nat)
    requires Inv(t) && Enabled(t, step) && j < |t.seats|
    ensures |Apply(t, step).seats| == |t.seats|
    ensures NoEarlier(t.seats[j], Apply(t, step).seats[j])
  {
    assert SeatOk(t, j);
  }

  /** No run takes a seat back to an earlier stage of the same incarnation. */
  lemma {:induction false} NeverRevived(t: Table, steps: seq<Step>, j: nat)
    requires Inv(t) && Legal(t, steps) && j < |t.seats|
    ensures |Run(t, steps).seats| == |t.seats|
    ensures NoEarlier(t.seats[j], Run(t, steps).seats[j])
    decreases |steps|
  {
    if steps != [] {
      StepNeverRevives(t, steps[0], j);
      StepKeeps(t, steps[0]);
      NeverRevived(Apply(t, steps[0]), steps[1..], j);
    }
  }

  /** Once Expiring, an incarnation is never live again, whatever happens next. */
  lemma NoResurrection(t: Table, steps: seq<Step>, j: nat)
    requires Reachable(t) && Legal(t, steps) && j < |t.seats| && t.seats[j].state == Expiring
    ensures |Run(t, steps).seats| == |t.seats|
    ensures var s := Run(t, steps).seats[j];
      s.incarnation > t.seats[j].incarnation || (s.incarnation == t.seats[j].incarnation && !Live(s.state))
  {
    ReachableHolds(t);
    NeverRevived(t, steps, j);
  }

  /** Each incarnation's end is claimed by one caller only and torn down once, for
      the reason that caller gave. */
  lemma OneEndPerIncarnation(t: Table, i: nat, k: nat)
    requires Reachable(t)
    ensures i < k < |t.claims| ==>
      t.claims[i].seat != t.claims[k].seat || t.claims[i].incarnation != t.claims[k].incarnation
    ensures i < k < |t.ended| ==>
      t.ended[i].seat != t.ended[k].seat || t.ended[i].incarnation != t.ended[k].incarnation
    ensures k < |t.ended| ==> t.ended[k] in t.claims
  {
    ReachableHolds(t);
    assert k < |t.ended| ==> EndedOk(t, t.ended[k]);
  }

  /** A seat is only Closed after its current incarnation was torn down. */
  lemma ClosedOnlyByTeardown(t: Table, j: nat)
    requires Reachable(t) && j < |t.seats| && t.seats[j].state == Closed
    ensures Torn(t.ended, j, t.seats[j].incarnation)
  {
    ReachableHolds(t);
  }

  /** Every session opened is still up, or was counted once as closed or expired;
      the counters split by who claimed the end. */
  lemma SessionsAccounted(t: Table)
    requires Reachable(t)
    ensures t.sessionsOpened + (if t.opener.Seated? then 1 else 0)
         == StillUp(t.seats, t.engine) + t.sessionsClosed + t.sessionsExpired
    ensures t.sessionsClosed == EndedBy(t.ended, true) && t.sessionsExpired == EndedBy(t.ended, false)
  {
    ReachableHolds(t);
  }
}
