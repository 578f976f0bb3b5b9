/** Exactly when arming is lossless.  Under AllActive a session that has just
    armed is never skipped, in any continuation, if and only if its start was
    within its window when the new admission limit was stored, or its window spans
    the whole ring.  One direction is two invariants; the other builds the run that
    loses a frame.  Seen from before the arm, on an empty queue, what decides is
    whether a publish call can get a frame in between the arm's accesses. */
module LosslessArming {
  import opened Base
  import opened Credit
  import opened Sessions
  import opened FanOut
  import opened SlotConservation
  import opened AllActive
  import opened RingWidth

  /** The fan-out is about to skip seat `j`: its session is eligible, and closed. */
  ghost predicate Skips(p: Publisher, j: nat) {
    && p.fanning.Visiting? && p.fanning.next == j < |p.sessions|
    && p.sessions[j].Eligible() && p.sessions[j].Sound() && !p.sessions[j].window.CanSubmit()
  }

  /** The same session throughout: seat `j` is not armed again. */
  ghost predicate NeverArms(steps: seq<Step>, j: nat) {
    Arm(j) !in steps
  }

  /** No continuation skips seat `j` before it is armed again. */
  ghost predicate Lossless(p: Publisher, j: nat) {
    forall steps :: Legal(p, steps) && NeverArms(steps, j) ==> !Skips(Run(p, steps), j)
  }

  // ----- A start within the window is enough -----

  /** Without arming again, the session at seat `j` keeps its start and its width
      for as long as it is eligible. */
  ghost predicate SameSession(p: Publisher, p': Publisher, j: nat)
    requires j < |p.sessions|
  {
    && |p'.sessions| == |p.sessions| && p'.config == p.config
    && p'.sessions[j].clean == p.sessions[j].clean
    && (p'.sessions[j].Eligible() ==>
          p.sessions[j].Eligible() && p'.sessions[j].window.width == p.sessions[j].window.width)
  }

  ghost predicate NotArming(f: Fanning, j: nat) {
    !(f.Arming? && f.seat == j)
  }

  lemma VisitKeepsSession(p: Publisher, sent: bool, elsewhere: bool, raced: bool, j: nat)
    requires Enabled(p, Visit(sent, elsewhere, raced)) && j < |p.sessions|
    ensures SameSession(p, Apply(p, Visit(sent, elsewhere, raced)), j)
  {
    var k := p.fanning.next;
    var s' := p.sessions[k].Visited(p.fanning.item, sent, elsewhere, raced).0;
    assert s'.clean == p.sessions[k].clean && s'.window.width == p.sessions[k].window.width;
    assert s'.Eligible() ==> p.sessions[k].Eligible();
  }

  /** Seats change one at a time. */
  lemma SeatKeepsSession(p: Publisher, step: Step, j: nat)
    requires Enabled(p, step) && step != Arm(j) && j < |p.sessions| && NotArming(p.fanning, j)
    requires step.Credit? || step.Open? || step.Arm? || step.LoadCount? || step.StoreGauges? || step.End? || step.Teardown?
    ensures SameSession(p, Apply(p, step), j) && NotArming(Apply(p, step).fanning, j)
  {
  }

  lemma StepKeepsSession(p: Publisher, step: Step, j: nat)
    requires Enabled(p, step) && step != Arm(j) && j < |p.sessions| && NotArming(p.fanning, j)
    ensures SameSession(p, Apply(p, step), j) && NotArming(Apply(p, step).fanning, j)
  {
    if step.Visit? {
      VisitKeepsSession(p, step.sent, step.claimedElsewhere, step.raced, j);
    } else if step.Credit? || step.Open? || step.Arm? || step.LoadCount? || step.StoreGauges? || step.End? || step.Teardown? {
      SeatKeepsSession(p, step, j);
    }
  }

  lemma {:induction false} RunKeepsSession(p: Publisher, steps: seq<Step>, j: nat)
    requires Legal(p, steps) && NeverArms(steps, j) && j < |p.sessions| && NotArming(p.fanning, j)
    ensures SameSession(p, Run(p, steps), j)
    decreases |steps|
  {
    if steps != [] {
      StepKeepsSession(p, steps[0], j);
      assert NeverArms(steps[1..], j);
      RunKeepsSession(Apply(p, steps[0]), steps[1..], j);
    }
  }

  lemma CleanIsLossless(p: Publisher, j: nat)
    requires Inv(p) && p.config.allActive && p.fanning.Idle? && j < |p.sessions| && p.sessions[j].clean
    ensures Lossless(p, j)
  {
    forall steps | Legal(p, steps) && NeverArms(steps, j)
      ensures !Skips(Run(p, steps), j)
    {
      RunKeepsSession(p, steps, j);
      RunKeeps(p, steps);
      if Skips(Run(p, steps), j) {
        CleanWindowOpen(Run(p, steps));
      }
    }
  }

  lemma FullWindowIsLossless(p: Publisher, j: nat)
    requires Single(p) && p.fanning.Idle? && j < |p.sessions| && p.sessions[j].window.width == p.config.depth
    ensures Lossless(p, j)
  {
    forall steps | Legal(p, steps) && NeverArms(steps, j)
      ensures !Skips(Run(p, steps), j)
    {
      RunKeepsSession(p, steps, j);
      RunStaysSingle(p, steps);
      if Skips(Run(p, steps), j) {
        RingHasRoom(Run(p, steps), j);
      }
    }
  }

  // ----- Building the losing run -----

  /** A run that has not armed seat `j` again. */
  ghost predicate Going(p: Publisher, steps: seq<Step>, now: Publisher, j: nat) {
    Reached(p, steps, now) && NeverArms(steps, j) && now.config == p.config
  }

  lemma Go(p: Publisher, steps: seq<Step>, now: Publisher, j: nat, step: Step) returns (steps': seq<Step>)
    requires Going(p, steps, now, j) && Enabled(now, step) && step != Arm(j)
    ensures Going(p, steps', Apply(now, step), j)
  {
    Advance(p, steps, now, step);
    steps' := steps + [step];
  }

  /** The gauges match the table. */
  ghost predicate Gauged(p: Publisher) {
    && AllSound(p.sessions)
    && p.armed == Armeds(p.sessions)
    && p.limit == if p.armed == 0 then MAX64 else StrictLimit(p.sessions)
  }

  /** Two publishers agree on everything but the pool, the gauges and seat `k`. */
  ghost predicate SameBut(p: Publisher, p': Publisher, k: nat) {
    && p'.queue == p.queue && p'.handles == p.handles && p'.publishing == p.publishing
    && p'.admitted == p.admitted && p'.fanning == p.fanning && |p'.sessions| == |p.sessions|
    && forall i :: 0 <= i < |p.sessions| && i != k ==> p'.sessions[i] == p.sessions[i]
  }

  ghost predicate Vacant(s: Session) {
    !s.Eligible() && s.state != Expiring && s.window.next == 0
  }

  /** Opening or ending a session touches its seat alone. */
  lemma SeatStepIsLocal(p: Publisher, step: Step)
    requires Enabled(p, step) && (step.Open? || step.End?)
    ensures SameBut(p, Apply(p, step), step.j)
    ensures Apply(p, step).sessions[step.j].state == if step.Open? then SessionState.Open else Expiring
  {
  }

  lemma TeardownVacates(p: Publisher, k: nat)
    requires Enabled(p, Teardown(k))
    ensures var p' := Apply(p, Teardown(k)); SameBut(p, p', k) && Vacant(p'.sessions[k]) && Gauged(p')
  {
  }

  /** End whoever holds seat `k`. */
  lemma Expire(p: Publisher, steps: seq<Step>, now: Publisher, j: nat, k: nat)
    returns (steps': seq<Step>, now': Publisher)
    requires Going(p, steps, now, j) && now.fanning.Idle? && k < |now.sessions| && k != j
    ensures Going(p, steps', now', j) && SameBut(now, now', k) && now'.sessions[k].state == Expiring
  {
    steps', now' := steps, now;
    if Seatable(now'.sessions[k].state) {
      SeatStepIsLocal(now', Step.Open(k, 1));
      steps' := Go(p, steps', now', j, Step.Open(k, 1));
      now' := Apply(now', Step.Open(k, 1));
    }
    if now'.sessions[k].state != Expiring {
      SeatStepIsLocal(now', End(k));
      steps' := Go(p, steps', now', j, End(k));
      now' := Apply(now', End(k));
    }
  }

  /** End whoever holds seat `k` and retire it. */
  lemma Vacate(p: Publisher, steps: seq<Step>, now: Publisher, j: nat, k: nat)
    returns (steps': seq<Step>, now': Publisher)
    requires Going(p, steps, now, j) && now.fanning.Idle? && k < |now.sessions| && k != j
    ensures Going(p, steps', now', j) && SameBut(now, now', k) && Vacant(now'.sessions[k]) && Gauged(now')
  {
    var mid;
    steps', mid := Expire(p, steps, now, j, k);
    TeardownVacates(mid, k);
    steps' := Go(p, steps', mid, j, Teardown(k));
    now' := Apply(mid, Teardown(k));
  }

  /** Only seat `j` is occupied, by a session that has been sent `n` frames and
      has credited none. */
  ghost predicate Alone(p: Publisher, j: nat, n: nat) {
    && j < |p.sessions| && p.config.allActive && p.sessions[j].Eligible()
    && p.sessions[j].window.next == n && p.sessions[j].window.credited == 0
    && forall k :: 0 <= k < |p.sessions| && k != j ==> Vacant(p.sessions[k])
  }

  lemma Isolate(p: Publisher, j: nat) returns (steps: seq<Step>, now: Publisher)
    requires Conserved(p) && p.config.allActive && p.fanning.Idle? && Gauged(p)
    requires j < |p.sessions| && p.sessions[j].Eligible() && p.sessions[j].window.next == 0
    ensures Going(p, steps, now, j) && Alone(now, j, 0) && Gauged(now) && now.sessions[j] == p.sessions[j]
    ensures now.queue == p.queue && now.publishing == p.publishing && now.admitted == p.admitted && now.fanning.Idle?
  {
    steps, now := [], p;
    var k := 0;
    while k < |p.sessions|
      invariant 0 <= k <= |p.sessions| == |now.sessions|
      invariant Going(p, steps, now, j) && Gauged(now) && now.sessions[j] == p.sessions[j] && now.fanning.Idle?
      invariant now.queue == p.queue && now.publishing == p.publishing && now.admitted == p.admitted
      invariant forall i :: 0 <= i < k && i != j ==> Vacant(now.sessions[i])
    {
      if k != j {
        steps, now := Vacate(p, steps, now, j, k);
      }
      k := k + 1;
    }
  }

  /** Alone, the session sets the limit by itself. */
  lemma {:induction false} AloneLimit(ss: seq<Session>, j: nat)
    requires AllSound(ss) && j < |ss| && ss[j].Eligible()
    requires forall k :: 0 <= k < |ss| && k != j ==> !ss[k].Eligible()
    ensures Armeds(ss) == 1 && StrictLimit(ss) == Min(ss[j].Retired() + ss[j].window.width, MAX64)
  {
    if j == 0 {
      NobodyLimits(ss[1..]);
    } else {
      AloneLimit(ss[1..], j - 1);
    }
  }

  lemma {:induction false} NobodyLimits(ss: seq<Session>)
    requires AllSound(ss) && forall k :: 0 <= k < |ss| ==> !ss[k].Eligible()
    ensures Armeds(ss) == 0 && StrictLimit(ss) == MAX64
  {
    if ss != [] {
      NobodyLimits(ss[1..]);
    }
  }

  /** Finish the publish call that is under way. */
  lemma Settle(p: Publisher, steps: seq<Step>, now: Publisher, j: nat) returns (steps': seq<Step>, now': Publisher)
    requires Going(p, steps, now, j)
    ensures Going(p, steps', now', j) && now'.publishing.NoPublish? && Front(now') == Front(now)
    ensures |now.queue| <= |now'.queue| && (|now.queue| <= now.config.queueCapacity ==> |now'.queue| <= now.config.queueCapacity)
    ensures |now.queue| < now.config.queueCapacity ==> |now'.queue| == Claimed(now) - Front(now)
    ensures now'.sessions == now.sessions && now'.fanning == now.fanning && now'.limit == now.limit && now'.armed == now.armed
  {
    steps', now' := steps, now;
    if now'.publishing.Decided? {
      steps' := Go(p, steps', now', j, Push);
      now' := Apply(now', Push);
    }
    if now'.publishing.Pushed? {
      steps' := Go(p, steps', now', j, Count);
      now' := Apply(now', Count);
    }
  }

  // ----- A slot to publish with -----

  lemma {:induction false} CoveringIsLong(q: seq<nat>, n: nat)
    requires forall i :: 0 <= i < n ==> i in q
    ensures |q| >= n
    decreases n
  {
    if n > 0 {
      assert n - 1 in q;
      var k :| 0 <= k < |q| && q[k] == n - 1;
      var rest := q[..k] + q[k + 1..];
      forall i | 0 <= i < n - 1
        ensures i in rest
      {
        assert i in q;
        var m :| 0 <= m < |q| && q[m] == i;
        assert rest[if m < k then m else m - 1] == i;
      }
      CoveringIsLong(rest, n - 1);
    }
  }

  /** While the first frame of the session is in the fan-out, a ring with more
      slots than the queue and that frame use has one free or in a handle. */
  lemma SlotToSpare(p: Publisher)
    requires Conserved(p) && |p.queue| + 1 < p.config.depth && p.fanning.Visiting?
    requires forall s :: s in p.sessions ==> s.window.next == s.window.credited
    ensures p.pool.free != [] || p.handles != {}
  {
    EmptyTableHoldsNothing(p.sessions);
    if p.pool.free == [] && p.handles == {} {
      var used := Slots(p.queue) + [p.fanning.item.slot];
      forall i | 0 <= i < p.config.depth
        ensures i in used
      {
        assert Places(p.pool, p.queue, p.handles, i) == 1;
        assert p.pool.refs[i] == HeldByAll(p.sessions)[i] + FanOutRef(p.fanning, i);
        if p.fanning.item.slot == i {
          assert used[|p.queue|] == i;
        } else {
          assert i in Slots(p.queue);
        }
      }
      CoveringIsLong(used, p.config.depth);
    }
  }

  // ----- Publishing while the first frame is fanned out -----

  /** The fan-out has the session's first frame and has visited nobody. */
  ghost predicate Starting(p: Publisher, j: nat) {
    Alone(p, j, 0) && p.fanning.Visiting? && p.fanning.next == 0 && p.armed > 0
  }

  /** A publish call that has seen an armed session, with any slot there is. */
  lemma EnterOne(p: Publisher, steps: seq<Step>, now: Publisher, j: nat)
    returns (steps': seq<Step>, now': Publisher, slot: nat)
    requires Going(p, steps, now, j) && now.publishing.NoPublish? && now.armed > 0
    requires now.pool.free != [] || now.handles != {}
    ensures Going(p, steps', now', j) && slot in now'.entered && slot in now'.handles
    ensures now' == now.(pool := now'.pool, handles := now'.handles, entered := now'.entered)
  {
    steps', now' := steps, now;
    if now'.handles == {} {
      steps' := Go(p, steps', now', j, Acquire);
      now' := Apply(now', Acquire);
    }
    slot :| slot in now'.handles;
    if slot !in now'.entered {
      steps' := Go(p, steps', now', j, Enter(slot));
      now' := Apply(now', Enter(slot));
    }
  }

  /** Claim one more ordinal, if the limit lets it through. */
  lemma ClaimOne(p: Publisher, steps: seq<Step>, now: Publisher, j: nat) returns (steps': seq<Step>, now': Publisher)
    requires Going(p, steps, now, j) && Starting(now, j) && now.publishing.NoPublish?
    requires |now.queue| + 1 < now.config.depth && now.admitted < now.limit
    ensures Going(p, steps', now', j) && now'.publishing.Decided? && now'.fanning == now.fanning && now'.armed == now.armed
    ensures now'.sessions == now.sessions && now'.limit == now.limit && now'.queue == now.queue && now'.admitted == now.admitted
  {
    SlotToSpare(now);
    var slot;
    steps', now', slot := EnterOne(p, steps, now, j);
    steps' := Go(p, steps', now', j, Decide(slot));
    now' := Apply(now', Decide(slot));
  }

  /** The limit is counted from the publish count, so with older frames queued it
      lets the queue fill up to the window. */
  lemma Fill(p: Publisher, steps: seq<Step>, now: Publisher, j: nat) returns (steps': seq<Step>, now': Publisher)
    requires Going(p, steps, now, j) && Starting(now, j) && now.publishing.NoPublish?
    requires now.sessions[j].window.width < now.config.depth && now.limit >= Front(now) + now.sessions[j].window.width
    ensures Going(p, steps', now', j) && now'.publishing.NoPublish? && now'.fanning == now.fanning && now'.armed == now.armed
    ensures now'.sessions == now.sessions && now'.limit == now.limit && Front(now') == Front(now)
    ensures |now'.queue| >= now.sessions[j].window.width || |now'.queue| >= now.config.queueCapacity
  {
    var width := now.sessions[j].window.width;
    steps', now' := steps, now;
    while |now'.queue| < width && |now'.queue| < now.config.queueCapacity
      invariant Going(p, steps', now', j) && now'.fanning == now.fanning && now'.publishing.NoPublish?
      invariant now'.sessions == now.sessions && now'.limit == now.limit && Front(now') == Front(now) && now'.armed == now.armed
      decreases width - |now'.queue|
    {
      steps', now' := ClaimOne(p, steps', now', j);
      steps', now' := Settle(p, steps', now', j);
    }
  }

  // ----- Fanning out to the lone session -----

  /** One visit that succeeds; nobody is racing. */
  lemma VisitAlone(now: Publisher, j: nat, n: nat)
    requires Conserved(now) && Alone(now, j, n) && now.fanning.Visiting? && now.fanning.next < |now.sessions|
    requires now.fanning.next == j ==> n < now.sessions[j].window.width && n < MAX64
    ensures Enabled(now, Visit(true, false, false))
    ensures var now' := Apply(now, Visit(true, false, false));
      && Alone(now', j, if now.fanning.next == j then n + 1 else n) && SamePublishing(now, now')
      && now'.queue == now.queue && now'.fanning == now.fanning.(next := now.fanning.next + 1)
      && |now'.sessions| == |now.sessions| && now'.sessions[j].window.width == now.sessions[j].window.width
  {
  }

  ghost predicate SamePublishing(p: Publisher, p': Publisher) {
    p'.publishing == p.publishing && p'.admitted == p.admitted
  }

  /** Visit the seats below `target`. */
  lemma VisitUpTo(p: Publisher, steps: seq<Step>, now: Publisher, j: nat, n: nat, target: nat)
    returns (steps': seq<Step>, now': Publisher)
    requires Going(p, steps, now, j) && Alone(now, j, n) && now.fanning.Visiting? && now.fanning.next == 0
    requires target <= |now.sessions| && (j < target ==> n < now.sessions[j].window.width && n < MAX64)
    ensures Going(p, steps', now', j) && Alone(now', j, if j < target then n + 1 else n) && SamePublishing(now, now')
    ensures now'.fanning == now.fanning.(next := target) && now'.queue == now.queue
    ensures |now'.sessions| == |now.sessions| && now'.sessions[j].window.width == now.sessions[j].window.width
  {
    steps', now' := steps, now;
    var k := 0;
    while k < target
      invariant 0 <= k <= target <= |now'.sessions| == |now.sessions|
      invariant Going(p, steps', now', j) && Alone(now', j, if j < k then n + 1 else n) && SamePublishing(now, now')
      invariant now'.fanning == now.fanning.(next := k) && now'.queue == now.queue
      invariant now'.sessions[j].window.width == now.sessions[j].window.width
    {
      VisitAlone(now', j, if j < k then n + 1 else n);
      steps' := Go(p, steps', now', j, Visit(true, false, false));
      now' := Apply(now', Visit(true, false, false));
      k := k + 1;
    }
  }

  /** Take the oldest frame off the queue. */
  lemma TakeOne(p: Publisher, steps: seq<Step>, now: Publisher, j: nat, n: nat)
    returns (steps': seq<Step>, now': Publisher)
    requires Going(p, steps, now, j) && Alone(now, j, n) && now.fanning.Idle? && now.queue != []
    ensures Going(p, steps', now', j) && Alone(now', j, n) && SamePublishing(now, now')
    ensures now'.sessions == now.sessions && now'.limit == now.limit && now'.armed == now.armed
    ensures now'.fanning == Visiting(now.queue[0], 0) && |now'.queue| == |now.queue| - 1
  {
    assert now.queue[0] in now.queue;
    steps' := Go(p, steps, now, j, BeginFanOut);
    now' := Apply(now, BeginFanOut);
  }

  /** The rest of a fan-out: the lone session is sent one more frame. */
  lemma FinishOne(p: Publisher, steps: seq<Step>, now: Publisher, j: nat, n: nat)
    returns (steps': seq<Step>, now': Publisher)
    requires Going(p, steps, now, j) && Alone(now, j, n) && now.fanning.Visiting? && now.fanning.next == 0
    requires n < now.sessions[j].window.width && n < MAX64
    ensures Going(p, steps', now', j) && Alone(now', j, n + 1) && now'.fanning.Idle? && SamePublishing(now, now')
    ensures now'.queue == now.queue && now'.sessions[j].window.width == now.sessions[j].window.width
  {
    steps', now' := VisitUpTo(p, steps, now, j, n, |now.sessions|);
    steps' := Go(p, steps', now', j, EndFanOut);
    now' := Apply(now', EndFanOut);
  }

  /** One whole fan-out. */
  lemma DrainOne(p: Publisher, steps: seq<Step>, now: Publisher, j: nat, n: nat)
    returns (steps': seq<Step>, now': Publisher)
    requires Going(p, steps, now, j) && Alone(now, j, n) && now.fanning.Idle? && now.queue != []
    requires n < now.sessions[j].window.width && n < MAX64
    ensures Going(p, steps', now', j) && Alone(now', j, n + 1) && now'.fanning.Idle? && SamePublishing(now, now')
    ensures |now'.queue| == |now.queue| - 1 && now'.sessions[j].window.width == now.sessions[j].window.width
  {
    steps', now' := TakeOne(p, steps, now, j, n);
    steps', now' := FinishOne(p, steps', now', j, n);
  }

  /** The frames sent and queued are more than the window holds. */
  ghost predicate Overfull(p: Publisher, j: nat, n: nat) {
    && Alone(p, j, n) && p.fanning.Idle?
    && n <= p.sessions[j].window.width < |p.queue| + n && p.sessions[j].window.width <= MAX64
  }

  /** Then, without credit, one is skipped. */
  lemma Overrun(p: Publisher, steps: seq<Step>, now: Publisher, j: nat, n: nat) returns (steps': seq<Step>)
    requires Going(p, steps, now, j) && Overfull(now, j, n)
    ensures Legal(p, steps') && NeverArms(steps', j) && Skips(Run(p, steps'), j)
  {
    var width := now.sessions[j].window.width;
    var at, m := now, n;
    steps' := steps;
    while m < width
      invariant n <= m <= width && Going(p, steps', at, j) && Alone(at, j, m) && at.fanning.Idle?
      invariant |at.queue| + m == |now.queue| + n && at.sessions[j].window.width == width
    {
      steps', at := DrainOne(p, steps', at, j, m);
      m := m + 1;
    }
    steps', at := TakeOne(p, steps', at, j, m);
    steps', at := VisitUpTo(p, steps', at, j, m, j);
  }

  // ----- Exactness -----

  /** More ordinals are claimed than the window holds: the queue has them already,
      or all but the one a publish call is about to push. */
  lemma ClaimedLoses(p: Publisher, steps: seq<Step>, now: Publisher, j: nat) returns (steps': seq<Step>)
    requires Going(p, steps, now, j) && Alone(now, j, 0) && now.fanning.Idle? && |now.queue| <= now.config.queueCapacity
    requires 1 <= now.sessions[j].window.width <= MAX64 && Claimed(now) > Front(now) + now.sessions[j].window.width
    ensures Legal(p, steps') && NeverArms(steps', j) && Skips(Run(p, steps'), j)
  {
    if |now.queue| > now.sessions[j].window.width {
      steps' := Overrun(p, steps, now, j, 0);
    } else {
      var at;
      steps', at := DrainOne(p, steps, now, j, 0);
      steps', at := Settle(p, steps', at, j);
      steps' := Overrun(p, steps', at, j, 1);
    }
  }

  /** The publish count was ahead of the queue, and the queue has room for the
      window: claim one frame too many while the first is being fanned out. */
  lemma AheadLoses(p: Publisher, steps: seq<Step>, now: Publisher, j: nat) returns (steps': seq<Step>)
    requires Going(p, steps, now, j) && Alone(now, j, 0) && now.fanning.Idle? && now.publishing.NoPublish? && now.queue != []
    requires |now.queue| <= now.config.queueCapacity && now.armed > 0
    requires var width := now.sessions[j].window.width;
      && 1 <= width < now.config.depth <= MAX64 && width <= now.config.queueCapacity + 1
      && now.limit > Front(now) + width
    ensures Legal(p, steps') && NeverArms(steps', j) && Skips(Run(p, steps'), j)
  {
    var at;
    var width := now.sessions[j].window.width;
    steps', at := TakeOne(p, steps, now, j, 0);
    steps', at := Fill(p, steps', at, j);
    if |at.queue| >= width {
      steps', at := FinishOne(p, steps', at, j, 0);
      steps' := Overrun(p, steps', at, j, 1);
    } else {
      steps', at := ClaimOne(p, steps', at, j);
      steps', at := FinishOne(p, steps', at, j, 0);
      steps', at := DrainOne(p, steps', at, j, 1);
      steps', at := Settle(p, steps', at, j);
      steps' := Overrun(p, steps', at, j, 2);
    }
  }

  /** A start outside the window has a continuation that loses a frame, unless the
      window spans the ring. */
  lemma UncleanLoses(p: Publisher, j: nat) returns (steps: seq<Step>)
    requires Conserved(p) && Gauged(p) && p.config.allActive && p.fanning.Idle? && j < |p.sessions|
    requires |p.queue| <= p.config.queueCapacity && p.admitted + p.config.depth <= MAX64
    requires var s := p.sessions[j];
      && s.Eligible() && s.window.next == 0 && s.processed <= NextOrdinal(p)
      && 1 <= s.window.width < p.config.depth && !StartsWithin(p, s)
    ensures Legal(p, steps) && NeverArms(steps, j) && Skips(Run(p, steps), j)
  {
    var now;
    steps, now := Isolate(p, j);
    AloneLimit(now.sessions, j);
    assert now.limit == p.sessions[j].processed + p.sessions[j].window.width;
    assert Front(now) == Front(p) && Claimed(now) == Claimed(p);
    if Claimed(p) > Front(p) + p.sessions[j].window.width {
      steps := ClaimedLoses(p, steps, now, j);
    } else {
      steps, now := Settle(p, steps, now, j);
      steps := AheadLoses(p, steps, now, j);
    }
  }

  lemma ArmingSeat(p: Publisher)
    requires Inv(p) && Enabled(p, StoreGauges) && p.sessions[p.fanning.seat].state == Armed
    ensures var s := p.sessions[p.fanning.seat];
      s.window.next == 0 && s.window.width >= 1 && s.processed <= NextOrdinal(p)
  {
    var j := p.fanning.seat;
    assert SeatInv(p.sessions[j], Due(p.fanning, Front(p), j), GateOf(p));
  }

  /** What holds right after the store, whether or not the start was clean. */
  lemma AfterStore(p: Publisher)
    requires Reachable(p) && Enabled(p, StoreGauges) && p.sessions[p.fanning.seat].state == Armed
    ensures var p', s := Apply(p, StoreGauges), p.sessions[p.fanning.seat];
      && Inv(p') && Single(p') && Gauged(p') && p'.fanning.Idle?
      && p'.sessions[p.fanning.seat] == s.(clean := StartsWithin(p, s))
      && StartsWithin(p', s) == StartsWithin(p, s)
      && s.window.next == 0 && s.window.width >= 1 && s.processed <= NextOrdinal(p')
  {
    ReachableOrdered(p);
    ReachableSingle(p);
    StepStaysSingle(p, StoreGauges);
    StoreKeeps(p);
    ArmingSeat(p);
  }

  /** Arming is lossless exactly when the start is within the window at the store
      of the new limit, or the window spans the ring.  The ordinals are taken not to
      be at the end of their 64-bit range. */
  lemma LosslessIffWithin(p: Publisher)
    requires Reachable(p) && p.config.allActive && Enabled(p, StoreGauges)
    requires p.sessions[p.fanning.seat].state == Armed && p.admitted + p.config.depth <= MAX64
    ensures var s := p.sessions[p.fanning.seat];
      StartsWithin(p, s) || s.window.width == p.config.depth <==> Lossless(Apply(p, StoreGauges), p.fanning.seat)
  {
    var j := p.fanning.seat;
    var p' := Apply(p, StoreGauges);
    AfterStore(p);
    if StartsWithin(p, p.sessions[j]) {
      CleanIsLossless(p', j);
    } else if p.sessions[j].window.width == p.config.depth {
      FullWindowIsLossless(p', j);
    } else {
      var steps := UncleanLoses(p', j);
    }
  }

  // ----- Seen from before the arm -----

  /** A publish call under way holds a handle, and none holds it twice. */
  ghost predicate EnteredHold(p: Publisher) {
    p.entered <= p.handles && (p.publishing.Decided? ==> p.publishing.slot !in p.entered)
  }

  lemma StepEnteredHold(p: Publisher, step: Step)
    requires EnteredHold(p) && Enabled(p, step)
    ensures EnteredHold(Apply(p, step))
  {
  }

  lemma {:induction false} RunEnteredHold(p: Publisher, steps: seq<Step>)
    requires EnteredHold(p) && Legal(p, steps)
    ensures EnteredHold(Run(p, steps))
    decreases |steps|
  {
    if steps != [] {
      StepEnteredHold(p, steps[0]);
      RunEnteredHold(Apply(p, steps[0]), steps[1..]);
    }
  }

  lemma ReachableEnteredHold(p: Publisher)
    requires Reachable(p)
    ensures EnteredHold(p)
  {
    var config: Config, seats: nat, steps :|
      config.Valid() && Legal(Start(config, seats), steps) && Run(Start(config, seats), steps) == p;
    RunEnteredHold(Start(config, seats), steps);
  }

  /** A publish call can get a frame in under the gauges in force: the limit leaves
      room, and a call has seen an armed session already or one can with some slot. */
  predicate CallCanPass(p: Publisher) {
    && p.admitted < p.limit
    && (p.entered != {} || (p.armed > 0 && (p.pool.free != [] || p.handles != {})))
  }

  // ----- No call can pass: the arm is lossless -----

  /** Nothing is queued or claimed, and nothing will be while the gauges stay. */
  ghost predicate Barred(p: Publisher) {
    p.queue == [] && p.publishing.NoPublish? && !CallCanPass(p)
  }

  /** However the arm of seat `j` goes on, it ends well: no call can pass, or the
      window spans the ring, or the queue cannot hold more than the window. */
  ghost predicate SafeArm(p: Publisher, j: nat) {
    && p.fanning.Arming? && p.fanning.seat == j < |p.sessions|
    && (p.sessions[j].state == Armed || p.sessions[j].state == Expiring)
    && var s := p.sessions[j];
       || (Barred(p) && (p.fanning.counted ==> s.processed == p.admitted))
       || s.window.width == p.config.depth
       || p.config.queueCapacity + 2 <= s.window.width
  }

  lemma BarredStays(p: Publisher, step: Step)
    requires Barred(p) && EnteredHold(p) && Enabled(p, step) && p.fanning.Arming? && step != StoreGauges && p.config.allActive
    ensures Barred(Apply(p, step)) && Apply(p, step).admitted == p.admitted
  {
  }

  lemma SafeArmStays(p: Publisher, step: Step, j: nat)
    requires SafeArm(p, j) && EnteredHold(p) && Enabled(p, step) && step != StoreGauges && p.config.allActive
    ensures SafeArm(Apply(p, step), j)
  {
    if Barred(p) {
      BarredStays(p, step);
    }
  }

  /** The store of a safe arm leaves a session that is never skipped. */
  lemma SafeStoreLossless(p: Publisher, j: nat)
    requires SafeArm(p, j) && Inv(p) && Single(p) && p.config.allActive && Enabled(p, StoreGauges)
    ensures Lossless(Apply(p, StoreGauges), j)
  {
    StoreKeeps(p);
    StepStaysSingle(p, StoreGauges);
    if p.sessions[j].window.width == p.config.depth {
      FullWindowIsLossless(Apply(p, StoreGauges), j);
    } else {
      assert StartsWithin(p, p.sessions[j]);
      CleanIsLossless(Apply(p, StoreGauges), j);
    }
  }

  ghost predicate ArmInv(p: Publisher, j: nat) {
    SafeArm(p, j) && EnteredHold(p) && Inv(p) && Single(p) && p.config.allActive
  }

  lemma ArmInvStays(p: Publisher, step: Step, j: nat)
    requires ArmInv(p, j) && Enabled(p, step) && step != StoreGauges
    ensures ArmInv(Apply(p, step), j)
  {
    SafeArmStays(p, step, j);
    StepEnteredHold(p, step);
    StepKeeps(p, step);
    StepStaysSingle(p, step);
  }

  lemma {:induction false} SafeArmLossless(p: Publisher, j: nat, steps: seq<Step>)
    requires ArmInv(p, j) && Legal(p, steps) && NeverArms(steps, j)
    ensures !Skips(Run(p, steps), j)
    decreases |steps|
  {
    if steps != [] {
      assert NeverArms(steps[1..], j);
      if steps[0] == StoreGauges {
        SafeStoreLossless(p, j);
      } else {
        ArmInvStays(p, steps[0], j);
        SafeArmLossless(Apply(p, steps[0]), j, steps[1..]);
      }
    }
  }

  // ----- A call can pass: it loses the session a frame -----

  lemma {:induction false} RunsCompose(p: Publisher, a: seq<Step>, b: seq<Step>)
    requires Legal(p, a) && Legal(Run(p, a), b)
    ensures Legal(p, a + b) && Run(p, a + b) == Run(Run(p, a), b)
    decreases |a|
  {
    if a == [] {
      assert a + b == b;
    } else {
      assert (a + b)[0] == a[0] && (a + b)[1..] == a[1..] + b;
      RunsCompose(Apply(p, a[0]), a[1..], b);
    }
  }

  lemma ReachFurther(p: Publisher, steps: seq<Step>)
    requires Reachable(p) && Legal(p, steps)
    ensures Reachable(Run(p, steps))
  {
    var config: Config, seats: nat, before :|
      config.Valid() && Legal(Start(config, seats), before) && Run(Start(config, seats), before) == p;
    RunsCompose(Start(config, seats), before, steps);
  }

  lemma RunOne(p: Publisher, step: Step)
    requires Enabled(p, step)
    ensures Legal(p, [step]) && Run(p, [step]) == Apply(p, step)
  {
    assert [step][1..] == [];
    assert Run(Apply(p, step), []) == Apply(p, step);
  }

  /** Publish one frame with a call that can pass. */
  lemma PassOne(p: Publisher, steps: seq<Step>, now: Publisher, j: nat) returns (steps': seq<Step>, now': Publisher)
    requires Going(p, steps, now, j) && EnteredHold(now) && now.publishing.NoPublish? && CallCanPass(now)
    requires now.config.allActive && |now.queue| < now.config.queueCapacity
    ensures Going(p, steps', now', j) && now'.publishing.NoPublish? && now'.fanning == now.fanning
    ensures now'.sessions == now.sessions
    ensures |now'.queue| == |now.queue| + 1 && now'.admitted == now.admitted + 1
  {
    var slot;
    if now.entered == {} {
      steps', now', slot := EnterOne(p, steps, now, j);
    } else {
      steps', now' := steps, now;
      slot :| slot in now.entered;
    }
    steps' := Go(p, steps', now', j, Decide(slot));
    now' := Apply(now', Decide(slot));
    steps', now' := Settle(p, steps', now', j);
  }

  /** Seat `j` is about to arm on an empty queue with no publish call past its decision. */
  ghost predicate ArmsOnEmpty(p: Publisher, j: nat) {
    Enabled(p, Arm(j)) && p.config.allActive && p.publishing.NoPublish? && p.queue == []
  }

  /** The window could close before the queue or the ring runs out. */
  predicate Narrow(p: Publisher, j: nat)
    requires j < |p.sessions|
  {
    p.sessions[j].window.width < p.config.depth && p.sessions[j].window.width <= p.config.queueCapacity + 1
  }

  /** One frame is published before the publish count is read, so that the session
      starts ahead of the queue. */
  lemma RaceThroughArming(p: Publisher, j: nat) returns (steps: seq<Step>, now: Publisher)
    requires Conserved(p) && Inv(p) && EnteredHold(p) && ArmsOnEmpty(p, j) && CallCanPass(p)
    ensures Going(Apply(p, Arm(j)), steps, now, j) && now.fanning == Arming(j, true)
    ensures |now.sessions| == |p.sessions| && now.sessions[j].state == Armed && now.sessions[j].window == p.sessions[j].window
    ensures now.sessions[j].processed > Front(now) && now.admitted == p.admitted + 1
  {
    var armed := Apply(p, Arm(j));
    StepConserves(p, Arm(j));
    steps, now := PassOne(armed, [], armed, j);
    steps := Go(armed, steps, now, j, LoadCount);
    now := Apply(now, LoadCount);
  }

  /** A publish call that falls between the accesses of an arm can lose the session a
      frame even though its queue was empty when it was armed. */
  lemma RaceLoses(p: Publisher, j: nat) returns (steps: seq<Step>)
    requires Reachable(p) && ArmsOnEmpty(p, j) && CallCanPass(p) && Narrow(p, j)
    requires p.admitted + 1 + p.config.depth <= MAX64
    ensures Legal(Apply(p, Arm(j)), steps) && NeverArms(steps, j) && Skips(Run(Apply(p, Arm(j)), steps), j)
  {
    ReachableConserved(p);
    ReachableOrdered(p);
    ReachableEnteredHold(p);
    var armed := Apply(p, Arm(j));
    var before, now := RaceThroughArming(p, j);
    RunOne(p, Arm(j));
    ReachFurther(p, [Arm(j)]);
    ReachFurther(armed, before);
    AfterStore(now);
    before := Go(armed, before, now, j, StoreGauges);
    var after := UncleanLoses(Apply(now, StoreGauges), j);
    RunsCompose(armed, before, after);
    steps := before + after;
  }

  /** On an empty queue, arming is lossless exactly when no publish call can get a
      frame in between its accesses, or the window is too wide to close. */
  lemma ArmIsLosslessIff(p: Publisher, j: nat)
    requires Reachable(p) && ArmsOnEmpty(p, j) && p.admitted + 1 + p.config.depth <= MAX64
    ensures Lossless(Apply(p, Arm(j)), j) <==> !(CallCanPass(p) && Narrow(p, j))
  {
    if CallCanPass(p) && Narrow(p, j) {
      var steps := RaceLoses(p, j);
    } else {
      ReachableOrdered(p);
      ReachableSingle(p);
      ReachableEnteredHold(p);
      StepKeeps(p, Arm(j));
      StepStaysSingle(p, Arm(j));
      StepEnteredHold(p, Arm(j));
      assert SafeArm(Apply(p, Arm(j)), j);
      forall steps | Legal(Apply(p, Arm(j)), steps) && NeverArms(steps, j)
        ensures !Skips(Run(Apply(p, Arm(j)), steps), j)
      {
        SafeArmLossless(Apply(p, Arm(j)), j, steps);
      }
    }
  }

  /** The first client of an idle publisher is never skipped. */
  lemma FirstClientLossless(p: Publisher, j: nat)
    requires Reachable(p) && ArmsOnEmpty(p, j) && p.armed == 0 && p.entered == {}
    requires p.admitted + 1 + p.config.depth <= MAX64
    ensures Lossless(Apply(p, Arm(j)), j)
  {
    ArmIsLosslessIff(p, j);
  }

  /** The whole arm of seat `i`, with nothing in between. */
  lemma ArmOne(p: Publisher, steps: seq<Step>, now: Publisher, i: nat, j: nat) returns (steps': seq<Step>, now': Publisher)
    requires Going(p, steps, now, j) && Enabled(now, Arm(i)) && i != j
    ensures Going(p, steps', now', j) && Gauged(now') && now'.fanning.Idle? && |now'.sessions| == |now.sessions|
    ensures now' == now.(sessions := now'.sessions, credited := now'.credited, limit := now'.limit, armed := now'.armed)
    ensures forall k :: 0 <= k < |now.sessions| && k != i ==> now'.sessions[k] == now.sessions[k]
    ensures var s := now'.sessions[i]; s.state == Armed && s.window == now.sessions[i].window && s.processed == now.admitted
  {
    steps' := Go(p, steps, now, j, Arm(i));
    now' := Apply(now, Arm(i));
    steps' := Go(p, steps', now', j, LoadCount);
    now' := Apply(now', LoadCount);
    steps' := Go(p, steps', now', j, StoreGauges);
    now' := Apply(now', StoreGauges);
  }

  /** What the first client of a new publisher leaves when it has armed. */
  ghost predicate OnlyFirstArmed(p: Publisher, config: Config, seats: nat) {
    && p.config == config && 0 < |p.sessions| == seats && p.queue == [] && p.fanning.Idle? && p.publishing.NoPublish?
    && p.admitted == 0 && |p.pool.free| == config.depth && Gauged(p)
    && p.sessions[0].state == Armed && p.sessions[0].window == Window(config.window, 0, 0) && p.sessions[0].processed == 0
    && forall k :: 1 <= k < seats ==> p.sessions[k].state == Unknown
  }

  lemma OneClient(config: Config, seats: nat) returns (steps: seq<Step>, p: Publisher)
    requires config.Valid() && seats >= 2
    ensures Going(Start(config, seats), steps, p, 1) && OnlyFirstArmed(p, config, seats)
  {
    StartConserves(config, seats);
    var start := Start(config, seats);
    steps := Go(start, [], start, 1, Step.Open(0, config.window));
    p := Apply(start, Step.Open(0, config.window));
    steps, p := ArmOne(start, steps, p, 0, 1);
  }

  lemma FirstSetsLimit(p: Publisher, config: Config, seats: nat)
    requires OnlyFirstArmed(p, config, seats) && config.Valid() && seats >= 2
    ensures p.armed == 1 && p.limit > 0
  {
    AloneLimit(p.sessions, 0);
  }

  /** A publisher with one client armed and another about to. */
  lemma TwoClients(config: Config, seats: nat) returns (p: Publisher)
    requires config.Valid() && config.allActive && seats >= 2
    ensures Reachable(p) && ArmsOnEmpty(p, 1) && CallCanPass(p) && p.config == config && p.admitted == 0
    ensures |p.sessions| == seats && p.sessions[1].window.width == 1
  {
    var steps, one := OneClient(config, seats);
    FirstSetsLimit(one, config, seats);
    steps := Go(Start(config, seats), steps, one, 1, Step.Open(1, 1));
    p := Apply(one, Step.Open(1, 1));
  }

  /** Under every configuration with at least two slots and two seats, a second client
      can be skipped although it armed on an empty queue. */
  lemma EmptyQueueIsNotEnough(config: Config, seats: nat) returns (p: Publisher, steps: seq<Step>)
    requires config.Valid() && config.allActive && 2 <= config.depth < MAX64 && seats >= 2
    ensures Reachable(p) && p.config == config && |p.sessions| == seats && ArmsOnEmpty(p, 1)
    ensures Legal(Apply(p, Arm(1)), steps) && NeverArms(steps, 1) && Skips(Run(Apply(p, Arm(1)), steps), 1)
  {
    p := TwoClients(config, seats);
    steps := RaceLoses(p, 1);
  }
}
