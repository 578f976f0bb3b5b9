/** The delivery queue's barriers: retiring an ingress, storing a terminal, reading.

    Pushers, readers, the terminal setter and the ingress owner step one atomic
    access at a time.  The frame queue itself is taken as an atomic bounded FIFO,
    which is what the ticketed queue provides.  `drained` and `taken` are history:
    ingresses whose retirement has returned, and frames handed to readers. */
module Delivery {
  import opened Base

  datatype Terminal = NotEnded | Closed | Interrupted | SessionFailed | CallbackFailed

  datatype Ingress = Ingress(retired: bool, active: nat)

  /** How far a push has got; each phase names the access it has completed. */
  datatype Phase = Entered | Counted | Checked | Decided | Evicting | Retrying | Leaving | LeftIngress

  datatype Pusher = NoPush | Push(ingress: Option<nat>, frame: nat, phase: Phase, current: bool, accepting: bool) {
    /** Inside the region the given ingress (or, for None, the queue) counts. */
    predicate Within(g: Option<nat>) {
      Push? && if g.None? then phase != Entered else ingress == g && phase != LeftIngress
    }

    /** Has seen its ingress current and may still go on to enqueue. */
    predicate Committed() {
      Push? && current && (phase == Checked || phase == Decided || phase == Evicting || phase == Retrying)
    }

    /** Has also seen the queue accepting. */
    predicate WillEnqueue() {
      Committed() && accepting && phase != Checked
    }
  }

  datatype Setter =
    | NoSetter
    | Refusing(kind: Terminal)      // no terminal seen, transition lock held
    | Waiting(kind: Terminal)       // accepting cleared
    | Discarding(kind: Terminal)
    | Storing(kind: Terminal)

  datatype Reader = NoRead | Popping(saw: Terminal) | Missed(saw: Terminal)

  datatype Queue = Queue(frames: seq<nat>, capacity: nat, dropOldest: bool,
                         ingresses: seq<Ingress>, current: Option<nat>, active: nat, accepting: bool,
                         terminal: Terminal, pushers: seq<Pusher>, setter: Setter, readers: seq<Reader>,
                         drained: set<nat>, taken: seq<nat>)

  datatype Step =
    | StartPush(t: nat, ingress: Option<nat>, frame: nat) | AdvancePush(t: nat)
    | MakeIngress | RetireIngress | RetireReturns(g: nat)
    | BeginTerminal(kind: Terminal) | AdvanceTerminal
    | StartRead(t: nat) | AdvanceRead(t: nat)
    | DiscardOne                      // one turn of the owner's discard loop

  predicate WaitsForPushes(kind: Terminal) {
    kind != Interrupted
  }

  predicate Empties(kind: Terminal) {
    kind == Closed || kind == CallbackFailed
  }

  predicate IngressExists(q: Queue, g: Option<nat>) {
    g.Some? ==> g.value < |q.ingresses|
  }

  predicate Enabled(q: Queue, step: Step) {
    match step
    case StartPush(t, g, _) => t < |q.pushers| && q.pushers[t].NoPush? && IngressExists(q, g)
    case AdvancePush(t) => t < |q.pushers| && q.pushers[t].Push? && IngressExists(q, q.pushers[t].ingress)
    case MakeIngress => IngressExists(q, q.current)
    case RetireIngress => IngressExists(q, q.current)
    case RetireReturns(g) => g < |q.ingresses| && q.ingresses[g].retired && q.ingresses[g].active == 0
    case BeginTerminal(kind) => q.setter.NoSetter? && q.terminal.NotEnded? && !kind.NotEnded?
    case AdvanceTerminal =>
      !q.setter.NoSetter? && (q.setter.Waiting? && WaitsForPushes(q.setter.kind) ==> q.active == 0)
    case StartRead(t) => t < |q.readers| && q.readers[t].NoRead?
    case AdvanceRead(t) => t < |q.readers| && !q.readers[t].NoRead?
    case DiscardOne => q.frames != []
  }

  // ----- Pushing -----

  function Adjust(q: Queue, g: Option<nat>, up: bool): Queue
    requires IngressExists(q, g)
  {
    if g.None? then q
    else
      var i := q.ingresses[g.value];
      var active := if up then i.active + 1 else if i.active > 0 then i.active - 1 else 0;
      q.(ingresses := q.ingresses[g.value := i.(active := active)])
  }

  function To(q: Queue, t: nat, p: Pusher): Queue
    requires t < |q.pushers|
  {
    q.(pushers := q.pushers[t := p])
  }

  /** try_push, and what follows when it is refused. */
  function TryEnqueue(q: Queue, t: nat, onFull: Phase): Queue
    requires t < |q.pushers| && q.pushers[t].Push?
  {
    var p := q.pushers[t];
    if |q.frames| < q.capacity
    then To(q.(frames := q.frames + [p.frame]), t, p.(phase := Leaving))
    else To(q, t, p.(phase := onFull))
  }

  function PushStep(q: Queue, t: nat): Queue
    requires t < |q.pushers| && q.pushers[t].Push? && IngressExists(q, q.pushers[t].ingress)
  {
    var p := q.pushers[t];
    match p.phase
    case Entered => To(q.(active := q.active + 1), t, p.(phase := Counted))
    case Counted =>
      To(q, t, p.(phase := Checked, current := p.ingress.None? || !q.ingresses[p.ingress.value].retired))
    case Checked => To(q, t, p.(phase := Decided, accepting := q.accepting))
    case Decided =>
      if p.current && p.accepting then TryEnqueue(q, t, if q.dropOldest then Evicting else Leaving)
      else To(q, t, p.(phase := Leaving))
    case Evicting =>
      if q.frames == [] then To(q, t, p.(phase := Leaving))
      else To(q.(frames := q.frames[1..]), t, p.(phase := Retrying))
    case Retrying => TryEnqueue(q, t, Leaving)
    case Leaving => To(Adjust(q, p.ingress, false), t, p.(phase := LeftIngress))
    case LeftIngress => To(q.(active := if q.active > 0 then q.active - 1 else 0), t, NoPush)
  }

  // ----- Ingress, terminal, reading -----

  function Retired(q: Queue): Queue
    requires IngressExists(q, q.current)
  {
    if q.current.None? then q
    else q.(ingresses := q.ingresses[q.current.value := q.ingresses[q.current.value].(retired := true)], current := None)
  }

  function TerminalStep(q: Queue): Queue
    requires !q.setter.NoSetter?
  {
    match q.setter
    case Refusing(kind) => q.(accepting := false, setter := Waiting(kind))
    case Waiting(kind) => q.(setter := if Empties(kind) then Discarding(kind) else Storing(kind))
    case Discarding(kind) => if q.frames == [] then q.(setter := Storing(kind)) else q.(frames := q.frames[1..])
    case Storing(kind) => q.(terminal := kind, setter := NoSetter)
  }

  function ToReader(q: Queue, t: nat, r: Reader): Queue
    requires t < |q.readers|
  {
    q.(readers := q.readers[t := r])
  }

  function ReadStep(q: Queue, t: nat): Queue
    requires t < |q.readers| && !q.readers[t].NoRead?
  {
    match q.readers[t]
    case Popping(saw) =>
      if q.frames == [] then ToReader(q, t, Missed(saw))
      else ToReader(q.(frames := q.frames[1..], taken := q.taken + [q.frames[0]]), t, NoRead)
    case Missed(_) => ToReader(q, t, NoRead)              // reports the terminal it reloads, or nothing yet
  }

  function Apply(q: Queue, step: Step): Queue
    requires Enabled(q, step)
  {
    match step
    case StartPush(t, g, frame) => To(Adjust(q, g, true), t, Push(g, frame, Entered, false, false))
    case AdvancePush(t) => PushStep(q, t)
    case MakeIngress =>
      var r := Retired(q);
      r.(ingresses := r.ingresses + [Ingress(false, 0)], current := Some(|r.ingresses|))
    case RetireIngress => Retired(q)
    case RetireReturns(g) => q.(drained := q.drained + {g})
    case BeginTerminal(kind) => q.(setter := Refusing(kind))
    case AdvanceTerminal => TerminalStep(q)
    case StartRead(t) =>
      if q.terminal == NotEnded || q.terminal == SessionFailed then ToReader(q, t, Popping(q.terminal))
      else q                                             // reports the terminal at once
    case AdvanceRead(t) => ReadStep(q, t)
    case DiscardOne => q.(frames := q.frames[1..])
  }

  function Start(capacity: nat, dropOldest: bool, pushers: nat, readers: nat): Queue {
    Queue([], capacity, dropOldest, [], None, 0, true, NotEnded, seq(pushers, i => NoPush), NoSetter,
          seq(readers, i => NoRead), {}, [])
  }

  ghost predicate Legal(q: Queue, steps: seq<Step>)
    decreases |steps|
  {
    steps == [] || (Enabled(q, steps[0]) && Legal(Apply(q, steps[0]), steps[1..]))
  }

  ghost function Run(q: Queue, steps: seq<Step>): Queue
    requires Legal(q, steps)
    decreases |steps|
  {
    if steps == [] then q else Run(Apply(q, steps[0]), steps[1..])
  }

  /** Some run of some queue ends in `q`.  With two places or more the ticketed
      queue underneath is a bounded FIFO. */
  ghost predicate Reachable(q: Queue) {
    exists capacity: nat, dropOldest: bool, pushers: nat, readers: nat, steps ::
      capacity >= 2 && Legal(Start(capacity, dropOldest, pushers, readers), steps)
      && Run(Start(capacity, dropOldest, pushers, readers), steps) == q
  }

  // ----- The invariant -----

  function CountWithin(pushers: seq<Pusher>, g: Option<nat>): nat {
    if pushers == [] then 0
    else (if pushers[0].Within(g) then 1 else 0) + CountWithin(pushers[1..], g)
  }

  ghost predicate CountsOk(active: nat, ingresses: seq<Ingress>, pushers: seq<Pusher>) {
    && active == CountWithin(pushers, None)
    && forall g :: 0 <= g < |ingresses| ==> ingresses[g].active == CountWithin(pushers, Some(g))
  }

  /** Past this point nothing may be enqueued any more. */
  predicate BarrierPassed(terminal: Terminal, setter: Setter) {
    || (terminal != NotEnded && terminal != Interrupted)
    || ((setter.Discarding? || setter.Storing?) && setter.kind != Interrupted)
  }

  ghost predicate NoneWillEnqueue(pushers: seq<Pusher>) {
    forall t :: 0 <= t < |pushers| ==> !pushers[t].WillEnqueue()
  }

  ghost predicate TerminalOk(terminal: Terminal, setter: Setter, accepting: bool, pushers: seq<Pusher>) {
    && (!setter.NoSetter? ==> terminal == NotEnded && setter.kind != NotEnded)
    && (accepting <==> terminal == NotEnded && (setter.NoSetter? || setter.Refusing?))
    && (BarrierPassed(terminal, setter) ==> NoneWillEnqueue(pushers))
  }

  /** No pusher through ingress `g` can still enqueue. */
  ghost predicate Quiet(pushers: seq<Pusher>, g: nat) {
    forall t :: 0 <= t < |pushers| && pushers[t].Committed() ==> pushers[t].ingress != Some(g)
  }

  ghost predicate DrainedOk(drained: set<nat>, ingresses: seq<Ingress>, pushers: seq<Pusher>) {
    forall g :: g in drained ==> g < |ingresses| && ingresses[g].retired && Quiet(pushers, g)
  }

  ghost predicate PusherOk(p: Pusher, ingresses: nat) {
    p.Push? ==>
      && (p.ingress.Some? ==> p.ingress.value < ingresses)
      && (p.phase == Evicting || p.phase == Retrying ==> p.WillEnqueue())
  }

  ghost predicate PushersOk(pushers: seq<Pusher>, ingresses: nat) {
    forall t :: 0 <= t < |pushers| ==> PusherOk(pushers[t], ingresses)
  }

  ghost predicate ReaderOk(r: Reader, terminal: Terminal, frames: seq<nat>) {
    match r
    case NoRead => true
    case Popping(saw) => saw == NotEnded || (saw == SessionFailed && terminal == SessionFailed)
    case Missed(saw) => saw == NotEnded || (saw == SessionFailed && terminal == SessionFailed && frames == [])
  }

  ghost predicate ReadersOk(readers: seq<Reader>, terminal: Terminal, frames: seq<nat>) {
    forall t :: 0 <= t < |readers| ==> ReaderOk(readers[t], terminal, frames)
  }

  ghost predicate Inv(q: Queue) {
    && q.capacity >= 2
    && IngressExists(q, q.current)
    && CountsOk(q.active, q.ingresses, q.pushers)
    && TerminalOk(q.terminal, q.setter, q.accepting, q.pushers)
    && DrainedOk(q.drained, q.ingresses, q.pushers)
    && PushersOk(q.pushers, |q.ingresses|)
    && ReadersOk(q.readers, q.terminal, q.frames)
  }

  // ----- Counting who is inside -----

  lemma {:induction false} CountChange(pushers: seq<Pusher>, t: nat, p: Pusher, g: Option<nat>)
    requires t < |pushers|
    ensures CountWithin(pushers[t := p], g) + (if pushers[t].Within(g) then 1 else 0)
         == CountWithin(pushers, g) + (if p.Within(g) then 1 else 0)
  {
    if t > 0 {
      CountChange(pushers[1..], t - 1, p, g);
      assert pushers[t := p][1..] == pushers[1..][t - 1 := p];
    } else {
      assert pushers[t := p][1..] == pushers[1..];
    }
  }

  lemma {:induction false} NobodyWithin(pushers: seq<Pusher>, g: Option<nat>)
    ensures CountWithin(pushers, g) == 0 <==> forall t :: 0 <= t < |pushers| ==> !pushers[t].Within(g)
  {
    if pushers != [] {
      NobodyWithin(pushers[1..], g);
      assert forall t :: 0 < t < |pushers| ==> pushers[t] == pushers[1..][t - 1];
    }
  }

  // ----- Every step keeps the invariant -----

  /** A pusher that enters and leaves no region moves no count. */
  lemma SameRegions(q: Queue, t: nat, p: Pusher)
    requires Inv(q) && t < |q.pushers| && q.pushers[t].Push? && p.Push? && p.ingress == q.pushers[t].ingress
    requires p.phase != Entered && p.phase != LeftIngress
    requires q.pushers[t].phase != Entered && q.pushers[t].phase != LeftIngress
    ensures CountsOk(q.active, q.ingresses, q.pushers[t := p])
  {
    CountChange(q.pushers, t, p, None);
    forall g | 0 <= g < |q.ingresses|
      ensures q.ingresses[g].active == CountWithin(q.pushers[t := p], Some(g))
    {
      CountChange(q.pushers, t, p, Some(g));
    }
  }

  /** Stepping into or out of one ingress's region. */
  lemma IngressRegion(q: Queue, t: nat, p: Pusher, g: Option<nat>, up: bool)
    requires Inv(q) && t < |q.pushers| && IngressExists(q, g)
    requires p.Within(None) == q.pushers[t].Within(None)
    requires forall h: nat :: q.pushers[t].Within(Some(h)) <==> !up && g == Some(h)
    requires forall h: nat :: p.Within(Some(h)) <==> up && g == Some(h)
    ensures CountsOk(q.active, Adjust(q, g, up).ingresses, q.pushers[t := p])
  {
    var ingresses := Adjust(q, g, up).ingresses;
    CountChange(q.pushers, t, p, None);
    forall h | 0 <= h < |ingresses|
      ensures ingresses[h].active == CountWithin(q.pushers[t := p], Some(h))
    {
      CountChange(q.pushers, t, p, Some(h));
    }
  }

  /** Stepping into or out of the queue's region. */
  lemma QueueRegion(q: Queue, t: nat, p: Pusher, up: bool)
    requires Inv(q) && t < |q.pushers| && p.Within(None) == up && q.pushers[t].Within(None) == !up
    requires forall h: nat :: q.pushers[t].Within(Some(h)) <==> p.Within(Some(h))
    ensures CountsOk(if up then q.active + 1 else if q.active > 0 then q.active - 1 else 0, q.ingresses, q.pushers[t := p])
  {
    CountChange(q.pushers, t, p, None);
    forall h | 0 <= h < |q.ingresses|
      ensures q.ingresses[h].active == CountWithin(q.pushers[t := p], Some(h))
    {
      CountChange(q.pushers, t, p, Some(h));
    }
  }

  /** A pusher may move to any state that is no more committed than it was. */
  lemma PusherMoves(q: Queue, t: nat, p: Pusher, ingresses: seq<Ingress>)
    requires Inv(q) && t < |q.pushers| && PusherOk(p, |q.ingresses|)
    requires |ingresses| == |q.ingresses| && forall g :: 0 <= g < |ingresses| ==> ingresses[g].retired == q.ingresses[g].retired
    requires p.WillEnqueue() ==> q.pushers[t].WillEnqueue() || q.accepting
    requires p.Committed() ==> q.pushers[t].Push? && p.ingress == q.pushers[t].ingress
    requires p.Committed() && !q.pushers[t].Committed() && p.ingress.Some? ==> !q.ingresses[p.ingress.value].retired
    ensures TerminalOk(q.terminal, q.setter, q.accepting, q.pushers[t := p])
    ensures DrainedOk(q.drained, ingresses, q.pushers[t := p])
    ensures PushersOk(q.pushers[t := p], |ingresses|)
  {
    forall g | g in q.drained
      ensures Quiet(q.pushers[t := p], g)
    {
      assert Quiet(q.pushers, g);
    }
  }

  lemma StartPushKeeps(q: Queue, t: nat, g: Option<nat>, frame: nat)
    requires Inv(q) && Enabled(q, StartPush(t, g, frame))
    ensures Inv(Apply(q, StartPush(t, g, frame)))
  {
    var p := Push(g, frame, Entered, false, false);
    IngressRegion(q, t, p, g, true);
    PusherMoves(q, t, p, Adjust(q, g, true).ingresses);
  }

  lemma EnterKeeps(q: Queue, t: nat)
    requires Inv(q) && Enabled(q, AdvancePush(t)) && q.pushers[t].phase == Entered
    ensures Inv(PushStep(q, t))
  {
    var p := q.pushers[t].(phase := Counted);
    assert PusherOk(q.pushers[t], |q.ingresses|);
    QueueRegion(q, t, p, true);
    PusherMoves(q, t, p, q.ingresses);
  }

  lemma LookKeeps(q: Queue, t: nat)
    requires Inv(q) && Enabled(q, AdvancePush(t)) && (q.pushers[t].phase == Counted || q.pushers[t].phase == Checked)
    ensures Inv(PushStep(q, t))
  {
    var p := PushStep(q, t).pushers[t];
    assert PusherOk(q.pushers[t], |q.ingresses|);
    SameRegions(q, t, p);
    PusherMoves(q, t, p, q.ingresses);
  }

  lemma TryKeeps(q: Queue, t: nat)
    requires Inv(q) && Enabled(q, AdvancePush(t)) && q.pushers[t].phase == Decided
    ensures Inv(PushStep(q, t))
  {
    var p := PushStep(q, t).pushers[t];
    assert PusherOk(q.pushers[t], |q.ingresses|);
    SameRegions(q, t, p);
    PusherMoves(q, t, p, q.ingresses);
    PushKeepsReaders(q, t);
  }

  lemma EvictKeeps(q: Queue, t: nat)
    requires Inv(q) && Enabled(q, AdvancePush(t)) && q.pushers[t].phase == Evicting
    ensures Inv(PushStep(q, t))
  {
    var p := PushStep(q, t).pushers[t];
    assert PusherOk(q.pushers[t], |q.ingresses|);
    SameRegions(q, t, p);
    PusherMoves(q, t, p, q.ingresses);
    PushKeepsReaders(q, t);
  }

  lemma RetryKeeps(q: Queue, t: nat)
    requires Inv(q) && Enabled(q, AdvancePush(t)) && q.pushers[t].phase == Retrying
    ensures Inv(PushStep(q, t))
  {
    var p := PushStep(q, t).pushers[t];
    assert PusherOk(q.pushers[t], |q.ingresses|);
    SameRegions(q, t, p);
    PusherMoves(q, t, p, q.ingresses);
    PushKeepsReaders(q, t);
  }

  lemma LeaveKeeps(q: Queue, t: nat)
    requires Inv(q) && Enabled(q, AdvancePush(t))
    requires q.pushers[t].phase == Leaving || q.pushers[t].phase == LeftIngress
    ensures Inv(PushStep(q, t))
  {
    var p, p' := q.pushers[t], PushStep(q, t).pushers[t];
    assert PusherOk(p, |q.ingresses|);
    if p.phase == Leaving {
      IngressRegion(q, t, p', p.ingress, false);
      PusherMoves(q, t, p', Adjust(q, p.ingress, false).ingresses);
    } else {
      QueueRegion(q, t, p', false);
      PusherMoves(q, t, p', q.ingresses);
    }
  }

  lemma AdvancePushKeeps(q: Queue, t: nat)
    requires Inv(q) && Enabled(q, AdvancePush(t))
    ensures Inv(PushStep(q, t))
  {
    match q.pushers[t].phase {
      case Entered => EnterKeeps(q, t);
      case Counted => LookKeeps(q, t);
      case Checked => LookKeeps(q, t);
      case Leaving => LeaveKeeps(q, t);
      case LeftIngress => LeaveKeeps(q, t);
      case Decided => TryKeeps(q, t);
      case Evicting => EvictKeeps(q, t);
      case Retrying => RetryKeeps(q, t);
    }
  }

  /** Frames only arrive while no reader relies on there being none. */
  lemma PushKeepsReaders(q: Queue, t: nat)
    requires Inv(q) && Enabled(q, AdvancePush(t))
    ensures ReadersOk(q.readers, q.terminal, PushStep(q, t).frames)
  {
    assert PusherOk(q.pushers[t], |q.ingresses|);
    forall u | 0 <= u < |q.readers|
      ensures ReaderOk(q.readers[u], q.terminal, PushStep(q, t).frames)
    {
      assert ReaderOk(q.readers[u], q.terminal, q.frames);
    }
  }

  lemma MakeIngressKeeps(q: Queue)
    requires Inv(q) && Enabled(q, MakeIngress)
    ensures Inv(Apply(q, MakeIngress))
  {
    forall t | 0 <= t < |q.pushers|
      ensures !q.pushers[t].Within(Some(|q.ingresses|))
    {
      assert PusherOk(q.pushers[t], |q.ingresses|);
    }
    NobodyWithin(q.pushers, Some(|q.ingresses|));
    assert PushersOk(q.pushers, |q.ingresses| + 1) by {
      assert forall t :: 0 <= t < |q.pushers| ==> PusherOk(q.pushers[t], |q.ingresses|);
    }
  }

  lemma RetireReturnsKeeps(q: Queue, g: nat)
    requires Inv(q) && Enabled(q, RetireReturns(g))
    ensures Inv(Apply(q, RetireReturns(g)))
  {
    NobodyWithin(q.pushers, Some(g));
    assert Quiet(q.pushers, g);
  }

  lemma TerminalReaders(q: Queue)
    requires Inv(q) && Enabled(q, AdvanceTerminal)
    ensures ReadersOk(q.readers, TerminalStep(q).terminal, TerminalStep(q).frames)
  {
    var q' := TerminalStep(q);
    forall u | 0 <= u < |q.readers|
      ensures ReaderOk(q.readers[u], q'.terminal, q'.frames)
    {
      assert ReaderOk(q.readers[u], q.terminal, q.frames);
    }
  }

  /** Once the counter is down, nobody inside has seen the queue accepting. */
  lemma TerminalBarrier(q: Queue)
    requires Inv(q) && Enabled(q, AdvanceTerminal)
    ensures var q' := TerminalStep(q); TerminalOk(q'.terminal, q'.setter, q'.accepting, q.pushers)
  {
    NobodyWithin(q.pushers, None);
  }

  lemma TerminalStepKeeps(q: Queue)
    requires Inv(q) && Enabled(q, AdvanceTerminal)
    ensures Inv(TerminalStep(q))
  {
    TerminalReaders(q);
    TerminalBarrier(q);
  }

  /** A read changes frames and readers only, and takes a frame off at most. */
  lemma ReadersAfter(q: Queue, step: Step)
    requires Inv(q) && Enabled(q, step) && (step.StartRead? || step.AdvanceRead? || step.DiscardOne?)
    ensures ReadersOk(Apply(q, step).readers, q.terminal, Apply(q, step).frames)
  {
    var q' := Apply(q, step);
    forall u | 0 <= u < |q.readers|
      ensures ReaderOk(q'.readers[u], q.terminal, q'.frames)
    {
      assert ReaderOk(q.readers[u], q.terminal, q.frames);
    }
  }

  lemma ReadStepKeeps(q: Queue, step: Step)
    requires Inv(q) && Enabled(q, step) && (step.StartRead? || step.AdvanceRead? || step.DiscardOne?)
    ensures Inv(Apply(q, step))
  {
    ReadersAfter(q, step);
    var q' := Apply(q, step);
    assert q' == q.(frames := q'.frames, readers := q'.readers, taken := q'.taken);
  }

  lemma StepKeeps(q: Queue, step: Step)
    requires Inv(q) && Enabled(q, step)
    ensures Inv(Apply(q, step))
  {
    match step {
      case StartPush(t, g, frame) => StartPushKeeps(q, t, g, frame);
      case AdvancePush(t) => AdvancePushKeeps(q, t);
      case MakeIngress => MakeIngressKeeps(q);
      case RetireIngress =>
      case RetireReturns(g) => RetireReturnsKeeps(q, g);
      case BeginTerminal(_) =>
      case AdvanceTerminal => TerminalStepKeeps(q);
      case StartRead(_) => ReadStepKeeps(q, step);
      case AdvanceRead(_) => ReadStepKeeps(q, step);
      case DiscardOne => ReadStepKeeps(q, step);
    }
  }

  lemma {:induction false} RunKeeps(q: Queue, steps: seq<Step>)
    requires Inv(q) && Legal(q, steps)
    ensures Inv(Run(q, steps))
    decreases |steps|
  {
    if steps != [] {
      StepKeeps(q, steps[0]);
      RunKeeps(Apply(q, steps[0]), steps[1..]);
    }
  }

  lemma ReachableHolds(q: Queue)
    requires Reachable(q)
    ensures Inv(q)
  {
    var capacity: nat, dropOldest: bool, pushers: nat, readers: nat, steps :|
      capacity >= 2 && Legal(Start(capacity, dropOldest, pushers, readers), steps)
      && Run(Start(capacity, dropOldest, pushers, readers), steps) == q;
    NobodyWithin(Start(capacity, dropOldest, pushers, readers).pushers, None);
    RunKeeps(Start(capacity, dropOldest, pushers, readers), steps);
  }

  // ----- Main results -----

  /** Once retiring an ingress has returned, no push through it enqueues again. */
  lemma RetiredIngressIsQuiet(q: Queue, step: Step, t: nat, g: nat)
    requires Reachable(q) && g in q.drained && step == AdvancePush(t) && Enabled(q, step)
    requires q.pushers[t].ingress == Some(g)
    ensures |Apply(q, step).frames| <= |q.frames|
  {
    ReachableHolds(q);
    assert PusherOk(q.pushers[t], |q.ingresses|);
  }

  lemma StepKeepsTerminal(q: Queue, step: Step)
    requires Inv(q) && Enabled(q, step) && q.terminal != NotEnded
    ensures Apply(q, step).terminal == q.terminal
  {
  }

  /** The terminal is written at most once. */
  lemma {:induction false} TerminalWrittenOnce(q: Queue, steps: seq<Step>)
    requires Inv(q) && Legal(q, steps) && q.terminal != NotEnded
    ensures Run(q, steps).terminal == q.terminal
    decreases |steps|
  {
    if steps != [] {
      StepKeeps(q, steps[0]);
      StepKeepsTerminal(q, steps[0]);
      TerminalWrittenOnce(Apply(q, steps[0]), steps[1..]);
    }
  }

  /** `later` is `earlier` after readers took some frames off the front, in order. */
  ghost predicate OnlyRead(earlier: Queue, later: Queue) {
    earlier.taken <= later.taken && earlier.taken + earlier.frames == later.taken + later.frames
  }

  lemma OnlyReadTotals(earlier: Queue, later: Queue)
    ensures OnlyRead(earlier, later) ==> |earlier.taken| + |earlier.frames| == |later.taken| + |later.frames|
  {
    assert |earlier.taken + earlier.frames| == |earlier.taken| + |earlier.frames|;
    assert |later.taken + later.frames| == |later.taken| + |later.frames|;
  }

  lemma StepOnlyReads(q: Queue, step: Step)
    requires Inv(q) && Enabled(q, step) && q.terminal == SessionFailed && step != DiscardOne
    ensures OnlyRead(q, Apply(q, step))
  {
    if step.AdvancePush? {
      assert PusherOk(q.pushers[step.t], |q.ingresses|);
    }
    if q.frames != [] {
      assert q.taken + q.frames == (q.taken + [q.frames[0]]) + q.frames[1..];
    }
  }

  /** After SessionFailed is stored nothing is enqueued or evicted: over any run in
      which the owner discards nothing, the frames left then are exactly what readers
      take from then on, in order, followed by what is still queued. */
  lemma {:induction false} NothingEnqueuedAfterFailure(q: Queue, steps: seq<Step>)
    requires Inv(q) && Legal(q, steps) && q.terminal == SessionFailed && DiscardOne !in steps
    ensures OnlyRead(q, Run(q, steps))
    decreases |steps|
  {
    if steps != [] {
      StepKeeps(q, steps[0]);
      StepKeepsTerminal(q, steps[0]);
      StepOnlyReads(q, steps[0]);
      assert DiscardOne !in steps[1..];
      NothingEnqueuedAfterFailure(Apply(q, steps[0]), steps[1..]);
    }
  }

  /** How many times the owner's discard loop takes a frame off. */
  ghost function Discards(steps: seq<Step>): nat {
    if steps == [] then 0 else (if steps[0].DiscardOne? then 1 else 0) + Discards(steps[1..])
  }

  lemma {:induction false} DiscardsSome(steps: seq<Step>)
    ensures Discards(steps) > 0 <==> DiscardOne in steps
  {
    if steps != [] {
      DiscardsSome(steps[1..]);
      assert steps == [steps[0]] + steps[1..];
    }
  }

  /** After the failure a frame is gone exactly for each turn of a discard. */
  lemma {:induction false} DiscardsLoseFrames(q: Queue, steps: seq<Step>)
    requires Inv(q) && Legal(q, steps) && q.terminal == SessionFailed
    ensures var q' := Run(q, steps); |q'.taken| + |q'.frames| + Discards(steps) == |q.taken| + |q.frames|
    decreases |steps|
  {
    if steps != [] {
      var q1 := Apply(q, steps[0]);
      StepKeeps(q, steps[0]);
      StepKeepsTerminal(q, steps[0]);
      if steps[0] != DiscardOne {
        StepOnlyReads(q, steps[0]);
        assert |q.taken + q.frames| == |q1.taken + q1.frames|;
      }
      DiscardsLoseFrames(q1, steps[1..]);
    }
  }

  /** From any state some run reaches with the failure stored: the failure stays, and
      every frame left is there for readers if and only if the owner calls no discard
      that finds one. */
  lemma AfterFailure(q: Queue, steps: seq<Step>)
    requires Reachable(q) && q.terminal == SessionFailed && Legal(q, steps)
    ensures Run(q, steps).terminal == SessionFailed
    ensures OnlyRead(q, Run(q, steps)) <==> DiscardOne !in steps
  {
    ReachableHolds(q);
    TerminalWrittenOnce(q, steps);
    if DiscardOne !in steps {
      NothingEnqueuedAfterFailure(q, steps);
    } else {
      DiscardsSome(steps);
      DiscardsLoseFrames(q, steps);
      OnlyReadTotals(q, Run(q, steps));
    }
  }

  /** Every other waiting terminal also shuts the queue before it shows. */
  lemma NothingEnqueuedAfterBarrier(q: Queue, step: Step)
    requires Reachable(q) && Enabled(q, step) && q.terminal != NotEnded && q.terminal != Interrupted
    ensures |Apply(q, step).frames| <= |q.frames|
  {
    ReachableHolds(q);
    if step.AdvancePush? {
      assert PusherOk(q.pushers[step.t], |q.ingresses|);
    }
  }

  /** The read `t` is about to report is a failure. */
  predicate AboutToReportFailure(q: Queue, t: nat) {
    t < |q.readers| && q.readers[t].Missed? && q.terminal == SessionFailed
  }

  /** A read that began after the failure was stored reports it only with nothing
      left to claim. */
  lemma FailureReportedWhenEmpty(q: Queue, t: nat)
    requires Reachable(q) && AboutToReportFailure(q, t) && q.readers[t].saw == SessionFailed
    ensures q.frames == []
  {
    ReachableHolds(q);
    assert ReaderOk(q.readers[t], q.terminal, q.frames);
  }

  // ----- A read that began earlier can report the failure over a frame -----

  /** A run that leaves reader `t` where it is. */
  ghost predicate Going(q: Queue, steps: seq<Step>, now: Queue, t: nat) {
    && Legal(q, steps) && Run(q, steps) == now && Inv(now)
    && StartRead(t) !in steps && AdvanceRead(t) !in steps
    && now.readers == q.readers
  }

  lemma {:induction false} RunExtends(q: Queue, steps: seq<Step>, step: Step)
    requires Legal(q, steps) && Enabled(Run(q, steps), step)
    ensures Legal(q, steps + [step]) && Run(q, steps + [step]) == Apply(Run(q, steps), step)
    decreases |steps|
  {
    if steps == [] {
      assert [step][1..] == [];
      assert Legal(Apply(q, step), []) && Run(Apply(q, step), []) == Apply(q, step);
    } else {
      assert (steps + [step])[1..] == steps[1..] + [step];
      RunExtends(Apply(q, steps[0]), steps[1..], step);
    }
  }

  lemma Go(q: Queue, steps: seq<Step>, now: Queue, t: nat, step: Step) returns (steps': seq<Step>)
    requires Going(q, steps, now, t) && Enabled(now, step) && !step.StartRead? && !step.AdvanceRead?
    ensures Going(q, steps', Apply(now, step), t)
  {
    RunExtends(q, steps, step);
    StepKeeps(now, step);
    ReadersStay(now, step);
    steps' := steps + [step];
  }

  lemma ReadersStay(q: Queue, step: Step)
    requires Enabled(q, step) && !step.StartRead? && !step.AdvanceRead?
    ensures Apply(q, step).readers == q.readers
  {
  }

  /** How many accesses a push still has before it. */
  function Left(p: Pusher): nat {
    if p.NoPush? then 0
    else match p.phase
      case Entered => 8
      case Counted => 7
      case Checked => 6
      case Decided => 5
      case Evicting => 4
      case Retrying => 3
      case Leaving => 2
      case LeftIngress => 1
  }

  /** Everything but the counts, the frames and one pusher. */
  ghost predicate OnlyPushed(q: Queue, q': Queue, u: nat) {
    && q'.terminal == q.terminal && q'.setter == q.setter && |q'.pushers| == |q.pushers|
    && forall v :: 0 <= v < |q.pushers| && v != u ==> q'.pushers[v] == q.pushers[v]
  }

  /** An access of a push is always possible, and brings its end closer. */
  lemma PushMoves(q: Queue, u: nat)
    requires Inv(q) && u < |q.pushers| && q.pushers[u].Push?
    ensures Enabled(q, AdvancePush(u))
    ensures OnlyPushed(q, Apply(q, AdvancePush(u)), u)
    ensures Left(Apply(q, AdvancePush(u)).pushers[u]) < Left(q.pushers[u])
  {
    assert PusherOk(q.pushers[u], |q.ingresses|);
    PushComesCloser(q, u);
  }

  lemma TryComesCloser(q: Queue, u: nat, onFull: Phase)
    requires u < |q.pushers| && q.pushers[u].Push?
    ensures |TryEnqueue(q, u, onFull).pushers| == |q.pushers|
    ensures var p := q.pushers[u];
      TryEnqueue(q, u, onFull).pushers[u] == p.(phase := if |q.frames| < q.capacity then Leaving else onFull)
  {
  }

  lemma PushComesCloser(q: Queue, u: nat)
    requires u < |q.pushers| && q.pushers[u].Push? && IngressExists(q, q.pushers[u].ingress)
    ensures u < |PushStep(q, u).pushers| && Left(PushStep(q, u).pushers[u]) < Left(q.pushers[u])
  {
    match q.pushers[u].phase {
      case Decided => TryComesCloser(q, u, if q.dropOldest then Evicting else Leaving);
      case Retrying => TryComesCloser(q, u, Leaving);
      case _ =>
    }
  }

  /** Where an unhindered push through no ingress into an empty queue stands. */
  ghost predicate Carries(q: Queue, u: nat, frame: nat)
    requires u < |q.pushers|
  {
    var p := q.pushers[u];
    if p.NoPush? || p.phase == Leaving || p.phase == LeftIngress then q.frames == [frame]
    else
      && q.frames == [] && p.ingress.None? && p.frame == frame && p.phase != Evicting && p.phase != Retrying
      && (p.phase == Checked || p.phase == Decided ==> p.current) && (p.phase == Decided ==> p.accepting)
  }

  lemma CarriesOn(q: Queue, u: nat, frame: nat)
    requires Inv(q) && u < |q.pushers| && q.pushers[u].Push? && Carries(q, u, frame) && q.accepting
    requires Enabled(q, AdvancePush(u))
    ensures Carries(Apply(q, AdvancePush(u)), u, frame) && Apply(q, AdvancePush(u)).accepting
  {
  }

  /** Let push `u` run to its end. */
  lemma FinishPush(q: Queue, steps: seq<Step>, now: Queue, t: nat, u: nat) returns (steps': seq<Step>, now': Queue)
    requires Going(q, steps, now, t) && u < |now.pushers| && now.accepting
    ensures Going(q, steps', now', t) && OnlyPushed(now, now', u) && now'.pushers[u].NoPush? && now'.accepting
    ensures forall frame: nat :: Carries(now, u, frame) ==> Carries(now', u, frame)
  {
    steps', now' := steps, now;
    while now'.pushers[u].Push?
      invariant Going(q, steps', now', t) && OnlyPushed(now, now', u) && now'.accepting
      invariant forall frame: nat :: Carries(now, u, frame) ==> Carries(now', u, frame)
      decreases Left(now'.pushers[u])
    {
      PushMoves(now', u);
      forall frame: nat | Carries(now', u, frame)
        ensures Carries(Apply(now', AdvancePush(u)), u, frame)
      {
        CarriesOn(now', u, frame);
      }
      steps' := Go(q, steps', now', t, AdvancePush(u));
      now' := Apply(now', AdvancePush(u));
    }
  }

  /** Let every push under way run to its end. */
  lemma FinishPushes(q: Queue, steps: seq<Step>, now: Queue, t: nat) returns (steps': seq<Step>, now': Queue)
    requires Going(q, steps, now, t) && now.accepting
    ensures Going(q, steps', now', t) && now'.terminal == now.terminal && now'.setter == now.setter && now'.accepting
    ensures |now'.pushers| == |now.pushers| && (now.pushers == [] ==> now' == now)
    ensures forall v :: 0 <= v < |now'.pushers| ==> now'.pushers[v].NoPush?
  {
    steps', now' := steps, now;
    var u := 0;
    while u < |now.pushers|
      invariant 0 <= u <= |now.pushers| == |now'.pushers| && Going(q, steps', now', t) && now'.accepting
      invariant now'.terminal == now.terminal && now'.setter == now.setter
      invariant forall v :: 0 <= v < u ==> now'.pushers[v].NoPush?
      invariant u == 0 ==> now' == now
    {
      steps', now' := FinishPush(q, steps', now', t, u);
      u := u + 1;
    }
  }

  /** Put a frame into the queue if there is none. */
  lemma Fill(q: Queue, steps: seq<Step>, now: Queue, t: nat) returns (steps': seq<Step>, now': Queue)
    requires Going(q, steps, now, t) && now.accepting && (now.pushers != [] || now.frames != [])
    requires forall v :: 0 <= v < |now.pushers| ==> now.pushers[v].NoPush?
    ensures Going(q, steps', now', t) && now'.terminal == now.terminal && now'.setter == now.setter
    ensures now'.frames != [] && forall v :: 0 <= v < |now'.pushers| ==> now'.pushers[v].NoPush?
  {
    steps', now' := steps, now;
    if now'.frames == [] {
      steps' := Go(q, steps', now', t, StartPush(0, None, 0));
      now' := Apply(now', StartPush(0, None, 0));
      assert Carries(now', 0, 0);
      steps', now' := FinishPush(q, steps', now', t, 0);
      assert Carries(now', 0, 0);
    }
  }

  /** With no push under way, the failure is stored without waiting. */
  lemma StoreFailure(q: Queue, steps: seq<Step>, now: Queue, t: nat) returns (steps': seq<Step>, now': Queue)
    requires Going(q, steps, now, t) && now.terminal.NotEnded? && now.setter.NoSetter?
    requires forall v :: 0 <= v < |now.pushers| ==> now.pushers[v].NoPush?
    ensures Going(q, steps', now', t) && now'.terminal == SessionFailed && now'.frames == now.frames
  {
    NobodyWithin(now.pushers, None);
    steps' := Go(q, steps, now, t, BeginTerminal(SessionFailed));
    now' := Apply(now, BeginTerminal(SessionFailed));
    steps' := Go(q, steps', now', t, AdvanceTerminal);
    now' := Apply(now', AdvanceTerminal);
    steps' := Go(q, steps', now', t, AdvanceTerminal);
    now' := Apply(now', AdvanceTerminal);
    steps' := Go(q, steps', now', t, AdvanceTerminal);
    now' := Apply(now', AdvanceTerminal);
  }

  /** From every state in which a read has found the queue empty before any terminal,
      a frame can be pushed and the failure stored before the read looks again: it
      then reports the failure past that frame. */
  lemma EarlyReadCanMissFrame(q: Queue, t: nat) returns (steps: seq<Step>)
    requires Reachable(q) && t < |q.readers| && q.readers[t].Missed?
    requires q.terminal.NotEnded? && q.setter.NoSetter? && (q.pushers != [] || q.frames != [])
    ensures Legal(q, steps) && StartRead(t) !in steps && AdvanceRead(t) !in steps
    ensures AboutToReportFailure(Run(q, steps), t) && Run(q, steps).frames != []
  {
    ReachableHolds(q);
    var now;
    steps, now := FinishPushes(q, [], q, t);
    steps, now := Fill(q, steps, now, t);
    steps, now := StoreFailure(q, steps, now, t);
  }

  /** Such a state is reached on every queue with a pusher and a reader. */
  lemma EarlyReadMissesFrame(capacity: nat, dropOldest: bool, pushers: nat, readers: nat, t: nat) returns (q: Queue)
    requires capacity >= 2 && pushers > 0 && t < readers
    ensures Reachable(q) && AboutToReportFailure(q, t) && q.frames != []
  {
    var start := Start(capacity, dropOldest, pushers, readers);
    var begun := Apply(start, StartRead(t));
    var missed := Apply(begun, AdvanceRead(t));
    RunExtends(start, [], StartRead(t));
    RunExtends(start, [] + [StartRead(t)], AdvanceRead(t));
    var before := [] + [StartRead(t)] + [AdvanceRead(t)];
    assert Reachable(missed);
    var steps := EarlyReadCanMissFrame(missed, t);
    RunsCompose(start, before, steps);
    q := Run(missed, steps);
  }

  lemma {:induction false} RunsCompose(q: Queue, a: seq<Step>, b: seq<Step>)
    requires Legal(q, a) && Legal(Run(q, a), b)
    ensures Legal(q, a + b) && Run(q, a + b) == Run(Run(q, a), b)
    decreases |a|
  {
    if a == [] {
      assert a + b == b;
    } else {
      assert (a + b)[0] == a[0] && (a + b)[1..] == a[1..] + b;
      RunsCompose(Apply(q, a[0]), a[1..], b);
    }
  }
}
