/** The publisher's slot ownership and fan-out as a step system.

    A producer slot moves from the free list to a caller's handle, to the publish
    queue, to the per-session references a fan-out takes, and back.  Application
    threads publish in four separate steps (see a session armed, decide under the
    reservation flag, push, count), the engine visits one session per step, and
    control threads may end a session between any two of them. */
module FanOut {
  import opened Base
  import opened Credit
  import opened Sessions

  /** A frame waiting in the publish queue; ordinals count accepted frames. */
  datatype Item = Item(slot: nat, ordinal: nat)

  /** One client's window over the stream.  `inflight` is indexed by
      `sequence % depth`.  `clean` and `steady` are history: when its admission
      limit took effect every frame already claimed fitted its window, and no send
      to it has failed since; `base` is the ordinal its sequence zero carried. */
  datatype Session = Session(state: SessionState, window: Window, inflight: seq<Item>,
                             processed: nat, dropped: nat,
                             clean: bool, steady: bool, base: nat)
  {
    predicate Sound() {
      |inflight| > 0 && window.credited <= window.next
    }

    predicate Eligible() {
      state == Armed || state == Active
    }

    function At(sequence: nat): Item
      requires |inflight| > 0
    {
      inflight[sequence % |inflight|]
    }

    /** The frames this session has not credited, oldest first. */
    function Outstanding(): seq<Item>
      requires Sound()
    {
      seq(window.next - window.credited, k requires 0 <= k => At(window.credited + k))
    }

    /** How far this session has got, in publisher ordinals. */
    function Retired(): nat
      requires Sound()
    {
      if window.next == window.credited then processed else At(window.credited).ordinal
    }

    /** The send was accepted: the frame takes the next sequence. */
    function Submitted(item: Item): Session
      requires |inflight| > 0
    {
      this.(inflight := inflight[window.next % |inflight| := item],
            window := window.NoteSubmitted(),
            state := if state == Armed then Active else state,
            base := if window.next == 0 then item.ordinal else base)
    }

    /** The send was refused: no sequence is used, and the session is ending. */
    function SendFailed(item: Item, claimedElsewhere: bool): Session
      requires |inflight| > 0
    {
      this.(inflight := inflight[window.next % |inflight| := item],
            state := if claimedElsewhere then state else Expiring,
            steady := false)
    }

    /** What a fan-out visit does, and whether the frame took a reference.
        `raced` says the session was ended after its eligibility was read, so the
        frame is still submitted to it. */
    function Visited(item: Item, sent: bool, claimedElsewhere: bool, raced: bool): (Session, bool)
      requires Sound()
    {
      var seen := this.(processed := item.ordinal + 1);
      if !Eligible() && !(raced && state == Expiring) then (this, false)
      else if !window.CanSubmit() then (seen.(dropped := dropped + 1), false)
      else if sent then (seen.Submitted(item), true)
      else (seen.SendFailed(item, claimedElsewhere), false)
    }
  }

  /** The producer slots: reference counts and the free list.  `fault` records an
      assertion of the code that would have fired. */
  datatype Pool = Pool(refs: seq<nat>, free: seq<nat>, fault: bool) {

    /** Hand a slot back to the free list, which holds one entry per slot. */
    function Return(slot: nat): Pool {
      if |free| < |refs| then this.(free := free + [slot]) else this.(fault := true)
    }

    /** Drop one reference; the slot goes back at zero. */
    function Release(slot: nat): Pool {
      if slot >= |refs| || refs[slot] == 0 then this.(fault := true)
      else
        var p := this.(refs := refs[slot := refs[slot] - 1]);
        if p.refs[slot] == 0 then p.Return(slot) else p
    }

    function ReleaseAll(items: seq<Item>): Pool
      decreases |items|
    {
      if items == [] then this else Release(items[0].slot).ReleaseAll(items[1..])
    }
  }

  /** Where a publish call on an application thread has got to. */
  datatype Publishing = NoPublish | Decided(slot: nat, ordinal: nat) | Pushed

  /** What the engine thread is in the middle of: nothing, a fan-out, or arming a
      seat (the state exchanged, and perhaps the publish count read). */
  datatype Fanning = Idle | Visiting(item: Item, next: nat) | Arming(seat: nat, counted: bool)

  datatype Config = Config(depth: nat, window: nat, queueCapacity: nat, allActive: bool) {
    /** Two places or more make the publish queue a queue. */
    predicate Valid() {
      1 <= window <= depth && 2 <= queueCapacity
    }
  }

  /** `entered` are the handles whose publish call has seen an armed session and has
      yet to try for the reservation flag. */
  datatype Publisher = Publisher(config: Config, pool: Pool, handles: set<nat>, entered: set<nat>, queue: seq<Item>,
                                 sessions: seq<Session>, fanning: Fanning, publishing: Publishing,
                                 admitted: nat, credited: nat, limit: nat, armed: nat)

  // ----- Ordinals -----

  /** The ordinal the next queued frame will carry. */
  function NextOrdinal(p: Publisher): nat {
    p.admitted + (if p.publishing.Pushed? then 1 else 0)
  }

  /** One past the last ordinal a publish call has claimed. */
  function Claimed(p: Publisher): nat {
    NextOrdinal(p) + (if p.publishing.Decided? then 1 else 0)
  }

  /** The ordinal of the next frame to leave the queue. */
  function Front(p: Publisher): int {
    NextOrdinal(p) - |p.queue|
  }

  /** A session starting now can take every frame claimed so far; and the limit
      its publish count sets admits none it could not take, because the count is
      not ahead of the queue or the queue is too short for that to matter. */
  predicate StartsWithin(p: Publisher, s: Session) {
    && Claimed(p) <= Front(p) + s.window.width
    && (s.processed <= Front(p) || p.config.queueCapacity + 2 <= s.window.width)
  }

  // ----- Gauges -----

  predicate AllSound(ss: seq<Session>) {
    forall s :: s in ss ==> s.Sound()
  }

  function Armeds(ss: seq<Session>): nat {
    if ss == [] then 0 else (if ss[0].Eligible() then 1 else 0) + Armeds(ss[1..])
  }

  /** The first ordinal AllActive may not admit. */
  function StrictLimit(ss: seq<Session>): (limit: nat)
    requires AllSound(ss)
    ensures limit <= MAX64
  {
    if ss == [] then MAX64
    else
      var rest := StrictLimit(ss[1..]);
      if ss[0].Eligible() then Min(ss[0].Retired() + ss[0].window.width, rest) else rest
  }

  function Best(ss: seq<Session>): nat
    requires AllSound(ss)
  {
    if ss == [] then 0
    else if ss[0].Eligible() then Max(ss[0].Retired(), Best(ss[1..])) else Best(ss[1..])
  }

  function Worst(ss: seq<Session>, admitted: nat): (worst: nat)
    requires AllSound(ss)
    ensures worst <= admitted
  {
    if ss == [] then admitted
    else if ss[0].Eligible() then Min(ss[0].Retired(), Worst(ss[1..], admitted)) else Worst(ss[1..], admitted)
  }

  /** Every session's ring has the publisher's depth and its window fits it. */
  ghost predicate TableShaped(depth: nat, ss: seq<Session>) {
    forall s :: s in ss ==> |s.inflight| == depth && s.window.Valid() && s.window.width <= depth
  }

  ghost predicate Shaped(p: Publisher) {
    && p.config.Valid()
    && |p.pool.refs| == p.config.depth
    && TableShaped(p.config.depth, p.sessions)
  }

  /** Recompute the admission gauges from the session table. */
  function Refresh(p: Publisher): Publisher
    requires AllSound(p.sessions)
  {
    var armed := Armeds(p.sessions);
    p.(armed := armed,
       credited := if armed == 0 then p.admitted
                   else if p.config.allActive then Worst(p.sessions, p.admitted)
                   else Best(p.sessions),
       limit := if armed == 0 then MAX64 else StrictLimit(p.sessions))
  }

  // ----- Steps -----

  datatype Step =
    | Acquire
    | DropHandle(slot: nat)
    | RejectNoSession(slot: nat)
    | Enter(slot: nat)
    | Busy(slot: nat)
    | Decide(slot: nat)
    | Push
    | Count
    | BeginFanOut
    | Visit(sent: bool, claimedElsewhere: bool, raced: bool)
    | EndFanOut
    | Credit(j: nat, ack: nat)
    | Open(j: nat, width: nat)
    | Arm(j: nat)
    | LoadCount
    | StoreGauges
    | End(j: nat)
    | Teardown(j: nat)

  /** A publish call is under way with this handle. */
  predicate Reserved(p: Publisher, slot: nat) {
    slot in p.entered || (p.publishing.Decided? && p.publishing.slot == slot)
  }

  ghost predicate Enabled(p: Publisher, step: Step) {
    && Shaped(p)
    && match step
       case Acquire => p.pool.free != []
       case DropHandle(i) => i in p.handles && !Reserved(p, i)
       case RejectNoSession(i) => i in p.handles && p.armed == 0 && !Reserved(p, i)
       case Enter(i) => i in p.handles && p.armed > 0 && !Reserved(p, i)
       case Busy(i) => i in p.entered
       case Decide(i) => i in p.entered && i in p.handles && p.publishing == NoPublish
       case Push => p.publishing.Decided?
       case Count => p.publishing.Pushed?
       case BeginFanOut => p.fanning.Idle? && p.queue != [] && p.queue[0].slot < p.config.depth
       case Visit(_, _, _) =>
         && p.fanning.Visiting? && p.fanning.next < |p.sessions| && p.fanning.item.slot < p.config.depth
         && p.sessions[p.fanning.next].window.next < MAX64           // sequences never wrap
       case EndFanOut => p.fanning.Visiting? && p.fanning.next == |p.sessions|
       case Credit(j, _) => p.fanning.Idle? && j < |p.sessions| && Live(p.sessions[j].state)
       case Open(j, width) =>
         && j < |p.sessions| && Seatable(p.sessions[j].state) && 1 <= width <= p.config.window
       case Arm(j) => p.fanning.Idle? && j < |p.sessions| && p.sessions[j].state == SessionState.Open
       case LoadCount => p.fanning.Arming? && !p.fanning.counted && p.fanning.seat < |p.sessions|
       case StoreGauges => p.fanning.Arming? && p.fanning.counted && p.fanning.seat < |p.sessions|
       case End(j) => j < |p.sessions| && Live(p.sessions[j].state)
       case Teardown(j) => p.fanning.Idle? && j < |p.sessions| && p.sessions[j].state == Expiring
  }

  /** Give a handle's slot back to the free list. */
  function ResetHandle(p: Publisher, slot: nat): Publisher {
    p.(handles := p.handles - {slot}, pool := p.pool.Return(slot))
  }

  /** The admission decision, made while holding the reservation flag. */
  function DecideAdmission(p: Publisher, slot: nat): Publisher {
    var left := Leave(p, slot);
    if p.config.allActive && p.admitted >= p.limit then left         // would block: the lease stays
    else if !p.config.allActive && p.admitted >= p.credited + p.config.window
    then ResetHandle(left, slot)                                     // credit stalled: dropped
    else left.(publishing := Decided(slot, p.admitted))
  }

  /** The call is no longer on its way to the reservation flag. */
  function Leave(p: Publisher, slot: nat): Publisher {
    p.(entered := p.entered - {slot})
  }

  /** One turn of the fan-out loop. */
  function VisitSession(p: Publisher, j: nat, item: Item,
                        sent: bool, claimedElsewhere: bool, raced: bool): Publisher
    requires j < |p.sessions| && p.sessions[j].Sound() && item.slot < |p.pool.refs|
  {
    var (s, took) := p.sessions[j].Visited(item, sent, claimedElsewhere, raced);
    p.(sessions := p.sessions[j := s],
       pool := if took then p.pool.(refs := p.pool.refs[item.slot := p.pool.refs[item.slot] + 1]) else p.pool)
  }

  /** Apply a cumulative credit and release what it covers. */
  function CreditSession(p: Publisher, j: nat, ack: nat): Publisher
    requires Shaped(p) && j < |p.sessions|
  {
    var s := p.sessions[j];
    var (w, _, released) := s.window.ApplyCredit(ack);
    if released == 0 then p
    else
      Refresh(p.(sessions := p.sessions[j := s.(window := w)],
                 pool := p.pool.ReleaseAll(s.Outstanding()[..released])))
  }

  /** Release everything an ended session still holds and retire its seat. */
  function TeardownSession(p: Publisher, j: nat): Publisher
    requires Shaped(p) && j < |p.sessions|
  {
    var s := p.sessions[j];
    Refresh(p.(sessions := p.sessions[j := s.(window := Window(s.window.width, 0, 0), state := Closed,
                                              processed := 0, dropped := 0)],
               pool := p.pool.ReleaseAll(s.Outstanding())))
  }

  ghost function Apply(p: Publisher, step: Step): Publisher
    requires Enabled(p, step)
  {
    match step
    case Acquire => p.(handles := p.handles + {p.pool.free[0]}, pool := p.pool.(free := p.pool.free[1..]))
    case DropHandle(i) => ResetHandle(p, i)
    case RejectNoSession(i) => ResetHandle(p, i)
    case Enter(i) => p.(entered := p.entered + {i})
    case Busy(i) => Leave(p, i)                                      // another call holds the flag
    case Decide(i) => DecideAdmission(p, i)
    case Push =>
      if |p.queue| < p.config.queueCapacity then
        p.(queue := p.queue + [Item(p.publishing.slot, p.publishing.ordinal)],
           handles := p.handles - {p.publishing.slot}, publishing := Pushed)
      else p.(publishing := NoPublish)
    case Count => p.(admitted := p.admitted + 1, publishing := NoPublish)
    case BeginFanOut =>
      p.(queue := p.queue[1..], fanning := Visiting(p.queue[0], 0),
         pool := p.pool.(refs := p.pool.refs[p.queue[0].slot := 1]))
    case Visit(sent, elsewhere, raced) =>
      VisitSession(p, p.fanning.next, p.fanning.item, sent, elsewhere, raced)
      .(fanning := Visiting(p.fanning.item, p.fanning.next + 1))
    case EndFanOut => Refresh(p.(pool := p.pool.Release(p.fanning.item.slot), fanning := Idle))
    case Credit(j, ack) => CreditSession(p, j, ack)
    case Open(j, width) =>
      p.(sessions := p.sessions[j := p.sessions[j].(state := SessionState.Open, window := Window(width, 0, 0))])
    case Arm(j) =>
      p.(sessions := p.sessions[j := p.sessions[j].(state := Armed, clean := false, steady := true)],
         fanning := Arming(j, false))
    case LoadCount =>
      var j := p.fanning.seat;
      p.(sessions := p.sessions[j := p.sessions[j].(processed := p.admitted)], fanning := Arming(j, true))
    case StoreGauges =>
      var s := p.sessions[p.fanning.seat];
      Refresh(p.(sessions := p.sessions[p.fanning.seat := s.(clean := StartsWithin(p, s))], fanning := Idle))
    case End(j) => p.(sessions := p.sessions[j := p.sessions[j].(state := Expiring)])
    case Teardown(j) => TeardownSession(p, j)
  }

  // ----- Runs -----

  /** A freshly constructed publisher: every slot free, every seat unused. */
  function Start(config: Config, seats: nat): Publisher {
    var empty := Session(Unknown, Window(config.window, 0, 0), seq(config.depth, i => Item(0, 0)),
                         0, 0, false, false, 0);
    Publisher(config, Pool(seq(config.depth, i => 0), seq(config.depth, i => i), false), {}, {}, [],
              seq(seats, i => empty), Idle, NoPublish, 0, 0, MAX64, 0)
  }

  ghost predicate Legal(p: Publisher, steps: seq<Step>)
    decreases |steps|
  {
    steps == [] || (Enabled(p, steps[0]) && Legal(Apply(p, steps[0]), steps[1..]))
  }

  ghost function Run(p: Publisher, steps: seq<Step>): Publisher
    requires Legal(p, steps)
    decreases |steps|
  {
    if steps == [] then p else Run(Apply(p, steps[0]), steps[1..])
  }

  /** Some run of some valid publisher ends in `p`. */
  ghost predicate Reachable(p: Publisher) {
    exists config: Config, seats: nat, steps ::
      config.Valid() && Legal(Start(config, seats), steps) && Run(Start(config, seats), steps) == p
  }
}
