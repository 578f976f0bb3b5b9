/** Receive plans: how a subscriber sizes its ring from the request, the offer and
    the memory budget, and why any grant it then adopts fits that ring. */
module ReceivePlans {
  import opened Base
  import opened Geometry
  import opened StreamRow

  const MIN_PINNED: nat := 0x100_0000
  const MAX_PINNED: nat := 0x10_0000_0000
  const MAX_DELIVERY_QUEUE: nat := 4096
  const HOST: u32 := 0
  const ROCM: u32 := 2

  datatype Plan = Plan(maxFrameBytes: u64, ringDepth: u32, creditWindow: u32, pinnedBytes: u64)

  const NO_PLAN: Plan := Plan(0, 0, 0, 0)

  /** The ring's size in bytes, unless it leaves 64 bits. */
  function CheckedBytes(frameBytes: u64, depth: u32): (r: Option<u64>)
    ensures r.Some? <==> frameBytes * depth <= MAX64
    ensures r.Some? ==> r.value == frameBytes * depth
  {
    if depth != 0 && frameBytes > MAX64 / depth then
      assert frameBytes * depth > MAX64 by { DivisionGuard(frameBytes, depth); }
      None
    else
      assert frameBytes * depth <= MAX64 by { DivisionGuard(frameBytes, depth); }
      Some(frameBytes * depth)
  }

  /** Comparing with the quotient decides the product. */
  lemma DivisionGuard(a: nat, d: nat)
    ensures d > 0 ==> (a <= MAX64 / d <==> a * d <= MAX64)
  {
    if d > 0 {
      var q := MAX64 / d;
      assert MAX64 == d * q + MAX64 % d;
      assert a <= q ==> a * d <= q * d;
      assert a >= q + 1 ==> a * d >= (q + 1) * d;
    }
  }

  function FromLimits(frameBytes: u64, depth: u32, window: u32): Plan {
    var pinned := CheckedBytes(frameBytes, depth);
    Plan(frameBytes, depth, window, if pinned.Some? then pinned.value else MAX64)
  }

  function ValidatePlan(p: Plan): Status {
    var required := CheckedBytes(p.maxFrameBytes, p.ringDepth);
    if required.None? then ResourceExhausted
    else if p.maxFrameBytes < MIN_FRAME_BYTES || p.maxFrameBytes > MAX_FRAME_BYTES then FrameTooLarge
    else if p.ringDepth < MIN_RING_DEPTH || p.ringDepth > MAX_RING_DEPTH then DepthTooLarge
    else if p.creditWindow == 0 || p.creditWindow > p.ringDepth then DepthTooLarge
    else if p.pinnedBytes != required.value then ResourceExhausted
    else Ok
  }

  function Intersect(upper: Plan, grant: Plan): Plan {
    if ValidatePlan(upper) != Ok || ValidatePlan(grant) != Ok then NO_PLAN
    else FromLimits(Min(upper.maxFrameBytes, grant.maxFrameBytes), Min(upper.ringDepth, grant.ringDepth),
                    Min(upper.creditWindow, grant.creditWindow))
  }

  /** How many frames of this size the budget holds. */
  function BudgetDepth(frameBytes: nat, pinnedLimit: nat): (depth: nat)
    ensures frameBytes * depth <= pinnedLimit
    ensures frameBytes > 0 ==> pinnedLimit < frameBytes * (depth + 1)
  {
    if frameBytes == 0 then 0
    else
      assert pinnedLimit == frameBytes * (pinnedLimit / frameBytes) + pinnedLimit % frameBytes;
      pinnedLimit / frameBytes
  }

  /** A ring of at most the given depth; too shallow a one is no plan at all. */
  function AtDepth(frameBytes: u64, ringDepth: u32, window: u32, budgetDepth: nat): Plan {
    var depth := Min(ringDepth, budgetDepth);
    if depth < MIN_RING_DEPTH then NO_PLAN else FromLimits(frameBytes, depth, Min(window, depth))
  }

  /** The largest plan for a geometry that the budget can hold. */
  function Derive(g: GeometryBlock, pinnedLimit: u64): Plan {
    if g.Validate() != Ok then NO_PLAN
    else AtDepth(g.maxFrameBytes, g.ringDepth, g.creditWindow, BudgetDepth(g.maxFrameBytes, pinnedLimit))
  }

  datatype Config = Config(streamName: string, maxFrameBytes: u64, ringDepth: u32, creditWindow: u32,
                           deliveryQueueDepth: u32, establishmentTimeout: u32, commandTimeout: u32, probeTimeout: u32,
                           pinnedLimit: u64, cpuAffinity: int, hasBuffer: bool, bufferBytes: u64, memoryKind: u32,
                           plan: Option<Plan>, offer: Option<Offer>)

  /** What the caller asked for. */
  function Requested(c: Config): Plan {
    if c.plan.Some? then c.plan.value else FromLimits(c.maxFrameBytes, c.ringDepth, c.creditWindow)
  }

  /** Reduce the depth of an unplanned request to the budget. */
  function WithinBudget(p: Plan, pinnedLimit: u64): Plan {
    if p.maxFrameBytes == 0 || p.pinnedBytes <= pinnedLimit then p
    else
      var depth := BudgetDepth(p.maxFrameBytes, pinnedLimit);
      if depth < MIN_RING_DEPTH then NO_PLAN
      else
        var r := FromLimits(p.maxFrameBytes, Min(p.ringDepth, depth), p.creditWindow);
        r.(creditWindow := Min(r.creditWindow, r.ringDepth))
  }

  function UpperPlan(c: Config): Plan {
    if c.offer.Some? then
      Intersect(Requested(c), if StreamRow.Validate(c.offer.value) == Ok
                              then Derive(c.offer.value.geometry, c.pinnedLimit) else NO_PLAN)
    else if c.plan.Some? then c.plan.value
    else WithinBudget(Requested(c), c.pinnedLimit)
  }

  function ValidateCommon(name: string, p: Plan, pinnedLimit: u64): Status {
    if !ValidName(name) then MalformedMessage
    else if p.maxFrameBytes < MIN_FRAME_BYTES || p.maxFrameBytes > MAX_FRAME_BYTES then FrameTooLarge
    else if p.ringDepth < MIN_RING_DEPTH || p.ringDepth > MAX_RING_DEPTH then DepthTooLarge
    else if p.creditWindow < 1 || p.creditWindow > p.ringDepth then DepthTooLarge
    else if pinnedLimit < MIN_PINNED || pinnedLimit > MAX_PINNED then ResourceExhausted
    else Ok
  }

  function ValidateOffer(c: Config): Status {
    if c.offer.None? then Ok
    else if c.offer.value.name != c.streamName then MalformedMessage
    else StreamRow.Validate(c.offer.value)
  }

  function ValidateRest(c: Config, upper: Plan): Status {
    if c.deliveryQueueDepth < 1 || c.deliveryQueueDepth > MAX_DELIVERY_QUEUE then DepthTooLarge
    else if c.establishmentTimeout == 0 || c.commandTimeout == 0 || c.probeTimeout == 0 then MalformedMessage
    else if c.cpuAffinity < -1 then MalformedMessage
    else if c.hasBuffer != (c.bufferBytes != 0) then MalformedMessage
    else if !c.hasBuffer && c.memoryKind != HOST then MalformedMessage
    else if c.memoryKind > ROCM then MalformedMessage
    else if upper.pinnedBytes > c.pinnedLimit then ResourceExhausted
    else if c.hasBuffer && (c.bufferBytes < upper.pinnedBytes || c.bufferBytes > c.pinnedLimit) then ResourceExhausted
    else Ok
  }

  function ValidateConfig(c: Config): Status {
    var plan := if c.plan.Some? then ValidatePlan(c.plan.value) else Ok;
    if plan != Ok then plan
    else if ValidateOffer(c) != Ok then ValidateOffer(c)
    else
      var upper := UpperPlan(c);
      if ValidatePlan(Requested(c)) == Ok && upper.maxFrameBytes == 0 then ResourceExhausted
      else if ValidateCommon(c.streamName, upper, c.pinnedLimit) != Ok
      then ValidateCommon(c.streamName, upper, c.pinnedLimit)
      else ValidateRest(c, upper)
  }

  // ----- Properties -----

  /** `a` asks for no more than `b` in any dimension. */
  predicate NoLarger(a: Plan, b: Plan) {
    a.maxFrameBytes <= b.maxFrameBytes && a.ringDepth <= b.ringDepth && a.creditWindow <= b.creditWindow
  }

  /** A plan within the hard limits never overflows and is valid once sized. */
  lemma FromLimitsValid(frameBytes: u64, depth: u32, window: u32)
    requires MIN_FRAME_BYTES <= frameBytes <= MAX_FRAME_BYTES
    requires MIN_RING_DEPTH <= depth <= MAX_RING_DEPTH && 1 <= window <= depth
    ensures ValidatePlan(FromLimits(frameBytes, depth, window)) == Ok
    ensures FromLimits(frameBytes, depth, window).pinnedBytes == frameBytes * depth
  {
    MulBounds(frameBytes, MAX_FRAME_BYTES, depth, MAX_RING_DEPTH);
  }

  lemma MulBounds(a: nat, a': nat, b: nat, b': nat)
    requires a <= a' && b <= b'
    ensures a * b <= a' * b'
  {
    assert a * b <= a' * b;
    assert a' * b <= a' * b';
  }

  lemma AtDepthWithinBudget(frameBytes: u64, ringDepth: u32, window: u32, budgetDepth: nat, pinnedLimit: u64)
    requires MIN_FRAME_BYTES <= frameBytes <= MAX_FRAME_BYTES
    requires MIN_RING_DEPTH <= ringDepth <= MAX_RING_DEPTH && 1 <= window <= ringDepth
    requires frameBytes * budgetDepth <= pinnedLimit
    ensures var d := AtDepth(frameBytes, ringDepth, window, budgetDepth);
      d == NO_PLAN
      || (ValidatePlan(d) == Ok && d.pinnedBytes <= pinnedLimit && NoLarger(d, FromLimits(frameBytes, ringDepth, window)))
  {
    var depth := Min(ringDepth, budgetDepth);
    if depth >= MIN_RING_DEPTH {
      FromLimitsValid(frameBytes, depth, Min(window, depth));
      MulBounds(frameBytes, frameBytes, depth, budgetDepth);
    }
  }

  /** A derived plan is valid and within the budget, or there is none. */
  lemma DerivedWithinBudget(g: GeometryBlock, pinnedLimit: u64)
    ensures var d := Derive(g, pinnedLimit);
      d == NO_PLAN || (ValidatePlan(d) == Ok && d.pinnedBytes <= pinnedLimit && NoLarger(d, Offered(g)))
  {
    if g.Validate() == Ok {
      AtDepthWithinBudget(g.maxFrameBytes, g.ringDepth, g.creditWindow,
                          BudgetDepth(g.maxFrameBytes, pinnedLimit), pinnedLimit);
    }
  }

  /** Every intersection of valid plans is valid and no larger than either. */
  lemma IntersectValid(a: Plan, b: Plan)
    requires ValidatePlan(a) == Ok && ValidatePlan(b) == Ok
    ensures var r := Intersect(a, b);
      && ValidatePlan(r) == Ok && NoLarger(r, a) && NoLarger(r, b)
      && r.pinnedBytes <= a.pinnedBytes && r.pinnedBytes <= b.pinnedBytes
  {
    var frame, depth := Min(a.maxFrameBytes, b.maxFrameBytes), Min(a.ringDepth, b.ringDepth);
    FromLimitsValid(frame, depth, Min(a.creditWindow, b.creditWindow));
    MulBounds(frame, a.maxFrameBytes, depth, a.ringDepth);
    MulBounds(frame, b.maxFrameBytes, depth, b.ringDepth);
  }

  lemma WithinBudgetNoLarger(p: Plan, pinnedLimit: u64)
    ensures NoLarger(WithinBudget(p, pinnedLimit), p)
  {
  }

  /** A geometry's sizes as a plan. */
  function Offered(g: GeometryBlock): Plan {
    FromLimits(g.maxFrameBytes, g.ringDepth, g.creditWindow)
  }

  /** An accepted configuration's plan is valid, fits the budget and the caller's
      buffer, and is no larger than the request or the offer. */
  lemma UpperPlanWithinBounds(c: Config)
    requires ValidateConfig(c) == Ok
    ensures var u := UpperPlan(c);
      && ValidatePlan(u) == Ok && u.pinnedBytes == u.maxFrameBytes * u.ringDepth <= c.pinnedLimit
      && (c.hasBuffer ==> u.pinnedBytes <= c.bufferBytes <= c.pinnedLimit)
      && NoLarger(u, Requested(c))
      && (c.offer.Some? ==> NoLarger(u, Offered(c.offer.value.geometry)))
  {
    var u := UpperPlan(c);
    if c.offer.Some? {
      var d := Derive(c.offer.value.geometry, c.pinnedLimit);
      DerivedWithinBudget(c.offer.value.geometry, c.pinnedLimit);
      assert ValidatePlan(Requested(c)) == Ok && ValidatePlan(d) == Ok;
      IntersectValid(Requested(c), d);
    } else if c.plan.None? {
      WithinBudgetNoLarger(Requested(c), c.pinnedLimit);
      FromLimitsValid(u.maxFrameBytes, u.ringDepth, u.creditWindow);
    }
  }

  /** Without a plan or an offer, the frame size is kept and the ring is the deepest
      the request and the budget allow. */
  lemma UpperPlanIsDeepest(c: Config, depth: nat)
    requires ValidateConfig(c) == Ok && c.plan.None? && c.offer.None?
    requires depth <= c.ringDepth && c.maxFrameBytes * depth <= c.pinnedLimit
    ensures var u := UpperPlan(c);
      u.maxFrameBytes == c.maxFrameBytes && depth <= u.ringDepth && u.creditWindow == Min(c.creditWindow, u.ringDepth)
  {
    UpperPlanWithinBounds(c);
    var budget := BudgetDepth(c.maxFrameBytes, c.pinnedLimit);
    if depth > budget {
      MulBounds(c.maxFrameBytes, c.maxFrameBytes, budget + 1, depth);
    }
  }

  /** The configuration as it is rewritten before a transport is built. */
  function Normalized(c: Config): Config {
    var u := UpperPlan(c);
    c.(maxFrameBytes := u.maxFrameBytes, ringDepth := u.ringDepth, creditWindow := u.creditWindow)
  }

  /** Writing the plan back changes neither the plan nor the verdict. */
  lemma WriteBackIsStable(c: Config)
    requires ValidateConfig(c) == Ok
    ensures UpperPlan(Normalized(c)) == UpperPlan(c)
    ensures ValidateConfig(Normalized(c)) == Ok
  {
    UpperPlanWithinBounds(c);
    var u := UpperPlan(c);
    FromLimitsValid(u.maxFrameBytes, u.ringDepth, u.creditWindow);
    if c.offer.Some? && c.plan.None? {
      DerivedWithinBudget(c.offer.value.geometry, c.pinnedLimit);
      var d := Derive(c.offer.value.geometry, c.pinnedLimit);
      IntersectValid(Requested(c), d);
    }
  }

  /** A grant the subscriber adopts: valid and inside the normalised sizes. */
  predicate Adoptable(c: Config, grant: GeometryBlock) {
    && grant.Validate() == Ok
    && grant.maxFrameBytes <= c.maxFrameBytes && grant.ringDepth <= c.ringDepth && grant.creditWindow <= c.creditWindow
  }

  /** The bytes of the receive ring one frame of the given sequence may land in. */
  function SlotStart(c: Config, grant: GeometryBlock, sequence: nat): nat
    requires grant.ringDepth > 0
  {
    (sequence % grant.ringDepth) * c.maxFrameBytes
  }

  /** Every payload ends inside the registered ring, the budget and the buffer. */
  lemma AdoptedGrantBounded(c: Config, grant: GeometryBlock, sequence: nat, payload: nat)
    requires ValidateConfig(c) == Ok && Adoptable(Normalized(c), grant) && payload <= grant.maxFrameBytes
    ensures grant.ringDepth > 0
    ensures var end := SlotStart(Normalized(c), grant, sequence) + payload;
      end <= UpperPlan(c).pinnedBytes <= c.pinnedLimit && (c.hasBuffer ==> end <= c.bufferBytes)
  {
    UpperPlanWithinBounds(c);
    var u := UpperPlan(c);
    SlotWithinPlan(u, Normalized(c), grant, sequence, payload);
  }

  /** A slot of a grant no deeper than the plan ends inside what the plan pins. */
  lemma SlotWithinPlan(u: Plan, n: Config, grant: GeometryBlock, sequence: nat, payload: nat)
    requires 0 < grant.ringDepth <= u.ringDepth && payload <= u.maxFrameBytes == n.maxFrameBytes
    ensures SlotStart(n, grant, sequence) + payload <= u.maxFrameBytes * u.ringDepth
  {
    SlotEnds(sequence % grant.ringDepth, u.ringDepth, u.maxFrameBytes);
  }

  /** Payloads in different slots do not overlap. */
  lemma SlotsDisjoint(n: Config, grant: GeometryBlock, sequence: nat, other: nat, payload: nat)
    requires grant.ringDepth > 0 && payload <= n.maxFrameBytes
    requires sequence % grant.ringDepth != other % grant.ringDepth
    ensures
      || SlotStart(n, grant, sequence) + payload <= SlotStart(n, grant, other)
      || SlotStart(n, grant, other) + payload <= SlotStart(n, grant, sequence)
  {
    var i, j := sequence % grant.ringDepth, other % grant.ringDepth;
    if i < j {
      SlotEnds(i, j, n.maxFrameBytes);
    } else {
      SlotEnds(j, i, n.maxFrameBytes);
    }
  }

  /** Under any adopted grant, every payload lies inside the ring that was registered
      from the plan, inside the budget and the caller's buffer, and two sequences in
      different slots never overlap. */
  lemma AdoptedGrantStaysInRing(c: Config, grant: GeometryBlock, sequence: nat, other: nat, payload: nat)
    requires ValidateConfig(c) == Ok && Adoptable(Normalized(c), grant) && payload <= grant.maxFrameBytes
    ensures var n := Normalized(c);
      && grant.ringDepth > 0
      && SlotStart(n, grant, sequence) + payload <= UpperPlan(c).pinnedBytes <= c.pinnedLimit
      && (c.hasBuffer ==> SlotStart(n, grant, sequence) + payload <= c.bufferBytes)
      && (sequence % grant.ringDepth != other % grant.ringDepth ==>
            || SlotStart(n, grant, sequence) + payload <= SlotStart(n, grant, other)
            || SlotStart(n, grant, other) + payload <= SlotStart(n, grant, sequence))
  {
    AdoptedGrantBounded(c, grant, sequence, payload);
    if sequence % grant.ringDepth != other % grant.ringDepth {
      SlotsDisjoint(Normalized(c), grant, sequence, other, payload);
    }
  }

  lemma SlotEnds(i: nat, j: nat, stride: nat)
    requires i < j
    ensures i * stride + stride <= j * stride
  {
    assert (j - i - 1) * stride >= 0;
    assert j * stride == (j - i - 1) * stride + i * stride + stride;
  }
}
