/** A subscription's life: opening, probing, renewing, closing and reconnecting.

    The coordination channel, the transport and the clock are inputs.  `log` is
    history: every request sent, every session adopted, every transport published,
    and every time the delivery queue was emptied or ended, in order. */
module Subscriptions {
  import opened Base
  import opened Wire
  import opened Geometry
  import opened Codec
  import opened Coordination
  import opened ReceivePlans

  // Wire status codes the lifecycle tells apart.
  const OK: u16 := 0
  const UNKNOWN_STREAM: u16 := 2
  const UNKNOWN_SESSION: u16 := 3
  const SESSION_EXPIRED: u16 := 4
  const MALFORMED: u16 := 9
  const TRANSPORT_FAILURE: u16 := 11
  const MISMATCH: u16 := 12
  const TOO_FREQUENT: u16 := 13

  datatype Session = Session(id: Id, stream: u64, address: seq<byte>, granted: GeometryBlock, leaseTtl: u32,
                             renewInterval: u32)

  const NO_ID: Id := [0, 0, 0, 0, 0, 0, 0, 0, 0, 0, 0, 0, 0, 0, 0, 0]

  /** A session state nothing has been adopted into. */
  const NO_SESSION: Session :=
    Session(NO_ID, 0, [], GeometryBlock(0, 0, 0, 0, 0, 0, 0, [0, 0, 0, 0], [0, 0, 0, 0]), 0, 0)

  // ----- Adopting replies -----

  datatype Adoption = Taken(session: Session) | Declined(status: u16)

  function SessionFrom(r: OpenReply): Session {
    Session(r.session, r.stream, r.address, r.geometry, r.leaseTtl, r.renewInterval)
  }

  /** What the subscriber does with an OpenReply that decoded. */
  function AdoptGrant(c: Config, r: OpenReply): Adoption {
    if r.status != OK then Declined(r.status)
    else if !Adoptable(c, r.geometry) then Declined(MISMATCH)
    else Taken(SessionFrom(r))
  }

  function AdoptOpen(c: Config, data: seq<byte>, expected: nat): Adoption {
    var e := PeekEnvelope(data);
    if e.Rejected? || e.correlation != expected then Declined(MALFORMED)
    else if Get16(data, 8) == ERROR then
      var d := DecodeError(data);
      if d.Refused? then Declined(MALFORMED)
      else if d.message.status == OK then Taken(NO_SESSION)     // nothing adopted, yet the code goes on
      else Declined(d.message.status)
    else
      var d := DecodeOpenReply(data);
      if d.Refused? then Declined(MALFORMED) else AdoptGrant(c, d.message)
  }

  /** An Error reply that reports success; a conforming publisher never sends one. */
  predicate ErrorSayingOk(data: seq<byte>) {
    DecodeError(data).Accepted? && DecodeError(data).message.status == OK
  }

  /** The reply is an OpenReply to this very request, successful, with a grant that
      fits, and `s` is the session it describes. */
  predicate AnswersOpen(c: Config, data: seq<byte>, expected: nat, s: Session) {
    var d := DecodeOpenReply(data);
    && d.Accepted? && d.correlation == expected && d.message.status == OK
    && Adoptable(c, d.message.geometry) && s == SessionFrom(d.message)
  }

  /** Whatever is adopted answers the request it was sent for, exactly unless the
      reply is an Error that reports success. */
  lemma AdoptedAnswersRequest(c: Config, data: seq<byte>, expected: nat)
    requires AdoptOpen(c, data, expected).Taken?
    ensures AnswersOpen(c, data, expected, AdoptOpen(c, data, expected).session) <==> !ErrorSayingOk(data)
  {
    if DecodeOpenReply(data).Accepted? {
      PeekAgrees(data, OPEN_REPLY);
    }
    if DecodeError(data).Accepted? {
      PeekAgrees(data, ERROR);
    }
  }

  /** And every fitting answer to the request is adopted, as itself; the same answer
      under another correlation id is not. */
  lemma AnswersAreAdopted(c: Config, r: OpenReply, correlation: u64, expected: nat)
    requires EncodeOpenReply(r, correlation).Some? && r.status == OK && Adoptable(c, r.geometry)
    ensures AdoptOpen(c, EncodeOpenReply(r, correlation).value, expected)
         == if correlation == expected then Taken(SessionFrom(r)) else Declined(MALFORMED)
  {
    OpenReplyRoundTrip(r, correlation);
    PeekAgrees(EncodeOpenReply(r, correlation).value, OPEN_REPLY);
  }

  /** An Error reporting success is taken for a session with nothing in it. */
  lemma ErrorSayingOkIsTaken(c: Config, correlation: u64)
    ensures EncodeError(ErrorMessage(OK, []), correlation).Some?
    ensures var data := EncodeError(ErrorMessage(OK, []), correlation).value;
      ErrorSayingOk(data) && AdoptOpen(c, data, correlation) == Taken(NO_SESSION)
  {
    ErrorRoundTrip(ErrorMessage(OK, []), correlation);
    PeekAgrees(EncodeError(ErrorMessage(OK, []), correlation).value, ERROR);
  }

  /** The status of a renewal, and the session with the lease it grants. */
  function AdoptRenew(s: Session, data: seq<byte>, expected: nat): (u16, Session) {
    var e := PeekEnvelope(data);
    if e.Rejected? || e.correlation != expected then (MALFORMED, s)
    else if Get16(data, 8) == ERROR then
      var d := DecodeError(data);
      (if d.Refused? then MALFORMED else d.message.status, s)
    else
      var d := DecodeRenewReply(data);
      if d.Refused? || d.message.session != s.id then (MALFORMED, s)
      else if d.message.status != OK then (d.message.status, s)
      else (OK, s.(leaseTtl := d.message.leaseTtl, renewInterval := d.message.renewInterval))
  }

  // ----- Backoff -----

  function Pow2(n: nat): (p: nat)
    ensures p >= 1
  {
    if n == 0 then 1 else 2 * Pow2(n - 1)
  }

  lemma {:induction false} Pow2Grows(i: nat, j: nat)
    requires i <= j
    ensures Pow2(i) <= Pow2(j)
  {
    if i < j {
      Pow2Grows(i, j - 1);
    }
  }

  /** The delay doubles with every attempt and is capped at the lease, or at one
      millisecond where there is no lease. */
  method BackoffDelay(attempt: nat, backoff: u32, leaseTtl: u32) returns (delay: nat)
    ensures delay == Min(backoff * Pow2(attempt), Max(leaseTtl, 1))
  {
    delay := backoff;
    var i := 0;
    while i < attempt && delay < leaseTtl
      invariant 0 <= i <= attempt && delay == backoff * Pow2(i)
    {
      Associate(backoff, Pow2(i));
      delay := delay * 2;
      i := i + 1;
    }
    Pow2Grows(i, attempt);
    MulBounds(backoff, backoff, Pow2(i), Pow2(attempt));
    MulBounds(backoff, backoff, 1, Pow2(i));
    delay := Min(delay, Max(leaseTtl, 1));
  }

  lemma Associate(a: nat, p: nat)
    ensures (a * p) * 2 == a * (2 * p)
  {
  }

  // ----- State -----

  datatype Event =
    | OpenSent(correlation: nat)
    | RenewSent(correlation: nat, id: Id)
    | CloseSent(correlation: nat, id: Id)
    | Adopted(request: nat, reply: seq<byte>, session: Session)
    | Published(geometry: GeometryBlock)
    | Mismatched(geometry: GeometryBlock)
    | Discarded               // the owner emptied the delivery queue
    | DeliveryFailed          // the queue's terminal became SessionFailed
    | CallbackFailed          // the queue's terminal became CallbackFailed

  datatype Phase = Opening | Probing | Active | Reconnecting | Failed | Stopped

  /** `session` is what the fields hold; `transport` says one is published; a retired
      geometry is one a published transport was torn down with. */
  datatype Sub = Sub(config: Config, session: Session, transport: bool, retired: Option<GeometryBlock>,
                     lastTtl: u32, phase: Phase, correlation: nat, log: seq<Event>)
  {
    function Note(e: Event): Sub {
      this.(log := log + [e])
    }
  }

  /** One opening attempt's inputs: the factory's failure, the reply or the channel's
      failure, the activation status, and the probe's failure. */
  datatype Attempt = Attempt(factory: Option<u16>, reply: Option<seq<byte>>, channel: u16, activate: u16,
                             probe: Option<u16>)

  datatype Result = Success | Failure(status: u16)

  /** A Close request for a session; its reply changes nothing. */
  function SendClose(s: Sub, id: Id): Sub {
    s.(correlation := s.correlation + 1).Note(CloseSent(s.correlation + 1, id))
  }

  /** Take down the published transport, if any. */
  function Unpublish(s: Sub): Sub {
    if !s.transport then s
    else
      s.(lastTtl := Max(s.lastTtl, s.session.leaseTtl),
         retired := if s.session.granted.generation != 0 then Some(s.session.granted) else s.retired,
         session := NO_SESSION, transport := false)
  }

  /** Close the session if one is up.  Frames it delivered are discarded with it,
      unless the caller wants to know first whether the failure is final. */
  function CloseSession(s: Sub, discard: bool): Sub {
    if !s.transport then s
    else
      var closed := Unpublish(SendClose(s, s.session.id));
      if discard then closed.Note(Discarded) else closed
  }

  function SendOpen(s: Sub): Sub {
    s.(correlation := s.correlation + 1).Note(OpenSent(s.correlation + 1))
  }

  /** The retired array, if there is one, differs from the granted one. */
  predicate ArrayChanged(s: Sub, granted: GeometryBlock) {
    s.retired.Some? && !s.retired.value.DescribesSameArray(granted)
  }

  /** The transport makes an endpoint of the address the publisher returned, which
      an empty or oversize address does not allow. */
  function Activation(candidate: Session, a: Attempt): u16 {
    if candidate.address == [] || |candidate.address| > MAX_ADDRESS then TRANSPORT_FAILURE else a.activate
  }

  /** From an adopted session to an active transport, or back. */
  function Establish(s: Sub, candidate: Session, a: Attempt): (Sub, Result) {
    if ArrayChanged(s, candidate.granted) then
      (SendClose(s.Note(Mismatched(candidate.granted)), candidate.id), Failure(MISMATCH))
    else if Activation(candidate, a) != OK then
      (SendClose(s, candidate.id).(session := NO_SESSION), Failure(Activation(candidate, a)))
    else
      var up := s.(session := candidate, transport := true, phase := Probing).Note(Published(candidate.granted));
      if a.probe.None? then (up.(phase := Active), Success)
      else (CloseSession(up, true), Failure(a.probe.value))
  }

  /** An attempt, given what adopting its reply comes to. */
  function OpenWith(s: Sub, a: Attempt, adoption: Adoption): (Sub, Result) {
    if a.factory.Some? then (s, Failure(a.factory.value))
    else
      var sent := SendOpen(s);
      if a.reply.None? then (sent, Failure(a.channel))
      else if adoption.Declined? then (sent, Failure(adoption.status))
      else Establish(sent.Note(Adopted(sent.correlation, a.reply.value, adoption.session)), adoption.session, a)
  }

  /** What the next request's reply is adopted as. */
  function Adopting(s: Sub, a: Attempt): Adoption {
    if a.reply.Some? then AdoptOpen(s.config, a.reply.value, s.correlation + 1) else Declined(a.channel)
  }

  function OpenSubscription(s: Sub, a: Attempt): (Sub, Result) {
    OpenWith(s, a, Adopting(s, a))
  }

  /** A renewal status that does not end the session. */
  predicate KeepsLease(status: u16) {
    status == OK || status == TOO_FREQUENT
  }

  /** One renewal: keep going, or give the session up with a status. */
  function RenewOnce(s: Sub, reply: Option<seq<byte>>, channel: u16): (Sub, Result) {
    var sent := s.(correlation := s.correlation + 1).Note(RenewSent(s.correlation + 1, s.session.id));
    if reply.None? then (sent, if KeepsLease(channel) then Success else Failure(channel))
    else
      var (status, session) := AdoptRenew(s.session, reply.value, sent.correlation);
      if KeepsLease(status) then (sent.(session := session), Success) else (sent, Failure(status))
  }

  // ----- Whole lives -----

  datatype Mode =
    | Establishing(tries: nat, error: u16)
    | Running
    | Retrying(attempt: nat, error: u16)
    | Ended

  datatype Life = Life(sub: Sub, mode: Mode, bounded: bool, maxAttempts: nat)

  datatype Step =
    | TryOpen(a: Attempt)
    | Renew(reply: Option<seq<byte>>, channel: u16)
    | TransportFails(status: u16)
    | CallbackThrows
    | GiveUp
    | Stop

  predicate Retryable(status: u16) {
    status == TRANSPORT_FAILURE || status == UNKNOWN_STREAM || status == UNKNOWN_SESSION || status == SESSION_EXPIRED
  }

  predicate Enabled(l: Life, step: Step) {
    match step
    case TryOpen(_) =>
      || (l.mode.Establishing?
          && (l.mode.tries > 0 ==> l.bounded && l.mode.tries <= l.maxAttempts && Retryable(l.mode.error)))
      || (l.mode.Retrying? && l.mode.attempt < l.maxAttempts)
    case Renew(_, _) => l.mode.Running?
    case TransportFails(_) => l.mode.Running?
    case CallbackThrows => l.mode.Running? || l.mode.Retrying?
    case GiveUp =>
      || (l.mode.Retrying? && l.mode.attempt >= l.maxAttempts)
      || (l.mode.Establishing? && l.mode.tries > 0)               // the deadline has passed
    case Stop => !l.mode.Ended?
  }

  /** The delivery queue is failed before the state shows it, and the control thread
      closes on its way out. */
  function Fail(l: Life): Life {
    l.(sub := CloseSession(l.sub.(phase := Failed).Note(DeliveryFailed), true), mode := Ended)
  }

  /** A session that ended by itself: close it, keeping its frames, and reconnect, if
      the policy allows. */
  function Lost(l: Life, status: u16): Life {
    var closed := l.(sub := CloseSession(l.sub, false));
    if !l.bounded then Fail(closed) else closed.(sub := closed.sub.(phase := Reconnecting), mode := Retrying(0, status))
  }

  /** A reconnect attempt drops the frames of the session it replaces. */
  function BeforeOpen(l: Life): Sub {
    (if l.mode.Retrying? then l.sub.Note(Discarded) else l.sub).(phase := Opening)
  }

  function AfterOpen(l: Life, s: Sub, r: Result): Life {
    if r.Success? then l.(sub := s, mode := Running)
    else if l.mode.Establishing? then
      if l.bounded && l.mode.tries < l.maxAttempts && Retryable(r.status)
      then l.(sub := s.(phase := Reconnecting), mode := Establishing(l.mode.tries + 1, r.status))
      else Fail(l.(sub := s))
    else if r.status == MISMATCH then Fail(l.(sub := s))
    else if l.mode.Retrying? then l.(sub := s.(phase := Reconnecting), mode := Retrying(l.mode.attempt + 1, r.status))
    else l.(sub := s)
  }

  function Apply(l: Life, step: Step): Life
    requires Enabled(l, step)
  {
    match step
    case TryOpen(a) =>
      var (s, r) := OpenSubscription(BeforeOpen(l), a);
      AfterOpen(l, s, r)
    case Renew(reply, channel) =>
      var (s, r) := RenewOnce(l.sub, reply, channel);
      if r.Success? then l.(sub := s) else Lost(l.(sub := s), r.status)
    case TransportFails(status) => Lost(l, status)
    case CallbackThrows =>
      l.(sub := CloseSession(l.sub.Note(Event.CallbackFailed), true).(phase := Failed), mode := Ended)
    case GiveUp => Fail(l)
    case Stop => l.(sub := CloseSession(l.sub, true).(phase := Stopped), mode := Ended)
  }

  function Start(c: Config, bounded: bool, maxAttempts: nat): Life {
    Life(Sub(c, NO_SESSION, false, None, 0, Opening, 0, []), Establishing(0, OK), bounded, maxAttempts)
  }

  ghost predicate Legal(l: Life, steps: seq<Step>)
    decreases |steps|
  {
    steps == [] || (Enabled(l, steps[0]) && Legal(Apply(l, steps[0]), steps[1..]))
  }

  ghost function Run(l: Life, steps: seq<Step>): Life
    requires Legal(l, steps)
    decreases |steps|
  {
    if steps == [] then l else Run(Apply(l, steps[0]), steps[1..])
  }

  ghost predicate Reachable(l: Life) {
    exists c: Config, bounded: bool, maxAttempts: nat, steps ::
      Legal(Start(c, bounded, maxAttempts), steps) && Run(Start(c, bounded, maxAttempts), steps) == l
  }

  // ----- The log -----

  predicate IsRequest(e: Event) {
    e.OpenSent? || e.RenewSent? || e.CloseSent?
  }

  /** Requests carry fresh, strictly increasing correlation ids, none above `top`. */
  ghost predicate Increasing(log: seq<Event>, top: nat) {
    && (forall i :: 0 <= i < |log| && IsRequest(log[i]) ==> log[i].correlation <= top)
    && (forall i, j :: 0 <= i < j < |log| && IsRequest(log[i]) && IsRequest(log[j]) ==>
          log[i].correlation < log[j].correlation)
  }

  /** Among the first `n` events, the adopted session no Close has been sent for yet. */
  function UnclosedAt(log: seq<Event>, n: nat): Option<Id>
    requires n <= |log|
  {
    if n == 0 then None
    else
      var before, e := UnclosedAt(log, n - 1), log[n - 1];
      if e.Adopted? then Some(e.session.id)
      else if e.CloseSent? && before == Some(e.id) then None
      else before
  }

  function Unclosed(log: seq<Event>): Option<Id> {
    UnclosedAt(log, |log|)
  }

  lemma {:induction false} UnclosedPrefix(log: seq<Event>, e: Event, n: nat)
    requires n <= |log|
    ensures UnclosedAt(log + [e], n) == UnclosedAt(log, n)
  {
    if n > 0 {
      UnclosedPrefix(log, e, n - 1);
    }
  }

  /** Opens go out only with no session left unclosed, and sessions are adopted only
      after the request they answer. */
  ghost predicate Orderly(log: seq<Event>) {
    && (forall i :: 0 <= i < |log| && log[i].OpenSent? ==> UnclosedAt(log, i) == None)
    && (forall i :: 0 <= i < |log| && log[i].Adopted? ==> i > 0 && log[i - 1] == OpenSent(log[i].request))
  }

  /** The transport could be published right after this event: a session was adopted
      with that geometry and an address an endpoint can be made of. */
  predicate Publishable(e: Event, g: GeometryBlock) {
    e.Adopted? && e.session.granted == g && 1 <= |e.session.address| <= MAX_ADDRESS
  }

  /** Every published transport is that of the session adopted just before. */
  ghost predicate PublicationsGrounded(log: seq<Event>) {
    forall i :: 0 <= i < |log| && log[i].Published? ==> i > 0 && Publishable(log[i - 1], log[i].geometry)
  }

  /** The session is what adopting that reply to that request gives. */
  predicate AdoptionGrounded(c: Config, e: Event) {
    e.Adopted? ==> AdoptOpen(c, e.reply, e.request) == Taken(e.session)
  }

  ghost predicate AdoptionsGrounded(c: Config, log: seq<Event>) {
    forall i :: 0 <= i < |log| ==> AdoptionGrounded(c, log[i])
  }

  ghost predicate Grounded(c: Config, log: seq<Event>) {
    AdoptionsGrounded(c, log) && PublicationsGrounded(log)
  }

  lemma OrderlyNote(log: seq<Event>, e: Event)
    requires Orderly(log)
    requires e.OpenSent? ==> Unclosed(log) == None
    requires e.Adopted? ==> log != [] && log[|log| - 1] == OpenSent(e.request)
    ensures Orderly(log + [e])
  {
    var log' := log + [e];
    forall i | 0 <= i < |log'| && log'[i].OpenSent?
      ensures UnclosedAt(log', i) == None
    {
      UnclosedPrefix(log, e, i);
    }
  }

  lemma UnclosedNote(log: seq<Event>, e: Event)
    ensures Unclosed(log + [e]) ==
      if e.Adopted? then Some(e.session.id)
      else if e.CloseSent? && Unclosed(log) == Some(e.id) then None
      else Unclosed(log)
  {
    UnclosedPrefix(log, e, |log|);
  }

  // ----- Each part keeps the log in order -----

  ghost predicate Tidy(log: seq<Event>, top: nat) {
    Orderly(log) && Increasing(log, top)
  }

  /** One more event keeps the log tidy when it is allowed where it stands. */
  lemma TidyNote(log: seq<Event>, top: nat, e: Event, top': nat)
    requires Tidy(log, top) && top <= top'
    requires IsRequest(e) ==> top < e.correlation <= top'
    requires e.OpenSent? ==> Unclosed(log) == None
    requires e.Adopted? ==> log != [] && log[|log| - 1] == OpenSent(e.request)
    ensures Tidy(log + [e], top')
    ensures Unclosed(log + [e]) ==
      if e.Adopted? then Some(e.session.id)
      else if e.CloseSent? && Unclosed(log) == Some(e.id) then None
      else Unclosed(log)
  {
    OrderlyNote(log, e);
    UnclosedNote(log, e);
  }

  /** Nothing unclosed, nothing published. */
  ghost predicate AtRest(s: Sub) {
    !s.transport && Unclosed(s.log) == None && Tidy(s.log, s.correlation)
  }

  /** A session is up and is the one unclosed. */
  ghost predicate Up(s: Sub) {
    s.transport && Unclosed(s.log) == Some(s.session.id) && Tidy(s.log, s.correlation)
  }

  lemma SendCloseKeeps(s: Sub, id: Id)
    requires Tidy(s.log, s.correlation) && Unclosed(s.log) == Some(id)
    ensures var s' := SendClose(s, id); Tidy(s'.log, s'.correlation) && Unclosed(s'.log) == None
  {
    TidyNote(s.log, s.correlation, CloseSent(s.correlation + 1, id), s.correlation + 1);
  }

  /** What is noted about the delivery queue concerns no request and no session. */
  lemma NoteKeeps(s: Sub, e: Event)
    requires Tidy(s.log, s.correlation) && (e.Discarded? || e.DeliveryFailed? || e.CallbackFailed?)
    ensures Tidy(s.Note(e).log, s.Note(e).correlation) && Unclosed(s.Note(e).log) == Unclosed(s.log)
  {
    TidyNote(s.log, s.correlation, e, s.correlation);
  }

  lemma CloseSessionRests(s: Sub, discard: bool)
    requires AtRest(s) || Up(s)
    ensures AtRest(CloseSession(s, discard))
  {
    if s.transport {
      SendCloseKeeps(s, s.session.id);
      NoteKeeps(Unpublish(SendClose(s, s.session.id)), Discarded);
    }
  }

  lemma FailRests(l: Life)
    requires AtRest(l.sub)
    ensures AtRest(Fail(l).sub)
  {
    NoteKeeps(l.sub, DeliveryFailed);
  }

  lemma EstablishKeeps(s: Sub, candidate: Session, a: Attempt)
    requires !s.transport && Tidy(s.log, s.correlation) && Unclosed(s.log) == Some(candidate.id)
    ensures var (s', r) := Establish(s, candidate, a); if r.Success? then Up(s') else AtRest(s')
  {
    if ArrayChanged(s, candidate.granted) {
      TidyNote(s.log, s.correlation, Mismatched(candidate.granted), s.correlation);
      SendCloseKeeps(s.Note(Mismatched(candidate.granted)), candidate.id);
    } else if Activation(candidate, a) != OK {
      SendCloseKeeps(s, candidate.id);
    } else {
      TidyNote(s.log, s.correlation, Published(candidate.granted), s.correlation);
      var up := s.(session := candidate, transport := true, phase := Probing).Note(Published(candidate.granted));
      CloseSessionRests(up, true);
    }
  }

  lemma SendOpenKeeps(s: Sub)
    requires AtRest(s)
    ensures AtRest(SendOpen(s)) && SendOpen(s).log == s.log + [OpenSent(s.correlation + 1)]
  {
    TidyNote(s.log, s.correlation, OpenSent(s.correlation + 1), s.correlation + 1);
  }

  lemma AdoptKeeps(s: Sub, reply: seq<byte>, session: Session)
    requires AtRest(s)
    ensures var sent := SendOpen(s); var s' := sent.Note(Adopted(sent.correlation, reply, session));
      !s'.transport && Tidy(s'.log, s'.correlation) && Unclosed(s'.log) == Some(session.id)
  {
    SendOpenKeeps(s);
    var sent := SendOpen(s);
    TidyNote(sent.log, sent.correlation, Adopted(sent.correlation, reply, session), sent.correlation);
  }

  lemma OpenWithKeeps(s: Sub, a: Attempt, adoption: Adoption)
    requires AtRest(s)
    ensures var (s', r) := OpenWith(s, a, adoption); if r.Success? then Up(s') else AtRest(s')
  {
    SendOpenKeeps(s);
    if a.factory.None? && a.reply.Some? && adoption.Taken? {
      AdoptKeeps(s, a.reply.value, adoption.session);
      var sent := SendOpen(s);
      EstablishKeeps(sent.Note(Adopted(sent.correlation, a.reply.value, adoption.session)), adoption.session, a);
    }
  }

  lemma RenewKeeps(s: Sub, session: Session)
    requires Up(s) && session.id == s.session.id
    ensures Up(s.(correlation := s.correlation + 1, session := session).Note(RenewSent(s.correlation + 1, s.session.id)))
  {
    TidyNote(s.log, s.correlation, RenewSent(s.correlation + 1, s.session.id), s.correlation + 1);
  }

  lemma RenewedSameId(s: Session, data: seq<byte>, expected: nat)
    ensures AdoptRenew(s, data, expected).1.id == s.id
  {
  }

  ghost predicate Inv(l: Life) {
    if l.mode.Running? then Up(l.sub) else AtRest(l.sub)
  }

  lemma TryOpenKeeps(l: Life, a: Attempt)
    requires Inv(l) && Enabled(l, TryOpen(a))
    ensures Inv(Apply(l, TryOpen(a)))
  {
    NoteKeeps(l.sub, Discarded);
    OpenWithKeeps(BeforeOpen(l), a, Adopting(BeforeOpen(l), a));
    var (s, r) := OpenSubscription(BeforeOpen(l), a);
    if r.Failure? {
      FailRests(l.(sub := s));
    }
  }

  lemma LostKeeps(l: Life, status: u16)
    requires Up(l.sub)
    ensures Inv(Lost(l, status))
  {
    CloseSessionRests(l.sub, false);
    FailRests(l.(sub := CloseSession(l.sub, false)));
  }

  lemma StepKeeps(l: Life, step: Step)
    requires Inv(l) && Enabled(l, step)
    ensures Inv(Apply(l, step))
  {
    match step {
      case TryOpen(a) => TryOpenKeeps(l, a);
      case Renew(reply, channel) => RenewStepKeeps(l, reply, channel);
      case TransportFails(status) => LostKeeps(l, status);
      case CallbackThrows =>
        NoteKeeps(l.sub, Event.CallbackFailed);
        CloseSessionRests(l.sub.Note(Event.CallbackFailed), true);
      case GiveUp => FailRests(l);
      case Stop => CloseSessionRests(l.sub, true);
    }
  }

  lemma RenewOnceUp(s: Sub, reply: Option<seq<byte>>, channel: u16)
    requires Up(s)
    ensures Up(RenewOnce(s, reply, channel).0)
  {
    if reply.Some? {
      RenewedSameId(s.session, reply.value, s.correlation + 1);
    }
    RenewKeeps(s, RenewOnce(s, reply, channel).0.session);
  }

  lemma RenewStepKeeps(l: Life, reply: Option<seq<byte>>, channel: u16)
    requires Inv(l) && Enabled(l, Renew(reply, channel))
    ensures Inv(Apply(l, Renew(reply, channel)))
  {
    RenewOnceUp(l.sub, reply, channel);
    var (s, r) := RenewOnce(l.sub, reply, channel);
    if r.Failure? {
      LostKeeps(l.(sub := s), r.status);
    }
  }

  lemma {:induction false} RunKeeps(l: Life, steps: seq<Step>)
    requires Inv(l) && Legal(l, steps)
    ensures Inv(Run(l, steps))
    decreases |steps|
  {
    if steps != [] {
      StepKeeps(l, steps[0]);
      RunKeeps(Apply(l, steps[0]), steps[1..]);
    }
  }

  lemma ReachableHolds(l: Life)
    requires Reachable(l)
    ensures Inv(l)
  {
    var c: Config, bounded: bool, maxAttempts: nat, steps :|
      Legal(Start(c, bounded, maxAttempts), steps) && Run(Start(c, bounded, maxAttempts), steps) == l;
    RunKeeps(Start(c, bounded, maxAttempts), steps);
  }

  // ----- Adopted sessions are grounded in their replies -----

  lemma AdoptionNote(c: Config, log: seq<Event>, e: Event)
    requires AdoptionsGrounded(c, log) && AdoptionGrounded(c, e)
    ensures AdoptionsGrounded(c, log + [e])
  {
  }

  lemma PublicationNote(log: seq<Event>, e: Event)
    requires PublicationsGrounded(log)
    requires e.Published? ==> log != [] && Publishable(log[|log| - 1], e.geometry)
    ensures PublicationsGrounded(log + [e])
  {
  }

  lemma GroundedNote(c: Config, log: seq<Event>, e: Event)
    requires Grounded(c, log) && AdoptionGrounded(c, e)
    requires e.Published? ==> log != [] && Publishable(log[|log| - 1], e.geometry)
    ensures Grounded(c, log + [e])
  {
    AdoptionNote(c, log, e);
    PublicationNote(log, e);
  }

  lemma CloseGrounded(c: Config, s: Sub, discard: bool)
    requires Grounded(c, s.log)
    ensures Grounded(c, CloseSession(s, discard).log) && CloseSession(s, discard).config == s.config
  {
    var close := CloseSent(s.correlation + 1, s.session.id);
    GroundedNote(c, s.log, close);
    GroundedNote(c, s.log + [close], Discarded);
  }

  lemma EstablishGrounded(c: Config, s: Sub, candidate: Session, a: Attempt)
    requires Grounded(c, s.log) && s.log != []
    requires s.log[|s.log| - 1].Adopted? && s.log[|s.log| - 1].session == candidate
    ensures Grounded(c, Establish(s, candidate, a).0.log)
    ensures Establish(s, candidate, a).0.config == s.config
  {
    if ArrayChanged(s, candidate.granted) {
      MismatchGrounded(c, s, candidate);
    } else if Activation(candidate, a) != OK {
      GroundedNote(c, s.log, CloseSent(s.correlation + 1, candidate.id));
    } else {
      PublishGrounded(c, s, candidate);
      CloseGrounded(c, s.(session := candidate, transport := true, phase := Probing).Note(Published(candidate.granted)), true);
    }
  }

  lemma MismatchGrounded(c: Config, s: Sub, candidate: Session)
    requires Grounded(c, s.log)
    ensures Grounded(c, SendClose(s.Note(Mismatched(candidate.granted)), candidate.id).log)
  {
    GroundedNote(c, s.log, Mismatched(candidate.granted));
    GroundedNote(c, s.log + [Mismatched(candidate.granted)], CloseSent(s.correlation + 1, candidate.id));
  }

  lemma PublishGrounded(c: Config, s: Sub, candidate: Session)
    requires Grounded(c, s.log) && s.log != [] && Publishable(s.log[|s.log| - 1], candidate.granted)
    ensures Grounded(c, s.Note(Published(candidate.granted)).log)
  {
    GroundedNote(c, s.log, Published(candidate.granted));
  }

  lemma TryOpenGrounded(s: Sub, a: Attempt)
    requires Grounded(s.config, s.log)
    ensures var s' := OpenSubscription(s, a).0; s'.config == s.config && Grounded(s.config, s'.log)
  {
    var adoption := Adopting(s, a);
    var sent := SendOpen(s);
    GroundedNote(s.config, s.log, OpenSent(s.correlation + 1));
    if a.factory.None? && a.reply.Some? && adoption.Taken? {
      var e := Adopted(sent.correlation, a.reply.value, adoption.session);
      GroundedNote(s.config, sent.log, e);
      EstablishGrounded(s.config, sent.Note(e), adoption.session, a);
    }
  }

  lemma FailGrounded(l: Life)
    requires Grounded(l.sub.config, l.sub.log)
    ensures Grounded(l.sub.config, Fail(l).sub.log) && Fail(l).sub.config == l.sub.config
  {
    GroundedNote(l.sub.config, l.sub.log, DeliveryFailed);
    CloseGrounded(l.sub.config, l.sub.(phase := Failed).Note(DeliveryFailed), true);
  }

  lemma LostGrounded(l: Life, status: u16)
    requires Grounded(l.sub.config, l.sub.log)
    ensures Grounded(l.sub.config, Lost(l, status).sub.log) && Lost(l, status).sub.config == l.sub.config
  {
    CloseGrounded(l.sub.config, l.sub, false);
    FailGrounded(l.(sub := CloseSession(l.sub, false)));
  }

  lemma RetryGrounded(l: Life, a: Attempt)
    requires Grounded(l.sub.config, l.sub.log) && Enabled(l, TryOpen(a))
    ensures var l' := Apply(l, TryOpen(a)); l'.sub.config == l.sub.config && Grounded(l.sub.config, l'.sub.log)
  {
    GroundedNote(l.sub.config, l.sub.log, Discarded);
    TryOpenGrounded(BeforeOpen(l), a);
    FailGrounded(l.(sub := OpenSubscription(BeforeOpen(l), a).0));
  }

  lemma RenewGrounded(l: Life, reply: Option<seq<byte>>, channel: u16)
    requires Grounded(l.sub.config, l.sub.log) && Enabled(l, Renew(reply, channel))
    ensures var l' := Apply(l, Renew(reply, channel)); l'.sub.config == l.sub.config && Grounded(l.sub.config, l'.sub.log)
  {
    var (s, r) := RenewOnce(l.sub, reply, channel);
    var e := RenewSent(l.sub.correlation + 1, l.sub.session.id);
    assert s.log == l.sub.log + [e] && s.config == l.sub.config;
    GroundedNote(l.sub.config, l.sub.log, e);
    if r.Failure? {
      LostGrounded(l.(sub := s), r.status);
    }
  }

  lemma ThrowGrounded(s: Sub)
    requires Grounded(s.config, s.log)
    ensures Grounded(s.config, CloseSession(s.Note(Event.CallbackFailed), true).log)
    ensures CloseSession(s.Note(Event.CallbackFailed), true).config == s.config
  {
    GroundedNote(s.config, s.log, Event.CallbackFailed);
    CloseGrounded(s.config, s.Note(Event.CallbackFailed), true);
  }

  lemma StepGrounded(l: Life, step: Step)
    requires Grounded(l.sub.config, l.sub.log) && Enabled(l, step)
    ensures var l' := Apply(l, step); l'.sub.config == l.sub.config && Grounded(l.sub.config, l'.sub.log)
  {
    var c := l.sub.config;
    match step {
      case TryOpen(a) =>
        RetryGrounded(l, a);
      case Renew(reply, channel) =>
        RenewGrounded(l, reply, channel);
      case TransportFails(status) => LostGrounded(l, status);
      case CallbackThrows =>
        ThrowGrounded(l.sub);
      case GiveUp => FailGrounded(l);
      case Stop => CloseGrounded(c, l.sub, true);
    }
  }

  lemma {:induction false} RunGrounded(l: Life, steps: seq<Step>)
    requires Grounded(l.sub.config, l.sub.log) && Legal(l, steps)
    ensures Grounded(Run(l, steps).sub.config, Run(l, steps).sub.log)
    decreases |steps|
  {
    if steps != [] {
      StepGrounded(l, steps[0]);
      RunGrounded(Apply(l, steps[0]), steps[1..]);
    }
  }

  // ----- A changed array ends the subscription -----

  predicate NoMismatch(log: seq<Event>) {
    forall i :: 0 <= i < |log| ==> !log[i].Mismatched?
  }

  /** No Open after a mismatch. */
  ghost predicate MismatchIsLast(log: seq<Event>) {
    forall i, j :: 0 <= i < j < |log| && log[i].Mismatched? ==> !log[j].OpenSent?
  }

  /** A reopened session with another array leaves only a failed subscription. */
  ghost predicate MismatchIsFinal(l: Life) {
    && MismatchIsLast(l.sub.log)
    && (NoMismatch(l.sub.log) || (l.mode.Ended? && l.sub.phase == Failed))
  }

  lemma EstablishMismatch(s: Sub, candidate: Session, a: Attempt)
    requires NoMismatch(s.log)
    ensures var (s', r) := Establish(s, candidate, a);
      MismatchIsLast(s'.log) && (NoMismatch(s'.log) || r == Failure(MISMATCH))
  {
    var up := s.(session := candidate, transport := true, phase := Probing).Note(Published(candidate.granted));
    assert NoMismatch(up.log);
    CloseMismatch(up, true);
  }

  lemma OpenWithMismatch(s: Sub, a: Attempt, adoption: Adoption)
    requires NoMismatch(s.log)
    ensures var (s', r) := OpenWith(s, a, adoption);
      MismatchIsLast(s'.log) && (NoMismatch(s'.log) || r == Failure(MISMATCH))
  {
    if a.reply.Some? && adoption.Taken? {
      var sent := SendOpen(s);
      EstablishMismatch(sent.Note(Adopted(sent.correlation, a.reply.value, adoption.session)), adoption.session, a);
    }
  }

  lemma CloseMismatch(s: Sub, discard: bool)
    ensures NoMismatch(s.log) ==> NoMismatch(CloseSession(s, discard).log)
    ensures MismatchIsLast(s.log) ==> MismatchIsLast(CloseSession(s, discard).log)
  {
  }

  lemma FailMismatch(l: Life)
    requires MismatchIsLast(l.sub.log)
    ensures MismatchIsFinal(Fail(l))
  {
    var noted := l.sub.(phase := Failed).Note(DeliveryFailed);
    assert MismatchIsLast(noted.log);
    CloseMismatch(noted, true);
  }

  lemma LostMismatch(l: Life, status: u16)
    requires NoMismatch(l.sub.log)
    ensures MismatchIsFinal(Lost(l, status))
  {
    CloseMismatch(l.sub, false);
    FailMismatch(l.(sub := CloseSession(l.sub, false)));
  }

  lemma StepMismatch(l: Life, step: Step)
    requires MismatchIsFinal(l) && Enabled(l, step)
    ensures MismatchIsFinal(Apply(l, step))
  {
    assert NoMismatch(l.sub.log);
    match step {
      case TryOpen(a) =>
        OpenWithMismatch(BeforeOpen(l), a, Adopting(BeforeOpen(l), a));
        FailMismatch(l.(sub := OpenSubscription(BeforeOpen(l), a).0));
      case Renew(reply, channel) =>
        var (s, r) := RenewOnce(l.sub, reply, channel);
        assert NoMismatch(s.log);
        if r.Failure? {
          LostMismatch(l.(sub := s), r.status);
        }
      case TransportFails(status) => LostMismatch(l, status);
      case CallbackThrows => CloseMismatch(l.sub.Note(Event.CallbackFailed), true);
      case GiveUp => FailMismatch(l);
      case Stop => CloseMismatch(l.sub, true);
    }
  }

  lemma {:induction false} RunMismatch(l: Life, steps: seq<Step>)
    requires MismatchIsFinal(l) && Legal(l, steps)
    ensures MismatchIsFinal(Run(l, steps))
    decreases |steps|
  {
    if steps != [] {
      StepMismatch(l, steps[0]);
      RunMismatch(Apply(l, steps[0]), steps[1..]);
    }
  }

  // ----- The delivery queue -----

  predicate EndsDelivery(e: Event) {
    e.DeliveryFailed? || e.CallbackFailed?
  }

  /** Delivery ends with the life, once, and after a session failure nothing else
      happens to the queue. */
  ghost predicate DeliveryFate(l: Life) {
    && (!l.mode.Ended? ==> forall i :: 0 <= i < |l.sub.log| ==> !EndsDelivery(l.sub.log[i]))
    && (!l.mode.Ended? ==> l.sub.phase != Failed)
    && (forall i, j :: 0 <= i < j < |l.sub.log| && l.sub.log[i].DeliveryFailed? ==> !l.sub.log[j].Discarded?)
    && (l.sub.phase == Failed ==> exists i :: 0 <= i < |l.sub.log| && EndsDelivery(l.sub.log[i]))
  }

  lemma {:induction false} RunFailure(l: Life, steps: seq<Step>)
    requires DeliveryFate(l) && Inv(l) && Legal(l, steps)
    ensures DeliveryFate(Run(l, steps))
    decreases |steps|
  {
    if steps != [] {
      StepKeeps(l, steps[0]);
      StepFailure(l, steps[0]);
      RunFailure(Apply(l, steps[0]), steps[1..]);
    }
  }

  /** Until it ends, a life's log says nothing final about delivery. */
  ghost predicate Delivering(s: Sub) {
    s.phase != Failed && forall i :: 0 <= i < |s.log| ==> !EndsDelivery(s.log[i])
  }

  lemma FailFate(l: Life)
    requires Delivering(l.sub) && !l.sub.transport
    ensures DeliveryFate(Fail(l))
  {
    var log := Fail(l).sub.log;
    assert log == l.sub.log + [DeliveryFailed];
    assert EndsDelivery(log[|log| - 1]);
  }

  lemma CloseDelivers(s: Sub, discard: bool)
    requires Delivering(s)
    ensures Delivering(CloseSession(s, discard)) && !CloseSession(s, discard).transport
  {
  }

  lemma EstablishDelivers(s: Sub, candidate: Session, a: Attempt)
    requires Delivering(s) && !s.transport
    ensures var (s', r) := Establish(s, candidate, a); Delivering(s') && (r.Failure? ==> !s'.transport)
  {
    var up := s.(session := candidate, transport := true, phase := Probing).Note(Published(candidate.granted));
    assert Delivering(up);
    CloseDelivers(up, true);
  }

  lemma OpenDelivers(s: Sub, a: Attempt, adoption: Adoption)
    requires Delivering(s) && !s.transport
    ensures var (s', r) := OpenWith(s, a, adoption); Delivering(s') && (r.Failure? ==> !s'.transport)
  {
    var sent := SendOpen(s);
    assert Delivering(sent);
    if a.reply.Some? && adoption.Taken? {
      EstablishDelivers(sent.Note(Adopted(sent.correlation, a.reply.value, adoption.session)), adoption.session, a);
    }
  }

  lemma LostFate(l: Life, status: u16)
    requires Delivering(l.sub)
    ensures DeliveryFate(Lost(l, status))
  {
    CloseDelivers(l.sub, false);
    FailFate(l.(sub := CloseSession(l.sub, false)));
  }

  lemma ThrowFate(l: Life)
    requires DeliveryFate(l) && Enabled(l, CallbackThrows)
    ensures DeliveryFate(Apply(l, CallbackThrows))
  {
    var log := Apply(l, CallbackThrows).sub.log;
    assert l.sub.log + [Event.CallbackFailed] <= log;
    assert EndsDelivery(log[|l.sub.log|]);
  }

  lemma TryOpenFate(l: Life, a: Attempt)
    requires DeliveryFate(l) && !l.sub.transport && Enabled(l, TryOpen(a))
    ensures DeliveryFate(Apply(l, TryOpen(a)))
  {
    OpenDelivers(BeforeOpen(l), a, Adopting(BeforeOpen(l), a));
    var (s, r) := OpenSubscription(BeforeOpen(l), a);
    if r.Failure? {
      FailFate(l.(sub := s));
    }
  }

  lemma StepFailure(l: Life, step: Step)
    requires DeliveryFate(l) && Inv(l) && Enabled(l, step)
    ensures DeliveryFate(Apply(l, step))
  {
    match step {
      case TryOpen(a) =>
        TryOpenFate(l, a);
      case Renew(reply, channel) =>
        var (s, r) := RenewOnce(l.sub, reply, channel);
        if r.Failure? {
          LostFate(l.(sub := s), r.status);
        }
      case TransportFails(status) => LostFate(l, status);
      case CallbackThrows => ThrowFate(l);
      case GiveUp => FailFate(l);
      case Stop => CloseDelivers(l.sub, true);
    }
  }

  // ----- One array per subscription -----

  /** The array of a published transport is the one this subscription is about. */
  predicate KnownArray(s: Sub, g: GeometryBlock) {
    && (s.transport || s.retired.Some?)
    && (s.transport ==> s.session.granted.DescribesSameArray(g))
    && (s.retired.Some? ==> s.retired.value.DescribesSameArray(g))
  }

  ghost predicate OneArray(s: Sub) {
    && (forall i :: 0 <= i < |s.log| && s.log[i].Published? ==> KnownArray(s, s.log[i].geometry))
    && (s.transport ==> s.session.granted.generation != 0)
  }

  lemma CloseSessionArray(s: Sub, discard: bool)
    requires OneArray(s)
    ensures OneArray(CloseSession(s, discard)) && !CloseSession(s, discard).transport
  {
  }

  lemma EstablishArray(s: Sub, candidate: Session, a: Attempt)
    requires OneArray(s) && !s.transport && (candidate.address != [] ==> candidate.granted.generation != 0)
    ensures OneArray(Establish(s, candidate, a).0)
  {
    if !ArrayChanged(s, candidate.granted) && Activation(candidate, a) == OK {
      var up := s.(session := candidate, transport := true, phase := Probing).Note(Published(candidate.granted));
      assert OneArray(up);
      CloseSessionArray(up, true);
    }
  }

  /** Whatever is adopted with an address has a grant with a generation. */
  lemma AdoptedGrant(s: Sub, a: Attempt)
    requires a.reply.Some? && Adopting(s, a).Taken?
    ensures var c := Adopting(s, a).session; c.address != [] ==> c.granted.generation != 0
  {
    if !ErrorSayingOk(a.reply.value) {
      AdoptedAnswersRequest(s.config, a.reply.value, s.correlation + 1);
      assert Adoptable(s.config, Adopting(s, a).session.granted);
    } else {
      PeekAgrees(a.reply.value, ERROR);
    }
  }

  lemma TryOpenArray(s: Sub, a: Attempt)
    requires OneArray(s) && !s.transport
    ensures OneArray(OpenSubscription(s, a).0)
  {
    var adoption := Adopting(s, a);
    if a.factory.None? && a.reply.Some? && adoption.Taken? {
      AdoptedGrant(s, a);
      var sent := SendOpen(s);
      EstablishArray(sent.Note(Adopted(sent.correlation, a.reply.value, adoption.session)), adoption.session, a);
    }
  }

  lemma RenewSameGrant(s: Session, data: seq<byte>, expected: nat)
    ensures AdoptRenew(s, data, expected).1.granted == s.granted
  {
  }

  lemma RenewArray(s: Sub, reply: Option<seq<byte>>, channel: u16)
    requires OneArray(s)
    ensures OneArray(RenewOnce(s, reply, channel).0)
  {
    if reply.Some? {
      RenewSameGrant(s.session, reply.value, s.correlation + 1);
    }
  }

  lemma NoteArray(s: Sub, e: Event)
    requires OneArray(s) && !e.Published?
    ensures OneArray(s.Note(e))
  {
  }

  lemma FailArray(l: Life)
    requires OneArray(l.sub)
    ensures OneArray(Fail(l).sub)
  {
    NoteArray(l.sub, DeliveryFailed);
    CloseSessionArray(l.sub.(phase := Failed).Note(DeliveryFailed), true);
  }

  lemma LostArray(l: Life, status: u16)
    requires OneArray(l.sub)
    ensures OneArray(Lost(l, status).sub)
  {
    CloseSessionArray(l.sub, false);
    FailArray(l.(sub := CloseSession(l.sub, false)));
  }

  lemma StepArray(l: Life, step: Step)
    requires OneArray(l.sub) && Inv(l) && Enabled(l, step)
    ensures OneArray(Apply(l, step).sub)
  {
    match step {
      case TryOpen(a) =>
        NoteArray(l.sub, Discarded);
        TryOpenArray(BeforeOpen(l), a);
        FailArray(l.(sub := OpenSubscription(BeforeOpen(l), a).0));
      case Renew(reply, channel) => RenewStepArray(l, reply, channel);
      case TransportFails(status) => LostArray(l, status);
      case CallbackThrows =>
        NoteArray(l.sub, Event.CallbackFailed);
        CloseSessionArray(l.sub.Note(Event.CallbackFailed), true);
      case GiveUp => FailArray(l);
      case Stop => CloseSessionArray(l.sub, true);
    }
  }

  lemma RenewStepArray(l: Life, reply: Option<seq<byte>>, channel: u16)
    requires OneArray(l.sub) && Enabled(l, Renew(reply, channel))
    ensures OneArray(Apply(l, Renew(reply, channel)).sub)
  {
    RenewArray(l.sub, reply, channel);
    var (s, r) := RenewOnce(l.sub, reply, channel);
    if r.Failure? {
      LostArray(l.(sub := s), r.status);
    }
  }

  lemma {:induction false} RunArray(l: Life, steps: seq<Step>)
    requires OneArray(l.sub) && Inv(l) && Legal(l, steps)
    ensures OneArray(Run(l, steps).sub)
    decreases |steps|
  {
    if steps != [] {
      StepArray(l, steps[0]);
      StepKeeps(l, steps[0]);
      RunArray(Apply(l, steps[0]), steps[1..]);
    }
  }

  // ----- Runs built step by step, and the Opens they send -----

  lemma {:induction false} RunExtends(l: Life, steps: seq<Step>, step: Step)
    requires Legal(l, steps) && Enabled(Run(l, steps), step)
    ensures Legal(l, steps + [step]) && Run(l, steps + [step]) == Apply(Run(l, steps), step)
    decreases |steps|
  {
    if steps == [] {
      assert [step][1..] == [];
      assert Legal(Apply(l, step), []) && Run(Apply(l, step), []) == Apply(l, step);
    } else {
      assert (steps + [step])[1..] == steps[1..] + [step];
      RunExtends(Apply(l, steps[0]), steps[1..], step);
    }
  }

  /** How many Opens the log has. */
  ghost function Opens(log: seq<Event>): nat {
    if log == [] then 0 else Opens(log[..|log| - 1]) + if log[|log| - 1].OpenSent? then 1 else 0
  }

  lemma OpensNote(log: seq<Event>, e: Event)
    ensures Opens(log + [e]) == Opens(log) + if e.OpenSent? then 1 else 0
  {
    assert (log + [e])[..|log|] == log;
  }

  lemma CloseSendsNoOpen(s: Sub, discard: bool)
    ensures Opens(CloseSession(s, discard).log) == Opens(s.log)
  {
    var close := CloseSent(s.correlation + 1, s.session.id);
    OpensNote(s.log, close);
    OpensNote(s.log + [close], Discarded);
  }

  lemma EstablishSendsNoOpen(s: Sub, candidate: Session, a: Attempt)
    ensures Opens(Establish(s, candidate, a).0.log) == Opens(s.log)
  {
    var close := CloseSent(s.correlation + 1, candidate.id);
    if ArrayChanged(s, candidate.granted) {
      OpensNote(s.log, Mismatched(candidate.granted));
      OpensNote(s.log + [Mismatched(candidate.granted)], close);
    } else if Activation(candidate, a) != OK {
      OpensNote(s.log, close);
    } else {
      OpensNote(s.log, Published(candidate.granted));
      CloseSendsNoOpen(s.(session := candidate, transport := true, phase := Probing).Note(Published(candidate.granted)), true);
    }
  }

  /** One attempt sends at most one Open. */
  lemma OneOpenPerAttempt(s: Sub, a: Attempt)
    ensures Opens(s.log) <= Opens(OpenSubscription(s, a).0.log) <= Opens(s.log) + 1
  {
    var sent := SendOpen(s);
    OpensNote(s.log, OpenSent(s.correlation + 1));
    var adoption := Adopting(s, a);
    if a.reply.Some? && adoption.Taken? {
      var e := Adopted(sent.correlation, a.reply.value, adoption.session);
      OpensNote(sent.log, e);
      EstablishSendsNoOpen(sent.Note(e), adoption.session, a);
    }
  }

  // ----- Main results -----

  /** Requests never reuse a correlation id, and no session is adopted except from the
      reply to the Open sent just before it, which the code judged acceptable. */
  lemma FreshCorrelations(l: Life, i: nat, j: nat)
    requires Reachable(l)
    ensures i < j < |l.sub.log| && IsRequest(l.sub.log[i]) && IsRequest(l.sub.log[j]) ==>
      l.sub.log[i].correlation < l.sub.log[j].correlation
    ensures j < |l.sub.log| && l.sub.log[j].Adopted? ==> j > 0 && l.sub.log[j - 1] == OpenSent(l.sub.log[j].request)
  {
    ReachableHolds(l);
  }

  /** Every adopted session answers the request it was adopted for, unless the reply
      was an Error reporting success. */
  lemma OnlyAnswersAdopted(l: Life, i: nat)
    requires Reachable(l) && i < |l.sub.log| && l.sub.log[i].Adopted?
    ensures var e := l.sub.log[i];
      AnswersOpen(l.sub.config, e.reply, e.request, e.session) <==> !ErrorSayingOk(e.reply)
  {
    var c: Config, bounded: bool, maxAttempts: nat, steps :|
      Legal(Start(c, bounded, maxAttempts), steps) && Run(Start(c, bounded, maxAttempts), steps) == l;
    RunGrounded(Start(c, bounded, maxAttempts), steps);
    assert AdoptionGrounded(l.sub.config, l.sub.log[i]);
    AdoptedAnswersRequest(l.sub.config, l.sub.log[i].reply, l.sub.log[i].request);
  }

  /** Without a Close for it in between, an adopted session is still the unclosed one. */
  lemma {:induction false} StaysUnclosed(log: seq<Event>, i: nat, j: nat)
    requires Orderly(log) && i < j <= |log| && log[i].Adopted?
    requires forall k :: i < k < j && log[k].CloseSent? ==> log[k].id != log[i].session.id
    ensures UnclosedAt(log, j) == Some(log[i].session.id)
    decreases j
  {
    if j > i + 1 {
      StaysUnclosed(log, i, j - 1);
    }
  }

  /** At most one adopted session exists at a time: before any later Open, a Close for
      it has been sent. */
  lemma ClosedBeforeNextOpen(l: Life, i: nat, j: nat) returns (k: nat)
    requires Reachable(l) && i < j < |l.sub.log| && l.sub.log[i].Adopted? && l.sub.log[j].OpenSent?
    ensures i < k < j && l.sub.log[k].CloseSent? && l.sub.log[k].id == l.sub.log[i].session.id
  {
    ReachableHolds(l);
    var log := l.sub.log;
    if forall k :: i < k < j && log[k].CloseSent? ==> log[k].id != log[i].session.id {
      StaysUnclosed(log, i, j);
      assert false;
    }
    k :| i < k < j && log[k].CloseSent? && log[k].id == log[i].session.id;
  }

  /** A reopened session that describes another array ends in Failed, with no Open after it. */
  lemma ChangedArrayFails(l: Life, i: nat)
    requires Reachable(l) && i < |l.sub.log| && l.sub.log[i].Mismatched?
    ensures l.mode.Ended? && l.sub.phase == Failed
    ensures forall j :: i < j < |l.sub.log| ==> !l.sub.log[j].OpenSent?
  {
    var c: Config, bounded: bool, maxAttempts: nat, steps :|
      Legal(Start(c, bounded, maxAttempts), steps) && Run(Start(c, bounded, maxAttempts), steps) == l;
    RunMismatch(Start(c, bounded, maxAttempts), steps);
  }

  /** Over any run, whatever replies arrive, every published transport describes the
      same array. */
  lemma PublishedArraysAgree(l: Life, i: nat, j: nat)
    requires Reachable(l) && i < |l.sub.log| && j < |l.sub.log| && l.sub.log[i].Published? && l.sub.log[j].Published?
    ensures l.sub.log[i].geometry.DescribesSameArray(l.sub.log[j].geometry)
  {
    var c: Config, bounded: bool, maxAttempts: nat, steps :|
      Legal(Start(c, bounded, maxAttempts), steps) && Run(Start(c, bounded, maxAttempts), steps) == l;
    RunArray(Start(c, bounded, maxAttempts), steps);
  }

  /** Every transport that is published answers the Open sent for it, whatever replies
      arrive: just before it a session was adopted from a successful OpenReply to that
      very request, with a fitting grant, and it is published with that grant.  A
      session an Error reporting success was taken for never comes up. */
  lemma PublishedAnswersOpen(l: Life, i: nat)
    requires Reachable(l) && i < |l.sub.log| && l.sub.log[i].Published?
    ensures i > 1 && l.sub.log[i - 1].Adopted? && l.sub.log[i - 2] == OpenSent(l.sub.log[i - 1].request)
    ensures var e := l.sub.log[i - 1];
      AnswersOpen(l.sub.config, e.reply, e.request, e.session) && e.session.granted == l.sub.log[i].geometry
  {
    var c: Config, bounded: bool, maxAttempts: nat, steps :|
      Legal(Start(c, bounded, maxAttempts), steps) && Run(Start(c, bounded, maxAttempts), steps) == l;
    RunGrounded(Start(c, bounded, maxAttempts), steps);
    FreshCorrelations(l, 0, i - 1);
    var e := l.sub.log[i - 1];
    assert AdoptionGrounded(l.sub.config, e);
    AdoptedAnswersRequest(l.sub.config, e.reply, e.request);
    if ErrorSayingOk(e.reply) {
      PeekAgrees(e.reply, ERROR);
    }
  }

  /** Frames accepted before a session failure are never discarded by the owner: no
      discard follows the failure of the delivery queue. */
  lemma FailureKeepsFrames(l: Life, i: nat, j: nat)
    requires Reachable(l) && i < j < |l.sub.log| && l.sub.log[i].DeliveryFailed?
    ensures !l.sub.log[j].Discarded?
  {
    var c: Config, bounded: bool, maxAttempts: nat, steps :|
      Legal(Start(c, bounded, maxAttempts), steps) && Run(Start(c, bounded, maxAttempts), steps) == l;
    RunFailure(Start(c, bounded, maxAttempts), steps);
  }

  /** And every failed life has failed its queue, unless the frame callback threw. */
  lemma FailedLifeFailsQueue(l: Life)
    requires Reachable(l) && l.sub.phase == Failed
    ensures exists i :: 0 <= i < |l.sub.log| && (l.sub.log[i].DeliveryFailed? || l.sub.log[i].CallbackFailed?)
  {
    var c: Config, bounded: bool, maxAttempts: nat, steps :|
      Legal(Start(c, bounded, maxAttempts), steps) && Run(Start(c, bounded, maxAttempts), steps) == l;
    RunFailure(Start(c, bounded, maxAttempts), steps);
  }
}
