/** Encoding and decoding of the seven coordination messages, and their round trips. */
module Coordination {
  import opened Base
  import opened Wire
  import opened Geometry
  import opened Codec

  // ----- Open -----

  function OpenBody(m: OpenRequest): seq<byte> {
    Concat(OpenPieces(m)) + Tailed(2, m.streamName) + Tailed(4, m.address)
  }

  function EncodeOpen(m: OpenRequest, correlation: u64): Option<seq<byte>> {
    if !NameOk(m.streamName) || |m.address| == 0 || |m.address| > MAX_ADDRESS then None
    else Message(OPEN, correlation, OpenBody(m))
  }

  function OpenOfBody(body: seq<byte>): Option<OpenRequest> {
    if |body| < OPEN_FIXED then None
    else
      var name := ReadString(body, OPEN_FIXED, 1, MAX_NAME);
      if name.None? then None
      else
        var address := ReadBlob(body, name.value.next, 1, MAX_ADDRESS);
        if address.None? || address.value.next != |body| || !NameOk(name.value.bytes) then None
        else Some(OpenFrom(Slice(body, 0, OPEN_FIXED), name.value.bytes, address.value.bytes))
  }

  /** What a decoder makes of an opened message whose body it can or cannot read. */
  function Finish<T>(o: Opened, message: Option<T>): Decoded<T> {
    if o.Rejected? then Refused(o.status)
    else if message.None? then Refused(MalformedMessage)
    else Accepted(message.value, o.correlation)
  }

  function Body(o: Opened): seq<byte> {
    if o.Opened? then o.body else []
  }

  function DecodeOpen(data: seq<byte>): Decoded<OpenRequest> {
    var o := OpenCoord(data, OPEN);
    Finish(o, OpenOfBody(Body(o)))
  }

  lemma FrontOf(front: seq<byte>, rest: seq<byte>)
    ensures Slice(front + rest, 0, |front|) == front
  {
  }

  lemma OpenPartsRead(fixed: seq<byte>, name: seq<byte>, address: seq<byte>)
    requires |fixed| == OPEN_FIXED && NameOk(name) && 1 <= |address| <= MAX_ADDRESS
    ensures OpenOfBody(fixed + Tailed(2, name) + Tailed(4, address)) == Some(OpenFrom(fixed, name, address))
  {
    var body, first, second := fixed + Tailed(2, name) + Tailed(4, address), Tailed(2, name), Tailed(4, address);
    FieldReads(fixed, 2, name, second, 1, MAX_NAME);
    assert 0 !in name;
    FieldReads(fixed + first, 4, address, [], 1, MAX_ADDRESS);
    assert fixed + first + second + [] == body;
    FrontOf(fixed, first + second);
    assert body == fixed + (first + second);
  }

  lemma OpenBodyReads(m: OpenRequest)
    requires NameOk(m.streamName) && 1 <= |m.address| <= MAX_ADDRESS
    ensures |OpenBody(m)| <= MAX_BODY_BYTES && OpenOfBody(OpenBody(m)) == Some(m)
  {
    OpenFixedRead(m);
    OpenPartsRead(Concat(OpenPieces(m)), m.streamName, m.address);
  }

  /** An Open encodes exactly when its name and address are in range, and decodes to
      itself with its correlation id. */
  lemma OpenRoundTrip(m: OpenRequest, correlation: u64)
    ensures EncodeOpen(m, correlation).Some? <==> NameOk(m.streamName) && 1 <= |m.address| <= MAX_ADDRESS
    ensures EncodeOpen(m, correlation).Some? ==>
      DecodeOpen(EncodeOpen(m, correlation).value) == Accepted(m, correlation)
  {
    if NameOk(m.streamName) && 1 <= |m.address| <= MAX_ADDRESS {
      OpenBodyReads(m);
      OpenOfMessage(OPEN, correlation, OpenBody(m));
    }
  }

  // ----- OpenReply -----

  function OpenReplyBody(m: OpenReply): seq<byte> {
    Concat(OpenReplyPieces(m)) + Tailed(4, m.address)
  }

  function EncodeOpenReply(m: OpenReply, correlation: u64): Option<seq<byte>> {
    if |m.address| > MAX_ADDRESS || (m.status == 0 && m.address == []) then None
    else Message(OPEN_REPLY, correlation, OpenReplyBody(m))
  }

  function OpenReplyOfBody(body: seq<byte>): Option<OpenReply> {
    if |body| < OPEN_REPLY_FIXED then None
    else
      var address := ReadBlob(body, OPEN_REPLY_FIXED, 0, MAX_ADDRESS);
      if address.None? || address.value.next != |body| then None
      else Some(OpenReplyFrom(Slice(body, 0, OPEN_REPLY_FIXED), address.value.bytes))
  }

  function DecodeOpenReply(data: seq<byte>): Decoded<OpenReply> {
    var o := OpenCoord(data, OPEN_REPLY);
    Finish(o, OpenReplyOfBody(Body(o)))
  }

  lemma OpenReplyBodyReads(m: OpenReply)
    requires |m.address| <= MAX_ADDRESS
    ensures |OpenReplyBody(m)| <= MAX_BODY_BYTES && OpenReplyOfBody(OpenReplyBody(m)) == Some(m)
  {
    OpenReplyFixedRead(m);
    var fixed, address := Concat(OpenReplyPieces(m)), Tailed(4, m.address);
    FieldReads(fixed, 4, m.address, [], 0, MAX_ADDRESS);
    assert fixed + address + [] == OpenReplyBody(m);
    FrontOf(fixed, address);
  }

  /** An OpenReply encodes exactly when its address fits and a successful one has an
      address, and decodes to itself. */
  lemma OpenReplyRoundTrip(m: OpenReply, correlation: u64)
    ensures EncodeOpenReply(m, correlation).Some? <==> |m.address| <= MAX_ADDRESS && (m.status == 0 ==> m.address != [])
    ensures EncodeOpenReply(m, correlation).Some? ==>
      DecodeOpenReply(EncodeOpenReply(m, correlation).value) == Accepted(m, correlation)
  {
    if |m.address| <= MAX_ADDRESS {
      OpenReplyBodyReads(m);
      OpenOfMessage(OPEN_REPLY, correlation, OpenReplyBody(m));
    }
  }

  // ----- Fixed-body messages -----

  /** A fixed body is read only at an acceptable length. */
  function FixedBody(o: Opened, fixed: nat): Option<seq<byte>> {
    if o.Opened? && FixedBodyOk(|o.body|, fixed, o.minor) then Some(o.body) else None
  }

  function EncodeRenew(m: RenewRequest, correlation: u64): Option<seq<byte>> {
    Message(RENEW, correlation, Concat(RenewPieces(m)))
  }

  function DecodeRenew(data: seq<byte>): Decoded<RenewRequest> {
    var o := OpenCoord(data, RENEW);
    var body := FixedBody(o, RENEW_BYTES);
    Finish(o, if body.Some? then Some(RenewFrom(body.value)) else None)
  }

  lemma RenewRoundTrip(m: RenewRequest, correlation: u64)
    ensures EncodeRenew(m, correlation).Some?
    ensures DecodeRenew(EncodeRenew(m, correlation).value) == Accepted(m, correlation)
  {
    RenewRead(m);
    OpenOfMessage(RENEW, correlation, Concat(RenewPieces(m)));
  }

  function EncodeRenewReply(m: RenewReply, correlation: u64): Option<seq<byte>> {
    Message(RENEW_REPLY, correlation, Concat(RenewReplyPieces(m)))
  }

  function DecodeRenewReply(data: seq<byte>): Decoded<RenewReply> {
    var o := OpenCoord(data, RENEW_REPLY);
    var body := FixedBody(o, RENEW_REPLY_BYTES);
    Finish(o, if body.Some? then Some(RenewReplyFrom(body.value)) else None)
  }

  lemma RenewReplyRoundTrip(m: RenewReply, correlation: u64)
    ensures EncodeRenewReply(m, correlation).Some?
    ensures DecodeRenewReply(EncodeRenewReply(m, correlation).value) == Accepted(m, correlation)
  {
    RenewReplyRead(m);
    OpenOfMessage(RENEW_REPLY, correlation, Concat(RenewReplyPieces(m)));
  }

  function EncodeClose(m: CloseRequest, correlation: u64): Option<seq<byte>> {
    Message(CLOSE, correlation, Concat(ClosePieces(m)))
  }

  function DecodeClose(data: seq<byte>): Decoded<CloseRequest> {
    var o := OpenCoord(data, CLOSE);
    var body := FixedBody(o, CLOSE_BYTES);
    Finish(o, if body.Some? then Some(CloseFrom(body.value)) else None)
  }

  lemma CloseRoundTrip(m: CloseRequest, correlation: u64)
    ensures EncodeClose(m, correlation).Some?
    ensures DecodeClose(EncodeClose(m, correlation).value) == Accepted(m, correlation)
  {
    CloseRead(m);
    OpenOfMessage(CLOSE, correlation, Concat(ClosePieces(m)));
  }

  function EncodeCloseReply(m: CloseReply, correlation: u64): Option<seq<byte>> {
    Message(CLOSE_REPLY, correlation, Concat(CloseReplyPieces(m)))
  }

  function DecodeCloseReply(data: seq<byte>): Decoded<CloseReply> {
    var o := OpenCoord(data, CLOSE_REPLY);
    var body := FixedBody(o, CLOSE_REPLY_BYTES);
    Finish(o, if body.Some? then Some(CloseReplyFrom(body.value)) else None)
  }

  lemma CloseReplyRoundTrip(m: CloseReply, correlation: u64)
    ensures EncodeCloseReply(m, correlation).Some?
    ensures DecodeCloseReply(EncodeCloseReply(m, correlation).value) == Accepted(m, correlation)
  {
    CloseReplyRead(m);
    OpenOfMessage(CLOSE_REPLY, correlation, Concat(CloseReplyPieces(m)));
  }

  // ----- Error -----

  /** The text as it is sent: cut to the longest allowed. */
  function Truncated(text: seq<byte>): seq<byte> {
    if |text| > MAX_ERROR_TEXT then text[..MAX_ERROR_TEXT] else text
  }

  function ErrorBody(m: ErrorMessage): seq<byte> {
    Concat(ErrorPieces(m.status)) + Tailed(2, Truncated(m.text))
  }

  function EncodeError(m: ErrorMessage, correlation: u64): Option<seq<byte>> {
    Message(ERROR, correlation, ErrorBody(m))
  }

  function ErrorOfBody(body: seq<byte>): Option<ErrorMessage> {
    if |body| < ERROR_FIXED then None
    else
      var text := ReadString(body, ERROR_FIXED, 0, MAX_ERROR_TEXT);
      if text.None? || text.value.next != |body| then None
      else Some(ErrorMessage(Get16(Slice(body, 0, ERROR_FIXED), 0), text.value.bytes))
  }

  function DecodeError(data: seq<byte>): Decoded<ErrorMessage> {
    var o := OpenCoord(data, ERROR);
    Finish(o, ErrorOfBody(Body(o)))
  }

  lemma ErrorBodyReads(m: ErrorMessage)
    ensures |ErrorBody(m)| <= MAX_BODY_BYTES
    ensures ErrorOfBody(ErrorBody(m))
         == if 0 in Truncated(m.text) then None else Some(m.(text := Truncated(m.text)))
  {
    ErrorFixedRead(m.status);
    var fixed, tail := Concat(ErrorPieces(m.status)), Tailed(2, Truncated(m.text));
    FieldReads(fixed, 2, Truncated(m.text), [], 0, MAX_ERROR_TEXT);
    assert fixed + tail + [] == ErrorBody(m);
    FrontOf(fixed, tail);
  }

  /** An Error always encodes; it decodes to itself exactly when its text needs no
      cutting and holds no zero byte, and is refused when the sent text holds one. */
  lemma ErrorRoundTrip(m: ErrorMessage, correlation: u64)
    ensures EncodeError(m, correlation).Some?
    ensures var d := DecodeError(EncodeError(m, correlation).value);
      && (d == Accepted(m, correlation) <==> |m.text| <= MAX_ERROR_TEXT && 0 !in m.text)
      && (0 in Truncated(m.text) ==> d == Refused(MalformedMessage))
      && (0 !in Truncated(m.text) ==> d == Accepted(m.(text := Truncated(m.text)), correlation))
  {
    ErrorBodyReads(m);
    OpenOfMessage(ERROR, correlation, ErrorBody(m));
  }

  // ----- Reading the envelope first -----

  /** Open a message of whatever known type it says it is. */
  function PeekEnvelope(data: seq<byte>): Opened {
    if |data| < ENVELOPE_BYTES || !KnownType(Get16(data, 8)) then Rejected(MalformedMessage)
    else OpenCoord(data, Get16(data, 8))
  }

  /** An accepted message's envelope peeks to the same correlation id. */
  lemma PeekAgrees(data: seq<byte>, t: u16)
    requires OpenCoord(data, t).Opened?
    ensures PeekEnvelope(data) == OpenCoord(data, t) && Get16(data, 8) == t
  {
  }

  // ----- Exact lengths and longer headers -----

  /** Nothing but the envelope's own length distinguishes two messages that open alike. */
  lemma SameOpeningSameMessage(a: seq<byte>, b: seq<byte>)
    ensures OpenCoord(a, OPEN) == OpenCoord(b, OPEN) ==> DecodeOpen(a) == DecodeOpen(b)
    ensures OpenCoord(a, OPEN_REPLY) == OpenCoord(b, OPEN_REPLY) ==> DecodeOpenReply(a) == DecodeOpenReply(b)
    ensures OpenCoord(a, RENEW) == OpenCoord(b, RENEW) ==> DecodeRenew(a) == DecodeRenew(b)
    ensures OpenCoord(a, RENEW_REPLY) == OpenCoord(b, RENEW_REPLY) ==> DecodeRenewReply(a) == DecodeRenewReply(b)
    ensures OpenCoord(a, CLOSE) == OpenCoord(b, CLOSE) ==> DecodeClose(a) == DecodeClose(b)
    ensures OpenCoord(a, CLOSE_REPLY) == OpenCoord(b, CLOSE_REPLY) ==> DecodeCloseReply(a) == DecodeCloseReply(b)
    ensures OpenCoord(a, ERROR) == OpenCoord(b, ERROR) ==> DecodeError(a) == DecodeError(b)
  {
  }

  /** `longer` is `data` with a longer header: same known envelope fields, same body. */
  ghost predicate LongerHeader(data: seq<byte>, longer: seq<byte>) {
    && ENVELOPE_BYTES <= |data| && ENVELOPE_BYTES <= |longer| <= MAX_MESSAGE_BYTES
    && Slice(longer, 0, 6) == Slice(data, 0, 6) && Slice(longer, 8, 24) == Slice(data, 8, 24)
    && Get16(longer, 6) >= ENVELOPE_BYTES && |longer| == Get16(longer, 6) + Get32(data, 12)
    && Get16(data, 6) <= |data|
    && longer[Get16(longer, 6)..] == data[Get16(data, 6)..]
  }

  /** Every accepted message is accepted with a longer header too, as the same one. */
  lemma LongerHeaderSameMessage(data: seq<byte>, longer: seq<byte>)
    requires LongerHeader(data, longer)
    ensures DecodeOpen(data).Accepted? ==> DecodeOpen(longer) == DecodeOpen(data)
    ensures DecodeOpenReply(data).Accepted? ==> DecodeOpenReply(longer) == DecodeOpenReply(data)
    ensures DecodeRenew(data).Accepted? ==> DecodeRenew(longer) == DecodeRenew(data)
    ensures DecodeRenewReply(data).Accepted? ==> DecodeRenewReply(longer) == DecodeRenewReply(data)
    ensures DecodeClose(data).Accepted? ==> DecodeClose(longer) == DecodeClose(data)
    ensures DecodeCloseReply(data).Accepted? ==> DecodeCloseReply(longer) == DecodeCloseReply(data)
    ensures DecodeError(data).Accepted? ==> DecodeError(longer) == DecodeError(data)
  {
    forall t: u16 | OpenCoord(data, t).Opened?
      ensures OpenCoord(longer, t) == OpenCoord(data, t)
    {
      LongerHeaderIgnored(data, longer, t);
    }
    SameOpeningSameMessage(data, longer);
  }

  /** An opened message is exactly its header and its body. */
  lemma OpenedLength(data: seq<byte>, t: u16)
    requires OpenCoord(data, t).Opened?
    ensures |data| >= ENVELOPE_BYTES && |data| == Get16(data, 6) + |OpenCoord(data, t).body|
    ensures Get8(data, 5) == OpenCoord(data, t).minor
  {
  }

  /** An accepted message with a tail accounts for every byte it was delivered with. */
  lemma EveryByteAccounted(data: seq<byte>)
    ensures var d := DecodeOpen(data); d.Accepted? ==>
      |data| >= 32 && |data| == Get16(data, 6) + OPEN_FIXED + 2 + |d.message.streamName| + 4 + |d.message.address|
    ensures var d := DecodeOpenReply(data); d.Accepted? ==>
      |data| >= 32 && |data| == Get16(data, 6) + OPEN_REPLY_FIXED + 4 + |d.message.address|
    ensures var d := DecodeError(data); d.Accepted? ==>
      |data| >= 32 && |data| == Get16(data, 6) + ERROR_FIXED + 2 + |d.message.text|
  {
    forall t: u16 | OpenCoord(data, t).Opened?
      ensures |data| >= ENVELOPE_BYTES && |data| == Get16(data, 6) + |OpenCoord(data, t).body|
    {
      OpenedLength(data, t);
    }
  }

  /** So does an accepted fixed-body message, unless its sender claims a newer minor. */
  lemma EveryFixedByteAccounted(data: seq<byte>)
    requires |data| >= ENVELOPE_BYTES && Get8(data, 5) <= VERSION_MINOR
    ensures DecodeRenew(data).Accepted? ==> |data| == Get16(data, 6) + RENEW_BYTES
    ensures DecodeRenewReply(data).Accepted? ==> |data| == Get16(data, 6) + RENEW_REPLY_BYTES
    ensures DecodeClose(data).Accepted? ==> |data| == Get16(data, 6) + CLOSE_BYTES
    ensures DecodeCloseReply(data).Accepted? ==> |data| == Get16(data, 6) + CLOSE_REPLY_BYTES
  {
    forall t: u16 | OpenCoord(data, t).Opened?
      ensures |data| == Get16(data, 6) + |OpenCoord(data, t).body| && OpenCoord(data, t).minor == Get8(data, 5)
    {
      OpenedLength(data, t);
    }
  }
}
