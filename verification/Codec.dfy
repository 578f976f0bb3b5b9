/** The coordination messages on the wire: envelope, fixed bodies at fixed offsets,
    and length-prefixed tails. */
module Codec {
  import opened Base
  import opened Wire
  import opened Geometry

  const COORD_MAGIC: u32 := 0x4B4C_4254
  const VERSION_MAJOR: byte := 1
  const VERSION_MINOR: byte := 0
  const ENVELOPE_BYTES: nat := 32
  const MAX_MESSAGE_BYTES: nat := 65536
  const MAX_BODY_BYTES: nat := 65504
  const MAX_ERROR_TEXT: nat := 512
  const MAX_NAME: nat := 64
  const MAX_ADDRESS: nat := 4096

  const OPEN_FIXED: nat := 56
  const OPEN_REPLY_FIXED: nat := 152
  const RENEW_BYTES: nat := 40
  const RENEW_REPLY_BYTES: nat := 128
  const CLOSE_BYTES: nat := 24
  const CLOSE_REPLY_BYTES: nat := 24
  const ERROR_FIXED: nat := 8

  const OPEN: u16 := 1
  const OPEN_REPLY: u16 := 2
  const RENEW: u16 := 3
  const RENEW_REPLY: u16 := 4
  const CLOSE: u16 := 5
  const CLOSE_REPLY: u16 := 6
  const ERROR: u16 := 0xFF

  type u16 = x: nat | x < 0x1_0000
  type Id = b: seq<byte> | |b| == 16 witness [0, 0, 0, 0, 0, 0, 0, 0, 0, 0, 0, 0, 0, 0, 0, 0]

  // ----- Typed reads -----

  function Get8(b: seq<byte>, off: nat): byte
    requires off + 1 <= |b|
  {
    Widths();
    LittleEndianOfValue(Slice(b, off, 1));
    Get(b, off, 1)
  }

  function Get16(b: seq<byte>, off: nat): u16
    requires off + 2 <= |b|
  {
    Widths();
    LittleEndianOfValue(Slice(b, off, 2));
    Get(b, off, 2)
  }

  function Get32(b: seq<byte>, off: nat): u32
    requires off + 4 <= |b|
  {
    Widths();
    LittleEndianOfValue(Slice(b, off, 4));
    Get(b, off, 4)
  }

  function Get64(b: seq<byte>, off: nat): u64
    requires off + 8 <= |b|
  {
    Widths();
    LittleEndianOfValue(Slice(b, off, 8));
    Get(b, off, 8)
  }

  function DimsPieces(d: Dims): seq<seq<byte>> {
    [LittleEndian(8, d[0]), LittleEndian(8, d[1]), LittleEndian(8, d[2]), LittleEndian(8, d[3])]
  }

  function DimsBytes(d: Dims): (b: seq<byte>)
    ensures |b| == 32
  {
    DimsRead(d);
    Concat(DimsPieces(d))
  }

  function GetDims(b: seq<byte>): Dims
    requires |b| == 32
  {
    [Get64(b, 0), Get64(b, 8), Get64(b, 16), Get64(b, 24)]
  }

  lemma DimsRead(d: Dims)
    ensures |Concat(DimsPieces(d))| == 32 && GetDims(Concat(DimsPieces(d))) == d
  {
    var p := DimsPieces(d);
    IntegersRead();
    Reads(p, 0);
    Reads(p, 1);
    Reads(p, 2);
    Reads(p, 3);
  }

  function GeometryPieces(g: GeometryBlock): seq<seq<byte>> {
    [LittleEndian(4, g.generation), LittleEndian(4, g.elementType), LittleEndian(4, g.elementSize),
     LittleEndian(4, g.rank), LittleEndian(8, g.maxFrameBytes), LittleEndian(4, g.ringDepth),
     LittleEndian(4, g.creditWindow), DimsBytes(g.shape), DimsBytes(g.strides)]
  }

  function GeometryBytes(g: GeometryBlock): (b: seq<byte>)
    ensures |b| == 96
  {
    GeometryRead(g);
    Concat(GeometryPieces(g))
  }

  function GetGeometry(b: seq<byte>): GeometryBlock
    requires |b| == 96
  {
    GeometryBlock(Get32(b, 0), Get32(b, 4), Get32(b, 8), Get32(b, 12), Get64(b, 16), Get32(b, 24), Get32(b, 28),
                  GetDims(Slice(b, 32, 32)), GetDims(Slice(b, 64, 32)))
  }

  lemma GeometryRead(g: GeometryBlock)
    ensures |Concat(GeometryPieces(g))| == 96 && GetGeometry(Concat(GeometryPieces(g))) == g
  {
    var p := GeometryPieces(g);
    IntegersRead();
    DimsRead(g.shape);
    DimsRead(g.strides);
    Reads(p, 0);
    Reads(p, 1);
    Reads(p, 2);
    Reads(p, 3);
    Reads(p, 4);
    Reads(p, 5);
    Reads(p, 6);
    Reads(p, 7);
    Reads(p, 8);
  }

  // ----- Envelope -----

  predicate KnownType(t: u16) {
    1 <= t <= 6 || t == ERROR
  }

  function EnvelopePieces(magic: u32, major: byte, minor: byte, header: u16, t: u16, flags: u16, bodyBytes: u32,
                          correlation: u64, reserved: u64): seq<seq<byte>> {
    [LittleEndian(4, magic), LittleEndian(1, major), LittleEndian(1, minor), LittleEndian(2, header),
     LittleEndian(2, t), LittleEndian(2, flags), LittleEndian(4, bodyBytes), LittleEndian(8, correlation),
     LittleEndian(8, reserved)]
  }

  lemma EnvelopeRead(magic: u32, major: byte, minor: byte, header: u16, t: u16, flags: u16, bodyBytes: u32,
                     correlation: u64, reserved: u64)
    ensures var e := Concat(EnvelopePieces(magic, major, minor, header, t, flags, bodyBytes, correlation, reserved));
      && |e| == 32
      && Get(e, 0, 4) == magic && Get(e, 4, 1) == major && Get(e, 5, 1) == minor
      && Get(e, 6, 2) == header && Get(e, 8, 2) == t
      && Get(e, 12, 4) == bodyBytes && Get(e, 16, 8) == correlation
  {
    var p := EnvelopePieces(magic, major, minor, header, t, flags, bodyBytes, correlation, reserved);
    IntegersRead();
    Reads(p, 0);
    Reads(p, 1);
    Reads(p, 2);
    Reads(p, 3);
    Reads(p, 4);
    Reads(p, 5);
    Reads(p, 6);
    Reads(p, 7);
    Reads(p, 8);
  }

  /** The envelope of a message with the given body length. */
  function Envelope(t: u16, correlation: u64, bodyBytes: u32): (e: seq<byte>)
    ensures |e| == ENVELOPE_BYTES && Announces(e, t, bodyBytes, correlation)
  {
    EnvelopeRead(COORD_MAGIC, VERSION_MAJOR, VERSION_MINOR, ENVELOPE_BYTES, t, 0, bodyBytes, correlation, 0);
    Concat(EnvelopePieces(COORD_MAGIC, VERSION_MAJOR, VERSION_MINOR, ENVELOPE_BYTES, t, 0, bodyBytes, correlation, 0))
  }

  /** A whole message; too large a body cannot be encoded. */
  function Message(t: u16, correlation: u64, body: seq<byte>): Option<seq<byte>> {
    if |body| > MAX_BODY_BYTES then None else Some(Envelope(t, correlation, |body|) + body)
  }

  datatype Opened = Opened(minor: byte, correlation: u64, body: seq<byte>) | Rejected(status: Status)

  /** Check the envelope and locate the body. */
  function OpenCoord(data: seq<byte>, expected: u16): Opened {
    if |data| < ENVELOPE_BYTES || |data| > MAX_MESSAGE_BYTES then Rejected(MalformedMessage)
    else if Get32(data, 0) != COORD_MAGIC then Rejected(MalformedMessage)
    else if Get8(data, 4) != VERSION_MAJOR then Rejected(UnsupportedVersion)
    else
      var header := Get16(data, 6);
      var bodyBytes := Get32(data, 12);
      if header < ENVELOPE_BYTES || |data| < header then Rejected(MalformedMessage)
      else if bodyBytes > MAX_BODY_BYTES || |data| != header + bodyBytes then Rejected(MalformedMessage)
      else if !KnownType(Get16(data, 8)) || Get16(data, 8) != expected then Rejected(MalformedMessage)
      else Opened(Get8(data, 5), Get64(data, 16), Slice(data, header, bodyBytes))
  }

  lemma SliceOfFront(a: seq<byte>, b: seq<byte>, off: nat, n: nat)
    requires off + n <= |a|
    ensures Slice(a + b, off, n) == Slice(a, off, n)
  {
  }

  /** `e` is an envelope of ours for a message of this type, body length and correlation. */
  predicate Announces(e: seq<byte>, t: u16, bodyBytes: nat, correlation: u64) {
    && |e| >= ENVELOPE_BYTES
    && Get(e, 0, 4) == COORD_MAGIC && Get(e, 4, 1) == VERSION_MAJOR && Get(e, 5, 1) == VERSION_MINOR
    && Get(e, 6, 2) == ENVELOPE_BYTES && Get(e, 8, 2) == t
    && Get(e, 12, 4) == bodyBytes && Get(e, 16, 8) == correlation
  }

  lemma AnnouncesWhole(e: seq<byte>, t: u16, correlation: u64, body: seq<byte>)
    requires |e| == ENVELOPE_BYTES && Announces(e, t, |body|, correlation)
    ensures Announces(e + body, t, |body|, correlation)
  {
    SliceOfFront(e, body, 0, 4);
    SliceOfFront(e, body, 4, 1);
    SliceOfFront(e, body, 5, 1);
    SliceOfFront(e, body, 6, 2);
    SliceOfFront(e, body, 8, 2);
    SliceOfFront(e, body, 12, 4);
    SliceOfFront(e, body, 16, 8);
  }

  lemma OpensTo(e: seq<byte>, t: u16, correlation: u64, body: seq<byte>)
    requires |e| == ENVELOPE_BYTES && Announces(e, t, |body|, correlation)
    requires |body| <= MAX_BODY_BYTES && KnownType(t)
    ensures OpenCoord(e + body, t) == Opened(VERSION_MINOR, correlation, body)
  {
    AnnouncesWhole(e, t, correlation, body);
    assert Slice(e + body, ENVELOPE_BYTES, |body|) == body;
  }

  /** Opening an encoded message gives its body and correlation id back. */
  lemma OpenOfMessage(t: u16, correlation: u64, body: seq<byte>)
    requires |body| <= MAX_BODY_BYTES && KnownType(t)
    ensures OpenCoord(Message(t, correlation, body).value, t) == Opened(VERSION_MINOR, correlation, body)
  {
    OpensTo(Envelope(t, correlation, |body|), t, correlation, body);
  }

  /** Every byte is accounted for: adding or removing any at the end is noticed. */
  lemma OpenIsExact(data: seq<byte>, other: seq<byte>, expected: u16)
    requires OpenCoord(data, expected).Opened? && data != other && (data <= other || other <= data)
    ensures OpenCoord(other, expected).Rejected?
  {
    if |other| >= ENVELOPE_BYTES {
      assert Slice(other, 0, ENVELOPE_BYTES) == Slice(data, 0, ENVELOPE_BYTES);
      SubSlice(data, other, 0, ENVELOPE_BYTES, 6, 2);
      SubSlice(data, other, 0, ENVELOPE_BYTES, 12, 4);
    }
  }

  /** Header bytes past the ones we know change nothing: two messages that agree on
      the envelope except for its length, and on the body, open to the same thing. */
  lemma LongerHeaderIgnored(data: seq<byte>, longer: seq<byte>, expected: u16)
    requires OpenCoord(data, expected).Opened? && ENVELOPE_BYTES <= |longer| <= MAX_MESSAGE_BYTES
    requires Slice(longer, 0, 6) == Slice(data, 0, 6) && Slice(longer, 8, 24) == Slice(data, 8, 24)
    requires Get16(longer, 6) >= ENVELOPE_BYTES && |longer| == Get16(longer, 6) + Get32(data, 12)
    requires longer[Get16(longer, 6)..] == data[Get16(data, 6)..]
    ensures OpenCoord(longer, expected) == OpenCoord(data, expected)
  {
    SubSlices(data, longer);
    var n := Get32(data, 12);
    assert Slice(longer, Get16(longer, 6), n) == longer[Get16(longer, 6)..];
    assert Slice(data, Get16(data, 6), n) == data[Get16(data, 6)..];
  }

  lemma SubSlices(a: seq<byte>, b: seq<byte>)
    requires |a| >= ENVELOPE_BYTES && |b| >= ENVELOPE_BYTES
    requires Slice(b, 0, 6) == Slice(a, 0, 6) && Slice(b, 8, 24) == Slice(a, 8, 24)
    ensures Get(a, 0, 4) == Get(b, 0, 4) && Get(a, 4, 1) == Get(b, 4, 1) && Get(a, 5, 1) == Get(b, 5, 1)
    ensures Get(a, 8, 2) == Get(b, 8, 2) && Get(a, 12, 4) == Get(b, 12, 4) && Get(a, 16, 8) == Get(b, 16, 8)
  {
    SubSlice(a, b, 0, 6, 0, 4);
    SubSlice(a, b, 0, 6, 4, 1);
    SubSlice(a, b, 0, 6, 5, 1);
    SubSlice(a, b, 8, 24, 8, 2);
    SubSlice(a, b, 8, 24, 12, 4);
    SubSlice(a, b, 8, 24, 16, 8);
  }

  lemma SubSlice(a: seq<byte>, b: seq<byte>, off: nat, n: nat, o: nat, m: nat)
    requires off <= o && o + m <= off + n && off + n <= |a| && off + n <= |b|
    requires Slice(a, off, n) == Slice(b, off, n)
    ensures Slice(a, o, m) == Slice(b, o, m)
  {
    forall k | 0 <= k < m
      ensures Slice(a, o, m)[k] == Slice(b, o, m)[k]
    {
      assert Slice(a, off, n)[o - off + k] == Slice(b, off, n)[o - off + k];
    }
  }

  /** The length rule for bodies without a tail. */
  predicate FixedBodyOk(size: nat, fixed: nat, minor: byte) {
    size >= fixed && (size > fixed ==> minor > VERSION_MINOR)
  }

  // ----- Tails -----

  /** A length-prefixed field and where the next one starts. */
  datatype TailField = TailField(bytes: seq<byte>, next: nat)

  /** Read a field whose length takes `width` bytes, if it is all there and in bounds. */
  function ReadField(body: seq<byte>, off: nat, width: nat, least: nat, most: nat): Option<TailField> {
    if off + width > |body| then None
    else
      var n := Get(body, off, width);
      if n < least || n > most || off + width + n > |body| then None
      else Some(TailField(Slice(body, off + width, n), off + width + n))
  }

  function ReadString(body: seq<byte>, off: nat, least: nat, most: nat): Option<TailField> {
    var f := ReadField(body, off, 2, least, most);
    if f.Some? && 0 in f.value.bytes then None else f
  }

  function ReadBlob(body: seq<byte>, off: nat, least: nat, most: nat): Option<TailField> {
    ReadField(body, off, 4, least, most)
  }

  /** A field with its length in front, in `width` bytes. */
  function Tailed(width: nat, bytes: seq<byte>): seq<byte> {
    LittleEndian(width, |bytes|) + bytes
  }

  /** A field in range reads back, and the cursor lands just past it. */
  lemma FieldReads(front: seq<byte>, width: nat, bytes: seq<byte>, rest: seq<byte>, least: nat, most: nat)
    requires Holds(width, |bytes|) && least <= |bytes| <= most
    ensures ReadField(front + Tailed(width, bytes) + rest, |front|, width, least, most)
         == Some(TailField(bytes, |front| + width + |bytes|))
  {
    var body := front + Tailed(width, bytes) + rest;
    var head := front + LittleEndian(width, |bytes|);
    IntegersRead();
    assert body == head + bytes + rest;
    assert Slice(body, |head|, |bytes|) == bytes;
    assert Slice(body, |front|, width) == LittleEndian(width, |bytes|);
  }

  /** The cursor the decoders advance over a tail. */
  class TailReader {
    const base: seq<byte>
    var offset: nat

    constructor (base: seq<byte>, offset: nat)
      ensures this.base == base && this.offset == offset
    {
      this.base := base;
      this.offset := offset;
    }

    method ReadStringField(least: nat, most: nat) returns (text: Option<seq<byte>>)
      modifies this
      ensures var f := ReadString(base, old(offset), least, most);
        && text == (if f.Some? then Some(f.value.bytes) else None)
        && offset == (if f.Some? then f.value.next else old(offset))
    {
      if offset + 2 > |base| {
        return None;
      }
      var n := GetLoop(base, offset, 2);
      if n < least || n > most || offset + 2 + n > |base| {
        return None;
      }
      var first := offset + 2;
      var i := 0;
      while i < n
        invariant 0 <= i <= n && offset == old(offset) && 0 !in base[first..first + i]
      {
        if base[first + i] == 0 {
          assert Slice(base, first, n)[i] == 0;
          return None;
        }
        i := i + 1;
      }
      text := Some(Slice(base, first, n));
      offset := offset + 2 + n;
    }

    method ReadBlobField(least: nat, most: nat) returns (blob: Option<seq<byte>>)
      modifies this
      ensures var f := ReadBlob(base, old(offset), least, most);
        && blob == (if f.Some? then Some(f.value.bytes) else None)
        && offset == (if f.Some? then f.value.next else old(offset))
    {
      if offset + 4 > |base| {
        return None;
      }
      var n := GetLoop(base, offset, 4);
      if n < least || n > most || offset + 4 + n > |base| {
        return None;
      }
      blob := Some(Slice(base, offset + 4, n));
      offset := offset + 4 + n;
    }
  }

  // ----- Messages -----

  datatype Decoded<+T> = Accepted(message: T, correlation: u64) | Refused(status: Status)

  datatype OpenRequest = OpenRequest(versionMin: byte, versionMax: byte, caps: u32, client: Id, maxFrameBytes: u64,
                                     ringDepth: u32, creditWindow: u32, memoryKind: u32, transport: u32,
                                     dropPolicy: u32, streamName: seq<byte>, address: seq<byte>)

  datatype OpenReply = OpenReply(versionSelected: byte, status: u16, caps: u32, session: Id, stream: u64,
                                 leaseTtl: u32, renewInterval: u32, transport: u32, serverEpoch: u64,
                                 geometry: GeometryBlock, address: seq<byte>)

  datatype RenewRequest = RenewRequest(session: Id, framesDelivered: u64, creditsReturned: u64, clientState: u32)

  datatype RenewReply = RenewReply(session: Id, status: u16, leaseTtl: u32, renewInterval: u32, serverState: u32,
                                   geometry: GeometryBlock)

  datatype CloseRequest = CloseRequest(session: Id, reason: u32)

  datatype CloseReply = CloseReply(session: Id, status: u16, framesCredited: u32)

  datatype ErrorMessage = ErrorMessage(status: u16, text: seq<byte>)

  predicate NameChar(c: byte) {
    65 <= c <= 90 || 97 <= c <= 122 || 48 <= c <= 57 || c == 95 || c == 46 || c == 45
  }

  /** One to 64 bytes of letters, digits, underscore, dot or dash. */
  predicate NameOk(name: seq<byte>) {
    1 <= |name| <= MAX_NAME && forall i :: 0 <= i < |name| ==> NameChar(name[i])
  }

  // ----- Fixed parts -----

  function OpenPieces(m: OpenRequest): seq<seq<byte>> {
    [LittleEndian(1, m.versionMin), LittleEndian(1, m.versionMax), LittleEndian(2, 0), LittleEndian(4, m.caps), m.client,
     LittleEndian(8, m.maxFrameBytes), LittleEndian(4, m.ringDepth), LittleEndian(4, m.creditWindow),
     LittleEndian(4, m.memoryKind), LittleEndian(4, m.transport), LittleEndian(4, m.dropPolicy), LittleEndian(4, 0)]
  }

  function OpenFrom(b: seq<byte>, name: seq<byte>, address: seq<byte>): OpenRequest
    requires |b| == OPEN_FIXED
  {
    OpenRequest(Get8(b, 0), Get8(b, 1), Get32(b, 4), Slice(b, 8, 16), Get64(b, 24), Get32(b, 32), Get32(b, 36),
                Get32(b, 40), Get32(b, 44), Get32(b, 48), name, address)
  }

  lemma OpenLayout(p: seq<seq<byte>>)
    requires |p| == 12 && |p[0]| == 1 && |p[1]| == 1 && |p[2]| == 2 && |p[3]| == 4 && |p[4]| == 16 && |p[5]| == 8
    requires |p[6]| == 4 && |p[7]| == 4 && |p[8]| == 4 && |p[9]| == 4 && |p[10]| == 4 && |p[11]| == 4
    ensures var b := Concat(p);
      && |b| == OPEN_FIXED
      && Slice(b, 0, 1) == p[0] && Slice(b, 1, 1) == p[1] && Slice(b, 2, 2) == p[2] && Slice(b, 4, 4) == p[3]
      && Slice(b, 8, 16) == p[4] && Slice(b, 24, 8) == p[5] && Slice(b, 32, 4) == p[6] && Slice(b, 36, 4) == p[7]
      && Slice(b, 40, 4) == p[8] && Slice(b, 44, 4) == p[9] && Slice(b, 48, 4) == p[10] && Slice(b, 52, 4) == p[11]
  {
    ReadsAll(p);
  }

  lemma OpenFixedRead(m: OpenRequest)
    ensures var b := Concat(OpenPieces(m)); |b| == OPEN_FIXED && OpenFrom(b, m.streamName, m.address) == m
  {
    OpenLayout(OpenPieces(m));
    IntegersRead();
  }

  function OpenReplyPieces(m: OpenReply): seq<seq<byte>> {
    [LittleEndian(1, m.versionSelected), LittleEndian(1, 0), LittleEndian(2, m.status), LittleEndian(4, m.caps),
     m.session, LittleEndian(8, m.stream), LittleEndian(4, m.leaseTtl), LittleEndian(4, m.renewInterval),
     LittleEndian(4, m.transport), LittleEndian(4, 0), LittleEndian(8, m.serverEpoch), GeometryBytes(m.geometry)]
  }

  function OpenReplyFrom(b: seq<byte>, address: seq<byte>): OpenReply
    requires |b| == OPEN_REPLY_FIXED
  {
    OpenReply(Get8(b, 0), Get16(b, 2), Get32(b, 4), Slice(b, 8, 16), Get64(b, 24), Get32(b, 32), Get32(b, 36),
              Get32(b, 40), Get64(b, 48), GetGeometry(Slice(b, 56, 96)), address)
  }

  lemma OpenReplyLayout(p: seq<seq<byte>>)
    requires |p| == 12 && |p[0]| == 1 && |p[1]| == 1 && |p[2]| == 2 && |p[3]| == 4 && |p[4]| == 16 && |p[5]| == 8
    requires |p[6]| == 4 && |p[7]| == 4 && |p[8]| == 4 && |p[9]| == 4 && |p[10]| == 8 && |p[11]| == 96
    ensures var b := Concat(p);
      && |b| == OPEN_REPLY_FIXED
      && Slice(b, 0, 1) == p[0] && Slice(b, 1, 1) == p[1] && Slice(b, 2, 2) == p[2] && Slice(b, 4, 4) == p[3]
      && Slice(b, 8, 16) == p[4] && Slice(b, 24, 8) == p[5] && Slice(b, 32, 4) == p[6] && Slice(b, 36, 4) == p[7]
      && Slice(b, 40, 4) == p[8] && Slice(b, 44, 4) == p[9] && Slice(b, 48, 8) == p[10] && Slice(b, 56, 96) == p[11]
  {
    ReadsAll(p);
  }

  lemma OpenReplyFixedRead(m: OpenReply)
    ensures var b := Concat(OpenReplyPieces(m)); |b| == OPEN_REPLY_FIXED && OpenReplyFrom(b, m.address) == m
  {
    OpenReplyLayout(OpenReplyPieces(m));
    IntegersRead();
    GeometryRead(m.geometry);
  }

  function RenewPieces(m: RenewRequest): seq<seq<byte>> {
    [m.session, LittleEndian(8, m.framesDelivered), LittleEndian(8, m.creditsReturned), LittleEndian(4, m.clientState),
     LittleEndian(4, 0)]
  }

  function RenewFrom(b: seq<byte>): RenewRequest
    requires |b| >= RENEW_BYTES
  {
    RenewRequest(Slice(b, 0, 16), Get64(b, 16), Get64(b, 24), Get32(b, 32))
  }

  lemma RenewLayout(p: seq<seq<byte>>)
    requires |p| == 5 && |p[0]| == 16 && |p[1]| == 8 && |p[2]| == 8 && |p[3]| == 4 && |p[4]| == 4
    ensures var b := Concat(p);
      && |b| == RENEW_BYTES
      && Slice(b, 0, 16) == p[0] && Slice(b, 16, 8) == p[1] && Slice(b, 24, 8) == p[2] && Slice(b, 32, 4) == p[3]
      && Slice(b, 36, 4) == p[4]
  {
    ReadsAll(p);
  }

  lemma RenewRead(m: RenewRequest)
    ensures var b := Concat(RenewPieces(m)); |b| == RENEW_BYTES && RenewFrom(b) == m
  {
    RenewLayout(RenewPieces(m));
    IntegersRead();
  }

  function RenewReplyPieces(m: RenewReply): seq<seq<byte>> {
    [m.session, LittleEndian(2, m.status), LittleEndian(2, 0), LittleEndian(4, m.leaseTtl),
     LittleEndian(4, m.renewInterval), LittleEndian(4, m.serverState), GeometryBytes(m.geometry)]
  }

  function RenewReplyFrom(b: seq<byte>): RenewReply
    requires |b| >= RENEW_REPLY_BYTES
  {
    RenewReply(Slice(b, 0, 16), Get16(b, 16), Get32(b, 20), Get32(b, 24), Get32(b, 28), GetGeometry(Slice(b, 32, 96)))
  }

  lemma RenewReplyLayout(p: seq<seq<byte>>)
    requires |p| == 7 && |p[0]| == 16 && |p[1]| == 2 && |p[2]| == 2 && |p[3]| == 4 && |p[4]| == 4 && |p[5]| == 4
    requires |p[6]| == 96
    ensures var b := Concat(p);
      && |b| == RENEW_REPLY_BYTES
      && Slice(b, 0, 16) == p[0] && Slice(b, 16, 2) == p[1] && Slice(b, 18, 2) == p[2] && Slice(b, 20, 4) == p[3]
      && Slice(b, 24, 4) == p[4] && Slice(b, 28, 4) == p[5] && Slice(b, 32, 96) == p[6]
  {
    ReadsAll(p);
  }

  lemma RenewReplyRead(m: RenewReply)
    ensures var b := Concat(RenewReplyPieces(m)); |b| == RENEW_REPLY_BYTES && RenewReplyFrom(b) == m
  {
    RenewReplyLayout(RenewReplyPieces(m));
    IntegersRead();
    GeometryRead(m.geometry);
  }

  function ClosePieces(m: CloseRequest): seq<seq<byte>> {
    [m.session, LittleEndian(4, m.reason), LittleEndian(4, 0)]
  }

  function CloseFrom(b: seq<byte>): CloseRequest
    requires |b| >= CLOSE_BYTES
  {
    CloseRequest(Slice(b, 0, 16), Get32(b, 16))
  }

  lemma CloseRead(m: CloseRequest)
    ensures var b := Concat(ClosePieces(m)); |b| == CLOSE_BYTES && CloseFrom(b) == m
  {
    var p := ClosePieces(m);
    Reads(p, 0);
    Reads(p, 1);
    Reads(p, 2);
    IntegersRead();
  }

  function CloseReplyPieces(m: CloseReply): seq<seq<byte>> {
    [m.session, LittleEndian(2, m.status), LittleEndian(2, 0), LittleEndian(4, m.framesCredited)]
  }

  function CloseReplyFrom(b: seq<byte>): CloseReply
    requires |b| >= CLOSE_REPLY_BYTES
  {
    CloseReply(Slice(b, 0, 16), Get16(b, 16), Get32(b, 20))
  }

  lemma CloseReplyRead(m: CloseReply)
    ensures var b := Concat(CloseReplyPieces(m)); |b| == CLOSE_REPLY_BYTES && CloseReplyFrom(b) == m
  {
    var p := CloseReplyPieces(m);
    Reads(p, 0);
    Reads(p, 1);
    Reads(p, 2);
    Reads(p, 3);
    IntegersRead();
  }

  function ErrorPieces(status: u16): seq<seq<byte>> {
    [LittleEndian(2, status), LittleEndian(2, 0), LittleEndian(4, 0)]
  }

  lemma ErrorFixedRead(status: u16)
    ensures var b := Concat(ErrorPieces(status)); |b| == ERROR_FIXED && Get16(b, 0) == status
  {
    var p := ErrorPieces(status);
    Reads(p, 0);
    Reads(p, 1);
    Reads(p, 2);
    IntegersRead();
  }
}
