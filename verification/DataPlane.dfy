/** The data-plane messages: frame headers, credits, probes and probe acks. */
module DataPlane {
  import opened Base
  import opened Wire
  import opened Geometry
  import opened FrameMetadata
  import opened Codec

  const DATA_MAGIC: u32 := 0x314B_4254
  const PREFIX_BYTES: nat := 16
  const FRAME_BYTES: nat := 160
  const SIGNAL_BYTES: nat := 32

  const FRAME: u16 := 1
  const CREDIT: u16 := 2
  const PROBE: u16 := 3
  const PROBE_ACK: u16 := 4

  datatype FrameHeader = FrameHeader(generation: u32, stream: u64, sequence: u64, payloadBytes: u64, timestamp: u64,
                                     eventCounter: u64, droppedBefore: u64, elementType: ElementType,
                                     elementSize: u32, rank: u32, quality: u32, memoryKind: u32, endian: u32,
                                     shape: Dims, strides: Dims)

  /** A credit (with its acknowledged sequence), a probe or a probe ack (with its token). */
  datatype Signal = Signal(generation: u32, stream: u64, word: u64)

  datatype Received<+T> = Received(message: T) | Dropped(status: Status)

  // ----- Prefix -----

  function PrefixPieces(magic: u32, major: byte, minor: byte, header: u16, t: u16, flags: u16, generation: u32)
    : seq<seq<byte>>
  {
    [LittleEndian(4, magic), LittleEndian(1, major), LittleEndian(1, minor), LittleEndian(2, header),
     LittleEndian(2, t), LittleEndian(2, flags), LittleEndian(4, generation)]
  }

  lemma PrefixLayout(p: seq<seq<byte>>)
    requires |p| == 7 && |p[0]| == 4 && |p[1]| == 1 && |p[2]| == 1 && |p[3]| == 2 && |p[4]| == 2 && |p[5]| == 2
    requires |p[6]| == 4
    ensures var b := Concat(p);
      && |b| == PREFIX_BYTES
      && Slice(b, 0, 4) == p[0] && Slice(b, 4, 1) == p[1] && Slice(b, 5, 1) == p[2] && Slice(b, 6, 2) == p[3]
      && Slice(b, 8, 2) == p[4] && Slice(b, 10, 2) == p[5] && Slice(b, 12, 4) == p[6]
  {
    ReadsAll(p);
  }

  lemma PrefixRead(magic: u32, major: byte, minor: byte, header: u16, t: u16, flags: u16, generation: u32)
    ensures var b := Concat(PrefixPieces(magic, major, minor, header, t, flags, generation));
      && |b| == PREFIX_BYTES
      && Get(b, 0, 4) == magic && Get(b, 4, 1) == major && Get(b, 6, 2) == header && Get(b, 8, 2) == t
      && Get(b, 12, 4) == generation
  {
    PrefixLayout(PrefixPieces(magic, major, minor, header, t, flags, generation));
    IntegersRead();
  }

  /** `b` starts with a prefix of ours for this type, header length and generation. */
  predicate Prefixed(b: seq<byte>, t: u16, header: nat, generation: u32) {
    && |b| >= PREFIX_BYTES
    && Get(b, 0, 4) == DATA_MAGIC && Get(b, 4, 1) == VERSION_MAJOR && Get(b, 6, 2) == header && Get(b, 8, 2) == t
    && Get(b, 12, 4) == generation
  }

  function Prefix(t: u16, header: u16, generation: u32): (b: seq<byte>)
    ensures |b| == PREFIX_BYTES && Prefixed(b, t, header, generation)
  {
    PrefixRead(DATA_MAGIC, VERSION_MAJOR, VERSION_MINOR, header, t, 0, generation);
    Concat(PrefixPieces(DATA_MAGIC, VERSION_MAJOR, VERSION_MINOR, header, t, 0, generation))
  }

  function MinHeader(t: u16): nat {
    if t == FRAME then FRAME_BYTES else if t == CREDIT || t == PROBE || t == PROBE_ACK then SIGNAL_BYTES else 0
  }

  /** Check the prefix and that the delivered bytes hold the whole header. */
  function OpenData(data: seq<byte>, expected: u16): Status {
    if |data| < PREFIX_BYTES || Get32(data, 0) != DATA_MAGIC then MalformedMessage
    else if Get8(data, 4) != VERSION_MAJOR then UnsupportedVersion
    else if Get16(data, 8) != expected then MalformedMessage
    else if Get16(data, 6) < MinHeader(expected) || |data| < Get16(data, 6) then MalformedMessage
    else Ok
  }

  lemma PrefixStays(b: seq<byte>, rest: seq<byte>, t: u16, header: nat, generation: u32)
    requires Prefixed(b, t, header, generation)
    ensures Prefixed(b + rest, t, header, generation)
  {
    SliceOfFront(b, rest, 0, 4);
    SliceOfFront(b, rest, 4, 1);
    SliceOfFront(b, rest, 6, 2);
    SliceOfFront(b, rest, 8, 2);
    SliceOfFront(b, rest, 12, 4);
  }

  // ----- Signals -----

  function SignalPieces(m: Signal): seq<seq<byte>> {
    [LittleEndian(8, m.stream), LittleEndian(8, m.word)]
  }

  function EncodeSignal(t: u16, m: Signal): seq<byte> {
    Prefix(t, SIGNAL_BYTES, m.generation) + Concat(SignalPieces(m))
  }

  function DecodeSignal(t: u16, data: seq<byte>): Received<Signal>
    requires t == CREDIT || t == PROBE || t == PROBE_ACK
  {
    var status := OpenData(data, t);
    if status != Ok then Dropped(status)
    else
      var b := Slice(data, PREFIX_BYTES, 16);
      Received(Signal(Get32(data, 12), Get64(b, 0), Get64(b, 8)))
  }

  lemma SignalRead(m: Signal)
    ensures var b := Concat(SignalPieces(m)); |b| == 16 && Get64(b, 0) == m.stream && Get64(b, 8) == m.word
  {
    var p := SignalPieces(m);
    Reads(p, 0);
    Reads(p, 1);
    IntegersRead();
  }

  /** Credits, probes and probe acks decode to themselves. */
  lemma SignalRoundTrip(t: u16, m: Signal)
    requires t == CREDIT || t == PROBE || t == PROBE_ACK
    ensures |EncodeSignal(t, m)| == SIGNAL_BYTES && DecodeSignal(t, EncodeSignal(t, m)) == Received(m)
  {
    SignalRead(m);
    var prefix, b := Prefix(t, SIGNAL_BYTES, m.generation), Concat(SignalPieces(m));
    PrefixStays(prefix, b, t, SIGNAL_BYTES, m.generation);
    assert Slice(prefix + b, PREFIX_BYTES, 16) == b;
  }

  // ----- Frame headers -----

  function FramePieces(m: FrameHeader): seq<seq<byte>> {
    [LittleEndian(8, m.stream), LittleEndian(8, m.sequence), LittleEndian(8, m.payloadBytes),
     LittleEndian(8, m.timestamp), LittleEndian(8, m.eventCounter), LittleEndian(8, m.droppedBefore),
     LittleEndian(4, m.elementType), LittleEndian(4, m.elementSize), LittleEndian(4, m.rank),
     LittleEndian(4, m.quality), LittleEndian(4, m.memoryKind), LittleEndian(4, m.endian),
     DimsBytes(m.shape), DimsBytes(m.strides), LittleEndian(8, 0)]
  }

  /** The fields after the prefix. */
  function FrameFrom(generation: u32, b: seq<byte>): FrameHeader
    requires |b| == FRAME_BYTES - PREFIX_BYTES
  {
    FrameHeader(generation, Get64(b, 0), Get64(b, 8), Get64(b, 16), Get64(b, 24), Get64(b, 32), Get64(b, 40),
                Get32(b, 48), Get32(b, 52), Get32(b, 56), Get32(b, 60), Get32(b, 64), Get32(b, 68),
                GetDims(Slice(b, 72, 32)), GetDims(Slice(b, 104, 32)))
  }

  lemma FrameLayout(p: seq<seq<byte>>)
    requires |p| == 15 && |p[0]| == 8 && |p[1]| == 8 && |p[2]| == 8 && |p[3]| == 8 && |p[4]| == 8 && |p[5]| == 8
    requires |p[6]| == 4 && |p[7]| == 4 && |p[8]| == 4 && |p[9]| == 4 && |p[10]| == 4 && |p[11]| == 4 && |p[12]| == 32
    requires |p[13]| == 32 && |p[14]| == 8
    ensures var b := Concat(p);
      && |b| == FRAME_BYTES - PREFIX_BYTES
      && Slice(b, 0, 8) == p[0] && Slice(b, 8, 8) == p[1] && Slice(b, 16, 8) == p[2] && Slice(b, 24, 8) == p[3]
      && Slice(b, 32, 8) == p[4] && Slice(b, 40, 8) == p[5] && Slice(b, 48, 4) == p[6] && Slice(b, 52, 4) == p[7]
      && Slice(b, 56, 4) == p[8] && Slice(b, 60, 4) == p[9] && Slice(b, 64, 4) == p[10] && Slice(b, 68, 4) == p[11]
      && Slice(b, 72, 32) == p[12] && Slice(b, 104, 32) == p[13] && Slice(b, 136, 8) == p[14]
  {
    ReadsAll(p);
  }

  lemma FrameRead(m: FrameHeader)
    ensures var b := Concat(FramePieces(m));
      |b| == FRAME_BYTES - PREFIX_BYTES && FrameFrom(m.generation, b) == m
  {
    FrameLayout(FramePieces(m));
    IntegersRead();
    DimsRead(m.shape);
    DimsRead(m.strides);
  }

  function EncodeFrame(m: FrameHeader): seq<byte> {
    Prefix(FRAME, FRAME_BYTES, m.generation) + Concat(FramePieces(m))
  }

  /** The array checks every received header goes through. */
  function CheckFrame(m: FrameHeader): Status {
    if m.payloadBytes == 0 || m.payloadBytes > MAX_FRAME_BYTES then FrameTooLarge
    else if !ElementSizeOk(m.elementType, m.elementSize) then GeometryMismatch
    else if Fits(m.rank, m.shape, m.strides, m.elementSize, m.payloadBytes) then Ok
    else GeometryMismatch
  }

  function DecodeFrame(data: seq<byte>): Received<FrameHeader> {
    var status := OpenData(data, FRAME);
    if status != Ok then Dropped(status)
    else
      var m := FrameFrom(Get32(data, 12), Slice(data, PREFIX_BYTES, FRAME_BYTES - PREFIX_BYTES));
      if CheckFrame(m) == Ok then Received(m) else Dropped(CheckFrame(m))
  }

  /** An encoded header decodes to itself exactly when it describes a fitting array;
      otherwise the array check's own status comes back. */
  lemma FrameRoundTrip(m: FrameHeader)
    ensures |EncodeFrame(m)| == FRAME_BYTES
    ensures DecodeFrame(EncodeFrame(m)) == if CheckFrame(m) == Ok then Received(m) else Dropped(CheckFrame(m))
  {
    FrameRead(m);
    var prefix, b := Prefix(FRAME, FRAME_BYTES, m.generation), Concat(FramePieces(m));
    PrefixStays(prefix, b, FRAME, FRAME_BYTES, m.generation);
    assert Slice(prefix + b, PREFIX_BYTES, FRAME_BYTES - PREFIX_BYTES) == b;
  }

  /** The header a publisher sends for resolved metadata. */
  function HeaderFor(r: Metadata, generation: u32, stream: u64, sequence: u64, timestamp: u64, dropped: u64): FrameHeader {
    FrameHeader(generation, stream, sequence, r.payloadBytes, timestamp, r.eventCounter, dropped,
                r.elementType, r.elementSize, r.rank, r.quality, r.memoryKind, r.endian, r.shape, r.strides)
  }

  /** Whatever resolving accepts at the producer, every receiver accepts off the wire. */
  lemma ResolvedFrameDecodes(m: Metadata, maxFrameBytes: u64, generation: u32, stream: u64, sequence: u64,
                             timestamp: u64, dropped: u64)
    requires Resolved(m, maxFrameBytes).0 == Ok
    ensures var h := HeaderFor(Resolved(m, maxFrameBytes).1, generation, stream, sequence, timestamp, dropped);
      DecodeFrame(EncodeFrame(h)) == Received(h)
  {
    FrameRoundTrip(HeaderFor(Resolved(m, maxFrameBytes).1, generation, stream, sequence, timestamp, dropped));
  }

  // ----- Longer headers -----

  /** `longer` differs from `data` only in its header length and past the bytes we know. */
  ghost predicate SameKnownBytes(data: seq<byte>, longer: seq<byte>, known: nat) {
    && known >= PREFIX_BYTES && |data| >= known && |longer| >= known
    && Slice(longer, 0, 6) == Slice(data, 0, 6) && Slice(longer, 8, known - 8) == Slice(data, 8, known - 8)
    && known <= Get16(longer, 6) <= |longer|
  }

  lemma LongerPrefix(data: seq<byte>, longer: seq<byte>, t: u16)
    requires MinHeader(t) > 0 && SameKnownBytes(data, longer, MinHeader(t)) && OpenData(data, t) == Ok
    ensures OpenData(longer, t) == Ok && Get32(longer, 12) == Get32(data, 12)
    ensures var n := MinHeader(t) - PREFIX_BYTES; Slice(longer, PREFIX_BYTES, n) == Slice(data, PREFIX_BYTES, n)
  {
    var known := MinHeader(t);
    SubSlice(data, longer, 0, 6, 0, 4);
    SubSlice(data, longer, 0, 6, 4, 1);
    SubSlice(data, longer, 8, known - 8, 8, 2);
    SubSlice(data, longer, 8, known - 8, 12, 4);
    SubSlice(data, longer, 8, known - 8, PREFIX_BYTES, known - PREFIX_BYTES);
  }

  /** Header bytes a newer peer appends are ignored. */
  lemma LongerDataHeaderSameMessage(data: seq<byte>, longer: seq<byte>, t: u16)
    requires SameKnownBytes(data, longer, if t == FRAME then FRAME_BYTES else SIGNAL_BYTES)
    ensures t == FRAME && DecodeFrame(data).Received? ==> DecodeFrame(longer) == DecodeFrame(data)
    ensures (t == CREDIT || t == PROBE || t == PROBE_ACK) && DecodeSignal(t, data).Received? ==>
      DecodeSignal(t, longer) == DecodeSignal(t, data)
  {
    if MinHeader(t) > 0 && OpenData(data, t) == Ok {
      LongerPrefix(data, longer, t);
    }
  }
}
