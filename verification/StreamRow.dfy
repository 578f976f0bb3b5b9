/** The BulkStreams text row: decimal fields, separators, and the offer they carry. */
module StreamRow {
  import opened Base
  import opened Geometry

  const ROW_VERSION: u32 := 1
  const MAX_AGE: u64 := 5000
  const FIELD_COUNT: nat := 12

  // ----- Decimal numbers -----

  function Digit(d: nat): char
    requires d < 10
  {
    '0' + d as char
  }

  predicate IsDigit(c: char) {
    '0' <= c <= '9'
  }

  function Decimal(n: nat): string {
    if n < 10 then [Digit(n)] else Decimal(n / 10) + [Digit(n % 10)]
  }

  predicate AllDigits(t: string) {
    forall i :: 0 <= i < |t| ==> IsDigit(t[i])
  }

  function NumberOf(t: string): nat
    requires AllDigits(t)
  {
    if t == [] then 0 else 10 * NumberOf(t[..|t| - 1]) + (t[|t| - 1] - '0') as nat
  }

  /** A whole-field unsigned decimal no larger than `limit`. */
  function ParseDecimal(t: string, limit: nat): (n: Option<nat>)
    ensures n.Some? ==> n.value <= limit
  {
    if t == [] || !AllDigits(t) || NumberOf(t) > limit then None else Some(NumberOf(t))
  }

  lemma {:induction false} DecimalReads(n: nat)
    ensures Decimal(n) != [] && AllDigits(Decimal(n)) && NumberOf(Decimal(n)) == n
  {
    if n >= 10 {
      DecimalReads(n / 10);
      var t := Decimal(n);
      assert t[..|t| - 1] == Decimal(n / 10) && t[|t| - 1] == Digit(n % 10);
    } else {
      assert NumberOf([Digit(n)]) == n by {
        assert [Digit(n)][..0] == [];
      }
    }
  }

  /** A printed number parses back under any limit that admits it. */
  lemma ParsePrinted(n: nat, limit: nat)
    ensures ParseDecimal(Decimal(n), limit) == if n <= limit then Some(n) else None
  {
    DecimalReads(n);
  }

  // ----- Separators -----

  function IndexOf(s: string, c: char): (i: nat)
    ensures i <= |s| && (i < |s| ==> s[i] == c) && c !in s[..i]
  {
    if s == [] then 0
    else if s[0] == c then 0
    else
      var rest := IndexOf(s[1..], c);
      assert s[..1 + rest] == [s[0]] + s[1..][..rest];
      1 + rest
  }

  function Split(s: string, c: char): seq<string>
    decreases |s|
  {
    var i := IndexOf(s, c);
    if i == |s| then [s] else [s[..i]] + Split(s[i + 1..], c)
  }

  function Join(fields: seq<string>, c: char): string
    requires fields != []
  {
    if |fields| == 1 then fields[0] else fields[0] + [c] + Join(fields[1..], c)
  }

  lemma {:induction false} IndexAfter(f: string, c: char, rest: string)
    requires c !in f
    ensures IndexOf(f + [c] + rest, c) == |f|
  {
    var s := f + [c] + rest;
    if f == [] {
      assert s[0] == c;
    } else {
      IndexAfter(f[1..], c, rest);
      assert s[1..] == f[1..] + [c] + rest && s[0] == f[0];
    }
  }

  lemma {:induction false} IndexNone(f: string, c: char)
    requires c !in f
    ensures IndexOf(f, c) == |f|
  {
    if f != [] {
      IndexNone(f[1..], c);
    }
  }

  /** Splitting undoes joining when no field holds the separator. */
  lemma {:induction false} SplitOfJoin(fields: seq<string>, c: char)
    requires fields != [] && forall i :: 0 <= i < |fields| ==> c !in fields[i]
    ensures Split(Join(fields, c), c) == fields
  {
    if |fields| == 1 {
      IndexNone(fields[0], c);
    } else {
      var rest := Join(fields[1..], c);
      var s := fields[0] + [c] + rest;
      IndexAfter(fields[0], c, rest);
      assert s[|fields[0]| + 1..] == rest && s[..|fields[0]|] == fields[0];
      SplitOfJoin(fields[1..], c);
    }
  }

  lemma JoinCons(first: string, rest: seq<string>, c: char)
    requires rest != []
    ensures Join([first] + rest, c) == first + [c] + Join(rest, c)
  {
    assert ([first] + rest)[1..] == rest;
  }

  lemma Recombined(s: string, i: nat)
    requires i < |s|
    ensures s == s[..i] + [s[i]] + s[i + 1..]
  {
  }

  /** And joining undoes splitting. */
  lemma {:induction false} JoinOfSplit(s: string, c: char)
    ensures Split(s, c) != [] && Join(Split(s, c), c) == s
    decreases |s|
  {
    var i := IndexOf(s, c);
    if i < |s| {
      var first, rest := s[..i], s[i + 1..];
      JoinOfSplit(rest, c);
      JoinCons(first, Split(rest, c), c);
      Recombined(s, i);
    }
  }

  function CountOf(s: string, c: char): nat {
    if s == [] then 0 else (if s[0] == c then 1 else 0) + CountOf(s[1..], c)
  }

  lemma {:induction false} CountAdds(a: string, b: string, c: char)
    ensures CountOf(a + b, c) == CountOf(a, c) + CountOf(b, c)
  {
    if a == [] {
      assert a + b == b;
    } else {
      CountAdds(a[1..], b, c);
      assert (a + b)[1..] == a[1..] + b;
    }
  }

  lemma {:induction false} CountZero(s: string, c: char)
    ensures CountOf(s, c) == 0 <==> c !in s
  {
    if s != [] {
      CountZero(s[1..], c);
      assert s == [s[0]] + s[1..];
    }
  }

  /** A row splits into one more field than it has separators. */
  lemma {:induction false} SplitLength(s: string, c: char)
    ensures |Split(s, c)| == 1 + CountOf(s, c)
    decreases |s|
  {
    var i := IndexOf(s, c);
    CountZero(s[..i], c);
    if i == |s| {
      assert s[..i] == s;
    } else {
      SplitLength(s[i + 1..], c);
      CountAdds(s[..i], [c] + s[i + 1..], c);
      CountAdds([c], s[i + 1..], c);
      assert s == s[..i] + ([c] + s[i + 1..]);
      assert CountOf([c], c) == 1;
    }
  }

  lemma {:induction false} JoinCounts(fields: seq<string>, c: char, i: nat)
    requires i < |fields|
    ensures CountOf(Join(fields, c), c) >= |fields| - 1 + CountOf(fields[i], c)
    decreases |fields|
  {
    if |fields| > 1 {
      var rest := Join(fields[1..], c);
      CountAdds(fields[0] + [c], rest, c);
      CountAdds(fields[0], [c], c);
      assert CountOf([c], c) == 1;
      JoinCounts(fields[1..], c, if i == 0 then 0 else i - 1);
    }
  }

  /** A separator inside a field makes the row split into too many. */
  lemma SplitTooLong(fields: seq<string>, c: char, i: nat)
    requires i < |fields| && c in fields[i]
    ensures |Split(Join(fields, c), c)| > |fields|
  {
    CountZero(fields[i], c);
    JoinCounts(fields, c, i);
    SplitLength(Join(fields, c), c);
  }

  method SplitRow(row: string, c: char) returns (fields: seq<string>)
    ensures fields == Split(row, c)
  {
    fields := [];
    var begin := 0;
    assert row[0..] == row;
    while true
      invariant begin <= |row| && fields + Split(row[begin..], c) == Split(row, c)
      decreases |row| - begin
    {
      var rest := row[begin..];
      var n := FindIn(rest, c);
      SplitTurn(fields, rest, c, n);
      fields := fields + [rest[..n]];
      if n == |rest| {
        return;
      }
      assert rest[n + 1..] == row[begin + n + 1..];
      begin := begin + n + 1;
    }
  }

  /** One turn of the splitting loop. */
  lemma SplitTurn(fields: seq<string>, rest: string, c: char, n: nat)
    requires n == IndexOf(rest, c)
    ensures n == |rest| ==> fields + [rest[..n]] == fields + Split(rest, c)
    ensures n < |rest| ==> fields + [rest[..n]] + Split(rest[n + 1..], c) == fields + Split(rest, c)
  {
    if n == |rest| {
      assert rest[..n] == rest;
    } else {
      assert fields + [rest[..n]] + Split(rest[n + 1..], c) == fields + ([rest[..n]] + Split(rest[n + 1..], c));
    }
  }

  method FindIn(s: string, c: char) returns (i: nat)
    ensures i == IndexOf(s, c)
  {
    i := 0;
    while i < |s|
      invariant i <= |s| && c !in s[..i]
    {
      if s[i] == c {
        assert s == s[..i] + [c] + s[i + 1..];
        IndexAfter(s[..i], c, s[i + 1..]);
        return;
      }
      i := i + 1;
    }
    assert s[..i] == s;
    IndexNone(s, c);
  }

  // ----- Vectors -----

  function VectorFields(d: seq<u64>): (f: seq<string>)
    ensures |f| == |d|
  {
    seq(|d|, i requires 0 <= i < |d| => Decimal(d[i]))
  }

  function ParseAll(items: seq<string>): Option<seq<u64>> {
    if items == [] then Some([])
    else
      var first, rest := ParseDecimal(items[0], MAX64), ParseAll(items[1..]);
      if first.None? || rest.None? then None else Some([first.value] + rest.value)
  }

  lemma {:induction false} ParseAllLength(items: seq<string>)
    ensures ParseAll(items).Some? ==> |ParseAll(items).value| == |items|
  {
    if items != [] {
      ParseAllLength(items[1..]);
    }
  }

  /** Exactly four decimal items. */
  function ParseVector(text: string): Option<Dims> {
    var items := Split(text, ',');
    ParseAllLength(items);
    if |items| == MAX_RANK && ParseAll(items).Some? then Some(ParseAll(items).value) else None
  }

  lemma NoSeparator(n: nat, c: char)
    requires !IsDigit(c)
    ensures c !in Decimal(n)
  {
    DecimalReads(n);
  }

  lemma VectorReads(d: Dims)
    ensures ParseVector(Join(VectorFields(d), ',')) == Some(d)
  {
    var f := VectorFields(d);
    forall i | 0 <= i < 4
      ensures ',' !in f[i]
    {
      NoSeparator(d[i], ',');
    }
    SplitOfJoin(f, ',');
    ParsePrintedAll(d);
  }

  lemma {:induction false} ParsePrintedAll(d: seq<u64>)
    ensures ParseAll(VectorFields(d)) == Some(d)
  {
    if d != [] {
      ParsePrinted(d[0], MAX64);
      ParsePrintedAll(d[1..]);
      assert VectorFields(d)[1..] == VectorFields(d[1..]);
      assert d == [d[0]] + d[1..];
    }
  }

  method PrintVector(d: Dims) returns (text: string)
    ensures text == Join(VectorFields(d), ',')
  {
    ghost var f := VectorFields(d);
    text := "";
    var i := 0;
    while i < MAX_RANK
      invariant 0 <= i <= MAX_RANK
      invariant i == 0 ==> text == ""
      invariant i > 0 ==> text == Join(f[..i], ',')
    {
      if i != 0 {
        JoinAppends(f[..i], ',', f[i]);
        text := text + ",";
      }
      text := text + Decimal(d[i]);
      assert f[..i + 1] == f[..i] + [f[i]];
      i := i + 1;
    }
    assert f[..i] == f;
  }

  lemma {:induction false} JoinAppends(fields: seq<string>, c: char, last: string)
    requires fields != []
    ensures Join(fields + [last], c) == Join(fields, c) + [c] + last
  {
    if |fields| > 1 {
      JoinAppends(fields[1..], c, last);
      assert (fields + [last])[1..] == fields[1..] + [last];
    } else {
      assert (fields + [last])[1..] == [last];
    }
  }

  // ----- Offers -----

  datatype Offer = Offer(version: u32, name: string, geometry: GeometryBlock, age: u64, status: Status, message: string)

  datatype Outcome = Available | Missing | Unavailable | Malformed | Stale | Unsafe

  predicate NameChar(c: char) {
    'A' <= c <= 'Z' || 'a' <= c <= 'z' || '0' <= c <= '9' || c == '_' || c == '.' || c == '-'
  }

  predicate ValidName(name: string) {
    1 <= |name| <= 64 && forall i :: 0 <= i < |name| ==> NameChar(name[i])
  }

  function OutcomeOf(o: Offer): Outcome {
    if o.status == UnknownStream then Missing
    else if o.status == ResourceExhausted then Unsafe
    else if o.status == MalformedMessage then Malformed
    else if o.status != Ok then Unavailable
    else if o.version != ROW_VERSION || !ValidName(o.name) || o.geometry.Validate() != Ok then Malformed
    else if o.age > MAX_AGE then Stale
    else Available
  }

  function Validate(o: Offer): Status {
    if o.version != ROW_VERSION then UnsupportedVersion
    else if o.status != Ok then o.status
    else if !ValidName(o.name) then MalformedMessage
    else if o.age > MAX_AGE then TransportFailure
    else o.geometry.Validate()
  }

  /** An offer is available exactly when it validates. */
  lemma AvailableIffValid(o: Offer)
    ensures OutcomeOf(o) == Available <==> Validate(o) == Ok
  {
  }

  function RowFields(o: Offer): seq<string> {
    var g := o.geometry;
    [Decimal(o.version), o.name, Decimal(g.generation), Decimal(g.elementType), Decimal(g.elementSize), Decimal(g.rank),
     Decimal(g.maxFrameBytes), Decimal(g.ringDepth), Decimal(g.creditWindow),
     Join(VectorFields(g.shape), ','), Join(VectorFields(g.strides), ','), Decimal(o.age)]
  }

  /** The published row; only a good offer has one. */
  function ToRow(o: Offer): string {
    if o.status != Ok then "" else Join(RowFields(o), '|')
  }

  const NO_GEOMETRY: GeometryBlock := GeometryBlock(0, 0, 0, 0, 0, 0, 0, [0, 0, 0, 0], [0, 0, 0, 0])

  function MalformedRow(message: string): Offer {
    Offer(ROW_VERSION, "", NO_GEOMETRY, 0, MalformedMessage, message)
  }

  /** What the parser notes about an offer it could read. */
  function RowMessage(o: Offer): string {
    if Validate(o) == Ok then ""
    else if o.version != ROW_VERSION then "BulkStreams row version is not supported"
    else if o.age > MAX_AGE then "BulkStreams row is stale"
    else "BulkStreams row failed validation"
  }

  /** The geometry in fields two to ten, if every one of them parses. */
  function ParseGeometry(f: seq<string>): Option<GeometryBlock>
    requires |f| == FIELD_COUNT
  {
    var generation, elementType := ParseDecimal(f[2], MAX32), ParseDecimal(f[3], MAX32);
    var elementSize, rank := ParseDecimal(f[4], MAX32), ParseDecimal(f[5], MAX32);
    var maxFrame, ring, window := ParseDecimal(f[6], MAX64), ParseDecimal(f[7], MAX32), ParseDecimal(f[8], MAX32);
    var shape, strides := ParseVector(f[9]), ParseVector(f[10]);
    if generation.None? || elementType.None? || elementSize.None? || rank.None? || maxFrame.None? || ring.None?
       || window.None? || shape.None? || strides.None? then None
    else Some(GeometryBlock(generation.value, elementType.value, elementSize.value, rank.value, maxFrame.value,
                            ring.value, window.value, shape.value, strides.value))
  }

  function OfferOf(f: seq<string>): Offer
    requires |f| == FIELD_COUNT
  {
    var version, geometry, age := ParseDecimal(f[0], MAX32), ParseGeometry(f), ParseDecimal(f[11], MAX64);
    if version.None? || geometry.None? || age.None? then MalformedRow("BulkStreams row contains a non-decimal field")
    else
      var o := Offer(version.value, f[1], geometry.value, age.value, Ok, "");
      o.(message := RowMessage(o))
  }

  function FromRow(row: string): Offer {
    var f := Split(row, '|');
    if |f| != FIELD_COUNT then MalformedRow("BulkStreams row has the wrong field count") else OfferOf(f)
  }

  lemma {:induction false} JoinWithout(fields: seq<string>, c: char, d: char)
    requires fields != [] && c != d && forall i :: 0 <= i < |fields| ==> d !in fields[i]
    ensures d !in Join(fields, c)
  {
    if |fields| > 1 {
      JoinWithout(fields[1..], c, d);
    }
  }

  lemma VectorWithoutBar(d: Dims)
    ensures '|' !in Join(VectorFields(d), ',')
  {
    forall i | 0 <= i < 4
      ensures '|' !in VectorFields(d)[i]
    {
      NoSeparator(d[i], '|');
    }
    JoinWithout(VectorFields(d), ',', '|');
  }

  lemma FieldsWithoutBar(o: Offer, i: nat)
    requires '|' !in o.name && i < FIELD_COUNT
    ensures '|' !in RowFields(o)[i]
  {
    var g := o.geometry;
    VectorWithoutBar(g.shape);
    VectorWithoutBar(g.strides);
    NoSeparator(o.version, '|');
    NoSeparator(g.generation, '|');
    NoSeparator(g.elementType, '|');
    NoSeparator(g.elementSize, '|');
    NoSeparator(g.rank, '|');
    NoSeparator(g.maxFrameBytes, '|');
    NoSeparator(g.ringDepth, '|');
    NoSeparator(g.creditWindow, '|');
    NoSeparator(o.age, '|');
  }

  lemma GeometryReads(o: Offer)
    ensures ParseGeometry(RowFields(o)) == Some(o.geometry)
  {
    var g := o.geometry;
    ParsePrinted(g.generation, MAX32);
    ParsePrinted(g.elementType, MAX32);
    ParsePrinted(g.elementSize, MAX32);
    ParsePrinted(g.rank, MAX32);
    ParsePrinted(g.maxFrameBytes, MAX64);
    ParsePrinted(g.ringDepth, MAX32);
    ParsePrinted(g.creditWindow, MAX32);
    VectorReads(g.shape);
    VectorReads(g.strides);
  }

  /** A published row parses to the same offer, with the parser's own remark. */
  lemma RowReads(o: Offer)
    requires o.status == Ok && '|' !in o.name
    ensures FromRow(ToRow(o)) == o.(message := RowMessage(o))
  {
    forall i | 0 <= i < FIELD_COUNT
      ensures '|' !in RowFields(o)[i]
    {
      FieldsWithoutBar(o, i);
    }
    SplitOfJoin(RowFields(o), '|');
    OfferReads(o);
  }

  lemma OfferReads(o: Offer)
    requires o.status == Ok
    ensures OfferOf(RowFields(o)) == o.(message := RowMessage(o))
  {
    GeometryReads(o);
    ParsePrinted(o.version, MAX32);
    ParsePrinted(o.age, MAX64);
    SameRemark(o, o.(message := ""));
  }

  lemma SameRemark(a: Offer, b: Offer)
    requires b == a.(message := b.message)
    ensures RowMessage(a) == RowMessage(b)
  {
  }

  /** An offer that is not Ok prints nothing, which reads as a row without fields. */
  lemma EmptyRow(o: Offer)
    requires o.status != Ok
    ensures FromRow(ToRow(o)) == MalformedRow("BulkStreams row has the wrong field count")
  {
    assert |Split("", '|')| == 1;
  }

  /** The round trip is exact for an offer that is Ok if and only if its name holds
      no separator and its message is the one the parser would give; of all the
      others, only what an empty row reads as comes back. */
  lemma RowRoundTrip(o: Offer)
    ensures FromRow(ToRow(o)) == o <==>
      if o.status == Ok then '|' !in o.name && o.message == RowMessage(o)
      else o == MalformedRow("BulkStreams row has the wrong field count")
  {
    if o.status != Ok {
      EmptyRow(o);
    } else if '|' in o.name {
      assert RowFields(o)[1] == o.name;
      SplitTooLong(RowFields(o), '|', 1);
    } else {
      RowReads(o);
    }
  }

  /** Every valid offer with an empty message comes back equal. */
  lemma ValidOfferRoundTrip(o: Offer)
    requires Validate(o) == Ok && o.message == ""
    ensures FromRow(ToRow(o)) == o
  {
    assert '|' !in o.name by {
      assert forall i :: 0 <= i < |o.name| ==> NameChar(o.name[i]);
    }
    RowRoundTrip(o);
  }
}
