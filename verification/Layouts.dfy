/** The value format byte by byte, in literals and base-256 digits: what encode.go and bytes.go must put on the wire. */
module Layouts {
  import opened Words
  import opened Values
  import opened Encoding

  // ---------- digits ----------

  lemma FourBytes(a: Byte, b: Byte, c: Byte, d: Byte)
    ensures FromBigEndian([a, b, c, d]) == a * 0x100_0000 + b * 0x1_0000 + c * 0x100 + d
  {
    FromBigEndianHead(a, [b, c, d]);
    FromBigEndianHead(b, [c, d]);
    FromBigEndianHead(c, [d]);
    FromBigEndianHead(d, []);
    assert [a] + [b, c, d] == [a, b, c, d] && [b] + [c, d] == [b, c, d];
    assert [c] + [d] == [c, d] && [d] + [] == [d];
  }

  /** A byte before others counts for as many as they have values. */
  lemma DigitBefore(b: Byte, s: Str)
    requires |s| == 7
    ensures FromBigEndian([b] + s) == b * 0x100_0000_0000_0000 + FromBigEndian(s)
  {
    Powers();
    FromBigEndianHead(b, s);
  }

  /** Fixed-width digits are those of one number. */
  lemma DigitsAre(s: Str, n: nat, w: nat)
    requires |s| == w && n < Pow256(w)
    ensures FromBigEndian(s) == n <==> s == BigEndian(n, w)
  {
    BigEndianReads(n, w);
    BigEndianWrites(s);
  }

  // ---------- what the bytes of a value are ----------

  /** Four digits; a count of 2^32 or more loses its high bits. */
  ghost predicate Count(s: Str, n: nat) {
    |s| == 4 && FromBigEndian(s) == n % 0x1_0000_0000
  }

  /** A length and then the bytes. */
  ghost predicate Sized(s: Str, t: Str) {
    |s| >= 4 && Count(s[..4], |t|) && s[4..] == t
  }

  /** Eight digits of a signed number moved up by 2^63, so that they sort as the number does. */
  ghost predicate Inverted(s: Str, n: Int64) {
    |s| == 8 && FromBigEndian(s) == n + 0x8000_0000_0000_0000
  }

  /** Sixteen digits, two's complement and not inverted; below -2^128 what is left of the number is its magnitude. */
  ghost predicate Plain128(s: Str, n: int) {
    var complement := n + 0x1_0000_0000_0000_0000_0000_0000_0000_0000;
    |s| == 16 && FromBigEndian(s) == if n >= 0 then n else if complement >= 0 then complement else -complement
  }

  ghost predicate Clock(s: Str, seconds: Int64, nanos: UInt32) {
    |s| == 12 && Inverted(s[..8], seconds) && Count(s[8..], nanos)
  }

  /** Each byte as it is, but 00 FF for a zero, and 00 01 at the end. */
  ghost predicate Ended(s: Str, t: Str)
    decreases t
  {
    if t == [] then s == [0x00, 0x01]
    else if t[0] == 0x00 then |s| >= 2 && s[0] == 0x00 && s[1] == 0xff && Ended(s[2..], t[1..])
    else |s| >= 1 && s[0] == t[0] && Ended(s[1..], t[1..])
  }

  ghost predicate LaidId(s: Str, id: RecordId) {
    match id
    case NoId => s == []
    case IntegerId(n) => |s| == 9 && s[0] == 0x01 && Inverted(s[1..], n)
    case TextId(t) => |s| >= 1 && s[0] == 0x02 && Ended(s[1..], t)
    case UuidId(u) => |s| == 17 && s[0] == 0x03 && s[1..] == u
    case BytesId(b) => |s| >= 1 && s[0] == 0x04 && Ended(s[1..], b)
  }

  /** The longitude's eight digits and then the latitude's. */
  ghost predicate LaidPosition(s: Str, p: Position) {
    |s| == 16 && FromBigEndian(s[..8]) == p.lon && FromBigEndian(s[8..]) == p.lat
  }

  /** One after another, in order, with nothing between them and nothing after. */
  ghost predicate Each<T(!new)>(s: Str, xs: seq<T>, one: (Str, T) -> bool)
    decreases |xs|
  {
    if xs == [] then s == []
    else exists k :: 0 <= k <= |s| && one(s[..k], xs[0]) && Each(s[k..], xs[1..], one)
  }

  ghost predicate CountedEach<T(!new)>(s: Str, xs: seq<T>, one: (Str, T) -> bool) {
    |s| >= 4 && Count(s[..4], |xs|) && Each(s[4..], xs, one)
  }

  ghost predicate LaidRing(s: Str, ps: Ring) {
    CountedEach(s, ps, LaidPosition)
  }

  ghost predicate LaidPolygon(s: Str, p: Polygon) {
    exists k :: 0 <= k <= |s| && LaidRing(s[..k], p.exterior) && CountedEach(s[k..], p.interiors, LaidRing)
  }

  ghost predicate LaidShape(s: Str, shape: Shape)
    decreases shape
  {
    if shape == NoShape then s == []
    else
      && |s| >= 1
      && var t := s[1..];
      match shape
      case Point(p) => s[0] == 0x01 && LaidPosition(t, p)
      case Line(ps) => s[0] == 0x02 && LaidRing(t, ps)
      case PolygonShape(p) => s[0] == 0x03 && LaidPolygon(t, p)
      case MultiPoint(ps) => s[0] == 0x04 && LaidRing(t, ps)
      case MultiLine(lines) => s[0] == 0x05 && CountedEach(t, lines, LaidRing)
      case MultiPolygon(ps) => s[0] == 0x06 && CountedEach(t, ps, LaidPolygon)
      case Collection(gs) => s[0] == 0x07 && |t| >= 4 && Count(t[..4], |gs|) && LaidShapes(t[4..], gs)
      case NoShape => false
  }

  ghost predicate LaidShapes(s: Str, gs: seq<Shape>)
    decreases gs
  {
    if gs == [] then s == []
    else exists k :: 0 <= k <= |s| && LaidShape(s[..k], gs[0]) && LaidShapes(s[k..], gs[1..])
  }

  /** A number's kind, and then its digits. */
  ghost predicate LaidNumber(s: Str, v: Value) {
    && |s| >= 1
    && match v
       case Integer(n) => s[0] == 0x01 && Inverted(s[1..], n)
       case Float(bits) => s[0] == 0x02 && |s| == 9 && FromBigEndian(s[1..]) == bits
       case Decimal(m, scale) =>
         |s| == 21 && s[0] == 0x03 && Plain128(s[1..17], if m.Some? then m.value else 0) && Count(s[17..], scale)
       case _ => false
  }

  ghost predicate Laid(s: Str, v: Value)
    decreases v
  {
    if v == NoValue then s == []
    else
      && |s| >= 1
      && var t := s[1..];
      match v
      case None => s == [0x01]
      case Null => s == [0x02]
      case Bool(b) => s == [0x03, if b then 1 else 0]
      case Integer(_) => s[0] == 0x04 && LaidNumber(t, v)
      case Float(_) => s[0] == 0x04 && LaidNumber(t, v)
      case Decimal(_, _) => s[0] == 0x04 && LaidNumber(t, v)
      case Text(text) => s[0] == 0x05 && Sized(t, text)
      case Bytes(b) => s[0] == 0x06 && Sized(t, b)
      case Duration(seconds, nanos) => s[0] == 0x07 && Clock(t, seconds, nanos)
      case Datetime(seconds, nanos) => s[0] == 0x08 && Clock(t, seconds, nanos)
      case Uuid(u) => s[0] == 0x09 && t == u
      case Table(id) => s[0] == 0x0a && Count(t, id)
      case Record(table, id) => s[0] == 0x0b && |t| >= 4 && Count(t[..4], table) && LaidId(t[4..], id)
      case Array(items) => s[0] == 0x0c && |t| >= 4 && Count(t[..4], |items|) && LaidItems(t[4..], items)
      case Object(fields) =>
        && s[0] == 0x0d && |t| >= 4 && Count(t[..4], |fields|)
        && exists names :: Ascending(names) && (forall n :: n in names <==> n in fields) && LaidFields(t[4..], names, v)
      case Range(a, b) => s[0] == 0x0e && exists k :: 0 <= k <= |t| && LaidBound(t[..k], a) && LaidBound(t[k..], b)
      case Set(items) => s[0] == 0x0f && |t| >= 4 && Count(t[..4], |items|) && LaidItems(t[4..], items)
      case Geometry(shape) => s[0] == 0x10 && LaidShape(t, shape)
      case Regex(p) => s[0] == 0x11 && Sized(t, p)
      case NoValue => false
  }

  ghost predicate LaidItems(s: Str, items: seq<Value>)
    decreases items
  {
    if items == [] then s == []
    else exists k :: 0 <= k <= |s| && Laid(s[..k], items[0]) && LaidItems(s[k..], items[1..])
  }

  /** Each name before its value. */
  ghost predicate LaidFields(s: Str, names: seq<Str>, v: Value)
    requires v.Object? && forall n :: n in names ==> n in v.fields
    decreases v, |names|
  {
    if names == [] then s == []
    else
      exists j, k :: 0 <= j <= k <= |s| && Sized(s[..j], names[0]) && Laid(s[j..k], v.fields[names[0]])
                     && LaidFields(s[k..], names[1..], v)
  }

  ghost predicate LaidBound(s: Str, b: Bound)
    decreases b
  {
    match b
    case NoBound => s == []
    case Unbounded => s == [0x01]
    case Included(v) => |s| >= 1 && s[0] == 0x02 && Laid(s[1..], v)
    case Excluded(v) => |s| >= 1 && s[0] == 0x03 && Laid(s[1..], v)
  }

  // ---------- fixed widths ----------

  lemma CountIs(s: Str, n: nat)
    ensures Count(s, n) <==> s == U32(n)
  {
    Powers();
    if |s| == 4 { DigitsAre(s, n % 0x1_0000_0000, 4); }
  }

  lemma SizedIs(s: Str, t: Str)
    ensures Sized(s, t) <==> s == Lengthed(t)
  {
    hide Count, U32;
    if |s| >= 4 {
      CountIs(s[..4], |t|);
      assert s == s[..4] + s[4..];
    }
    assert Lengthed(t)[..4] == U32(|t|) && Lengthed(t)[4..] == t;
  }

  lemma InvertedIs(s: Str, n: Int64)
    ensures Inverted(s, n) <==> s == I64(n)
  {
    if |s| == 8 { InvertedBytes(s, n); }
  }

  /** Turning the top bit over moves the number up or down by 2^63. */
  lemma InvertedBytes(s: Str, n: Int64)
    requires |s| == 8
    ensures FromBigEndian(s) == n + 0x8000_0000_0000_0000 <==> s == I64(n)
  {
    hide BigEndian, FromBigEndian;
    Powers();
    var plain := BigEndian(Unsigned64(n), 8);
    var tail := plain[1..];
    assert plain == [plain[0]] + tail;
    BigEndianReads(Unsigned64(n), 8);
    DigitBefore(plain[0], tail);
    DigitBefore(FlipTop(plain[0]), tail);
    BigEndianWrites(tail);
    BigEndianWrites(s);
    BigEndianWrites(I64(n));
  }

  lemma Plain128Is(s: Str, n: int)
    requires Magnitude128(n) < TWO_128
    ensures Plain128(s, n) <==> s == I128(n)
  {
    hide BigEndian, FromBigEndian;
    Powers();
    if |s| == 16 { DigitsAre(s, Magnitude128(n), 16); }
  }

  lemma ClockIs(s: Str, seconds: Int64, nanos: UInt32)
    ensures Clock(s, seconds, nanos) <==> s == Moment(seconds, nanos)
  {
    hide Inverted, Count, I64, U32;
    if |s| == 12 {
      InvertedIs(s[..8], seconds);
      CountIs(s[8..], nanos);
      assert s == s[..8] + s[8..];
    }
    assert Moment(seconds, nanos)[..8] == I64(seconds) && Moment(seconds, nanos)[8..] == U32(nanos);
  }

  lemma {:induction false} EndedIs(s: Str, t: Str)
    ensures Ended(s, t) <==> s == Varbytes(t)
    decreases t
  {
    if t != [] {
      var head: Str := if t[0] == 0 then [0x00, 0xff] else [t[0]];
      Assoc(head, Escaped(t[1..]), [0x00, 0x01]);
      assert Varbytes(t) == head + Varbytes(t[1..]);
      if |s| >= |head| {
        EndedIs(s[|head|..], t[1..]);
        assert s == s[..|head|] + s[|head|..];
      }
    }
  }

  /** One byte and what follows. */
  lemma Tagged(s: Str, tag: Byte, t: Str)
    ensures s == [tag] + t <==> |s| >= 1 && s[0] == tag && s[1..] == t
  {
    if |s| >= 1 { assert s == [s[0]] + s[1..]; }
  }

  lemma IdIs(s: Str, id: RecordId)
    ensures LaidId(s, id) <==> s == IdBytes(id)
  {
    hide Inverted, Ended, I64, Varbytes;
    match id
    case NoId =>
    case IntegerId(n) =>
      Tagged(s, 0x01, I64(n));
      if |s| >= 1 { InvertedIs(s[1..], n); }
    case TextId(t) =>
      Tagged(s, 0x02, Varbytes(t));
      if |s| >= 1 { EndedIs(s[1..], t); }
    case UuidId(u) => Tagged(s, 0x03, u);
    case BytesId(b) =>
      Tagged(s, 0x04, Varbytes(b));
      if |s| >= 1 { EndedIs(s[1..], b); }
  }

  // ---------- geometries ----------

  /** For every position: first the longitude's digits, then the latitude's, and nothing else. */
  lemma PositionIs(s: Str, p: Position)
    ensures LaidPosition(s, p) <==> s == PositionBytes(p)
  {
    hide BigEndian, FromBigEndian;
    Powers();
    if |s| == 16 {
      DigitsAre(s[..8], p.lon, 8);
      DigitsAre(s[8..], p.lat, 8);
      assert s == s[..8] + s[8..];
    }
    assert PositionBytes(p)[..8] == U64(p.lon) && PositionBytes(p)[8..] == U64(p.lat);
  }

  lemma {:induction false} EachIs<T(!new)>(s: Str, xs: seq<T>, one: (Str, T) -> bool, bytes: T -> Str)
    requires forall t: Str, x: T :: one(t, x) <==> t == bytes(x)
    ensures Each(s, xs, one) <==> s == Many(xs, bytes)
    decreases |xs|
  {
    if xs != [] {
      var head, tail := bytes(xs[0]), Many(xs[1..], bytes);
      if s == head + tail {
        assert s[..|head|] == head && s[|head|..] == tail;
        EachIs(s[|head|..], xs[1..], one, bytes);
      }
      if k :| 0 <= k <= |s| && one(s[..k], xs[0]) && Each(s[k..], xs[1..], one) {
        EachIs(s[k..], xs[1..], one, bytes);
        assert s == s[..k] + s[k..];
      }
    }
  }

  lemma CountedEachIs<T(!new)>(s: Str, xs: seq<T>, one: (Str, T) -> bool, bytes: T -> Str)
    requires forall t: Str, x: T :: one(t, x) <==> t == bytes(x)
    ensures CountedEach(s, xs, one) <==> s == Counted(xs, bytes)
  {
    hide Count, U32, Each, Many;
    var counted := Counted(xs, bytes);
    assert counted[..4] == U32(|xs|) && counted[4..] == Many(xs, bytes);
    if |s| >= 4 {
      CountIs(s[..4], |xs|);
      EachIs(s[4..], xs, one, bytes);
      assert s == s[..4] + s[4..];
    }
  }

  lemma RingIs(s: Str, ps: Ring)
    ensures LaidRing(s, ps) <==> s == RingBytes(ps)
  {
    hide LaidPosition, PositionBytes, CountedEach, Counted;
    forall t: Str, p: Position ensures LaidPosition(t, p) <==> t == PositionBytes(p) { PositionIs(t, p); }
    CountedEachIs(s, ps, LaidPosition, PositionBytes);
  }

  lemma RingsAre(s: Str, rings: seq<Ring>)
    ensures CountedEach(s, rings, LaidRing) <==> s == Counted(rings, RingBytes)
  {
    hide LaidRing, RingBytes, CountedEach, Counted;
    forall t: Str, ring: Ring ensures LaidRing(t, ring) <==> t == RingBytes(ring) { RingIs(t, ring); }
    CountedEachIs(s, rings, LaidRing, RingBytes);
  }

  lemma PolygonIs(s: Str, p: Polygon)
    ensures LaidPolygon(s, p) <==> s == PolygonBytes(p)
  {
    hide LaidRing, RingBytes, CountedEach, Counted;
    var head, tail := RingBytes(p.exterior), Counted(p.interiors, RingBytes);
    if s == head + tail {
      assert s[..|head|] == head && s[|head|..] == tail;
      RingIs(s[..|head|], p.exterior);
      RingsAre(s[|head|..], p.interiors);
    }
    if k :| 0 <= k <= |s| && LaidRing(s[..k], p.exterior) && CountedEach(s[k..], p.interiors, LaidRing) {
      RingIs(s[..k], p.exterior);
      RingsAre(s[k..], p.interiors);
      assert s == s[..k] + s[k..];
    }
  }

  lemma PolygonsAre(s: Str, ps: seq<Polygon>)
    ensures CountedEach(s, ps, LaidPolygon) <==> s == Counted(ps, PolygonBytes)
  {
    hide LaidPolygon, PolygonBytes, CountedEach, Counted;
    forall t: Str, p: Polygon ensures LaidPolygon(t, p) <==> t == PolygonBytes(p) { PolygonIs(t, p); }
    CountedEachIs(s, ps, LaidPolygon, PolygonBytes);
  }

  /** A shape's bytes are its kind, and what that kind holds. */
  lemma FlatShapeIs(s: Str, shape: Shape)
    requires !shape.Collection? && !shape.NoShape? && |s| >= 1
    ensures LaidShape(s, shape) <==> s == ShapeBytes(shape)
  {
    hide LaidPosition, LaidRing, LaidPolygon, CountedEach, PositionBytes, RingBytes, PolygonBytes, Counted;
    var t := s[1..];
    match shape
    case Point(p) =>
      Tagged(s, 0x01, PositionBytes(p));
      PositionIs(t, p);
    case Line(ps) =>
      Tagged(s, 0x02, RingBytes(ps));
      RingIs(t, ps);
    case PolygonShape(p) =>
      Tagged(s, 0x03, PolygonBytes(p));
      PolygonIs(t, p);
    case MultiPoint(ps) =>
      Tagged(s, 0x04, RingBytes(ps));
      RingIs(t, ps);
    case MultiLine(ls) =>
      Tagged(s, 0x05, Counted(ls, RingBytes));
      RingsAre(t, ls);
    case MultiPolygon(ps) =>
      Tagged(s, 0x06, Counted(ps, PolygonBytes));
      PolygonsAre(t, ps);
  }

  lemma CollectionIs(s: Str, gs: seq<Shape>)
    requires |s| >= 1 && (|s| >= 5 ==> (LaidShapes(s[5..], gs) <==> s[5..] == ShapesBytes(gs)))
    ensures LaidShape(s, Collection(gs)) <==> s == ShapeBytes(Collection(gs))
  {
    hide LaidShapes, ShapesBytes, Count, U32;
    var t := s[1..];
    var counted := U32(|gs|) + ShapesBytes(gs);
    assert ShapeBytes(Collection(gs)) == [0x07] + counted by {
      Assoc([0x07], U32(|gs|), ShapesBytes(gs));
    }
    Tagged(s, 0x07, counted);
    assert counted[..4] == U32(|gs|) && counted[4..] == ShapesBytes(gs);
    if |t| >= 4 {
      assert t[4..] == s[5..] && t == t[..4] + t[4..];
      CountIs(t[..4], |gs|);
    }
  }

  /** The bytes of a geometry are laid out as it, and no other bytes are. */
  lemma {:induction false} ShapeIs(s: Str, shape: Shape)
    ensures LaidShape(s, shape) <==> s == ShapeBytes(shape)
    decreases shape
  {
    hide LaidShape, ShapeBytes, LaidShapes;
    if |s| >= 1 && shape.Collection? {
      if |s| >= 5 { ShapesAre(s[5..], shape.geometries); }
      CollectionIs(s, shape.geometries);
    } else if |s| >= 1 && !shape.NoShape? {
      FlatShapeIs(s, shape);
    } else {
      ShapeHasBytes(s, shape);
    }
  }

  lemma ShapeHasBytes(s: Str, shape: Shape)
    requires s == [] || shape.NoShape?
    ensures LaidShape(s, shape) <==> s == ShapeBytes(shape)
  {}

  lemma {:induction false} ShapesAre(s: Str, gs: seq<Shape>)
    ensures LaidShapes(s, gs) <==> s == ShapesBytes(gs)
    decreases gs
  {
    hide LaidShape, ShapeBytes;
    if gs != [] {
      var head, tail := ShapeBytes(gs[0]), ShapesBytes(gs[1..]);
      if s == head + tail {
        assert s[..|head|] == head && s[|head|..] == tail;
        ShapeIs(s[..|head|], gs[0]);
        ShapesAre(s[|head|..], gs[1..]);
      }
      if k :| 0 <= k <= |s| && LaidShape(s[..k], gs[0]) && LaidShapes(s[k..], gs[1..]) {
        ShapeIs(s[..k], gs[0]);
        ShapesAre(s[k..], gs[1..]);
        assert s == s[..k] + s[k..];
      }
    }
  }

  // ---------- values ----------

  lemma NumberIs(s: Str, v: Value)
    requires (v.Integer? || v.Float? || v.Decimal?) && Accepted(v) && |s| >= 1
    ensures LaidNumber(s, v) <==> [0x04] + s == ValueBytes(v)
  {
    hide Inverted, Plain128, Count, I64, U64, I128, U32;
    Tagged([0x04] + s, 0x04, s);
    assert ([0x04] + s)[1..] == s;
    match v
    case Integer(n) =>
      InvertedIs(s[1..], n);
      Tagged(s, 0x01, I64(n));
      Assoc([0x04], [0x01], I64(n));
    case Float(bits) =>
      PlainIs(s[1..], bits);
      Tagged(s, 0x02, U64(bits));
      Assoc([0x04], [0x02], U64(bits));
    case Decimal(m, scale) => DecimalIs(s, m, scale);
  }

  lemma PlainIs(s: Str, n: UInt64)
    ensures |s| == 8 && FromBigEndian(s) == n <==> s == U64(n)
  {
    hide BigEndian, FromBigEndian;
    Powers();
    if |s| == 8 { DigitsAre(s, n, 8); }
  }

  lemma DecimalIs(s: Str, m: Option<int>, scale: UInt32)
    requires m.Some? && Magnitude128(m.value) < TWO_128 && |s| >= 1
    ensures LaidNumber(s, Decimal(m, scale)) <==> [0x04] + s == ValueBytes(Decimal(m, scale))
  {
    hide Plain128, Count, I128, U32, Magnitude128;
    var a, b := I128(m.value), U32(scale);
    var whole := [0x03] + (a + b);
    assert ValueBytes(Decimal(m, scale)) == [0x04] + whole;
    assert [0x04] + s == [0x04] + whole <==> s == whole by {
      assert ([0x04] + s)[1..] == s && ([0x04] + whole)[1..] == whole;
    }
    Tagged(s, 0x03, a + b);
    assert (a + b)[..16] == a && (a + b)[16..] == b;
    if |s| == 21 {
      Plain128Is(s[1..17], m.value);
      CountIs(s[17..], scale);
      assert s[1..][..16] == s[1..17] && s[1..][16..] == s[17..];
      assert s[1..] == s[1..][..16] + s[1..][16..];
    }
  }

  /** A count and what it counts. */
  lemma AfterCount(t: Str, n: nat, rest: Str)
    ensures t == U32(n) + rest <==> |t| >= 4 && Count(t[..4], n) && t[4..] == rest
  {
    hide Count, U32;
    assert (U32(n) + rest)[..4] == U32(n) && (U32(n) + rest)[4..] == rest;
    if |t| >= 4 {
      CountIs(t[..4], n);
      assert t == t[..4] + t[4..];
    }
  }

  /** Values with nothing but digits and texts in them. */
  lemma FlatIs(s: Str, v: Value)
    requires Accepted(v) && |s| >= 1 && !v.NoValue?
    requires !v.Array? && !v.Set? && !v.Object? && !v.Range?
    ensures Laid(s, v) <==> s == ValueBytes(v)
  {
    hide LaidNumber, Sized, Clock, Count, LaidId, LaidShape, Lengthed, Moment, U32, IdBytes, ShapeBytes, Accepted;
    var t := s[1..];
    match v
    case None =>
    case Null =>
    case Bool(b) =>
    case Integer(_) => TaggedNumberIs(s, v);
    case Float(_) => TaggedNumberIs(s, v);
    case Decimal(_, _) => TaggedNumberIs(s, v);
    case Text(text) =>
      Tagged(s, 0x05, Lengthed(text));
      SizedIs(t, text);
    case Bytes(b) =>
      Tagged(s, 0x06, Lengthed(b));
      SizedIs(t, b);
    case Duration(seconds, nanos) =>
      Tagged(s, 0x07, Moment(seconds, nanos));
      ClockIs(t, seconds, nanos);
    case Datetime(seconds, nanos) =>
      Tagged(s, 0x08, Moment(seconds, nanos));
      ClockIs(t, seconds, nanos);
    case Uuid(u) => Tagged(s, 0x09, u);
    case Table(id) =>
      Tagged(s, 0x0a, U32(id));
      CountIs(t, id);
    case Record(table, id) =>
      Tagged(s, 0x0b, U32(table) + IdBytes(id));
      Assoc([0x0b], U32(table), IdBytes(id));
      AfterCount(t, table, IdBytes(id));
      if |t| >= 4 { IdIs(t[4..], id); }
    case Geometry(shape) =>
      Tagged(s, 0x10, ShapeBytes(shape));
      ShapeIs(t, shape);
    case Regex(p) =>
      Tagged(s, 0x11, Lengthed(p));
      SizedIs(t, p);
  }

  lemma TaggedNumberIs(s: Str, v: Value)
    requires (v.Integer? || v.Float? || v.Decimal?) && Accepted(v) && |s| >= 1
    ensures Laid(s, v) <==> s == ValueBytes(v)
  {
    hide LaidNumber, Accepted, I64, U64, I128, U32;
    assert ValueBytes(v)[0] == 0x04 && |ValueBytes(v)| > 1;
    Tagged(s, 0x04, s[1..]);
    if |s| >= 2 { NumberIs(s[1..], v); } else { assert !LaidNumber(s[1..], v) by { EmptyIsNoNumber(v); } }
  }

  lemma EmptyIsNoNumber(v: Value)
    ensures !LaidNumber([], v)
  {}

  /** Array and Set: the tag, a count, and the items. */
  lemma ManyIs(s: Str, v: Value, tag: Byte, items: seq<Value>)
    requires (v == Array(items) && tag == 0x0c) || (v == Set(items) && tag == 0x0f)
    requires |s| >= 1 && (|s| >= 5 ==> (LaidItems(s[5..], items) <==> s[5..] == ItemsBytes(items)))
    ensures Laid(s, v) <==> s == ValueBytes(v)
  {
    hide Count, U32, LaidItems, ItemsBytes;
    Tagged(s, tag, U32(|items|) + ItemsBytes(items));
    Assoc([tag], U32(|items|), ItemsBytes(items));
    AfterCount(s[1..], |items|, ItemsBytes(items));
    if |s| >= 5 { assert s[1..][4..] == s[5..]; }
  }

  /** There is only one list of names in ascending order. */
  lemma ObjectIs(s: Str, v: Value)
    requires v.Object? && |s| >= 1
    requires |s| >= 5 ==>
               (LaidFields(s[5..], Sorted(v.fields.Keys), v) <==> s[5..] == FieldsBytes(Sorted(v.fields.Keys), v))
    ensures Laid(s, v) <==> s == ValueBytes(v)
  {
    hide Count, U32, LaidFields, FieldsBytes, Sorted;
    var names := Sorted(v.fields.Keys);
    Tagged(s, 0x0d, U32(|v.fields|) + FieldsBytes(names, v));
    Assoc([0x0d], U32(|v.fields|), FieldsBytes(names, v));
    AfterCount(s[1..], |v.fields|, FieldsBytes(names, v));
    if |s| >= 5 {
      assert s[1..][4..] == s[5..];
      NamesAre(s[5..], v);
    }
  }

  lemma NamesAre(s: Str, v: Value)
    requires v.Object?
    ensures (exists names :: Ascending(names) && (forall n :: n in names <==> n in v.fields) && LaidFields(s, names, v))
       <==> LaidFields(s, Sorted(v.fields.Keys), v)
  {
    hide LaidFields, Ascending, Sorted;
    var sorted := Sorted(v.fields.Keys);
    assert forall n :: n in sorted <==> n in v.fields;
    forall names | Ascending(names) && (forall n :: n in names <==> n in v.fields) ensures names == sorted {
      SortedIsUnique(names, v.fields.Keys);
    }
  }

  /** The bytes of an accepted value are laid out as it, and no other bytes are. */
  lemma {:induction false} ValueIs(s: Str, v: Value)
    requires Accepted(v)
    ensures Laid(s, v) <==> s == ValueBytes(v)
    decreases v, 1, 0
  {
    hide Laid, ValueBytes, LaidItems, ItemsBytes, LaidFields, FieldsBytes, Sorted;
    if s == [] {
      ValueHasBytes(v);
    } else {
      match v
      case Array(items) =>
        if |s| >= 5 { ItemsAre(s[5..], items); }
        ManyIs(s, v, 0x0c, items);
      case Set(items) =>
        if |s| >= 5 { ItemsAre(s[5..], items); }
        ManyIs(s, v, 0x0f, items);
      case Object(fields) =>
        if |s| >= 5 { FieldsAre(s[5..], Sorted(fields.Keys), v); }
        ObjectIs(s, v);
      case Range(a, b) => RangeIs(s, a, b);
      case _ => FlatIs(s, v);
    }
  }

  lemma ValueHasBytes(v: Value)
    requires Accepted(v)
    ensures !Laid([], v) && ValueBytes(v) != []
  {}

  lemma {:induction false} ItemsAre(s: Str, items: seq<Value>)
    requires forall i :: 0 <= i < |items| ==> Accepted(items[i])
    ensures LaidItems(s, items) <==> s == ItemsBytes(items)
    decreases items
  {
    hide Laid, ValueBytes, Accepted;
    if items != [] {
      var head, tail := ValueBytes(items[0]), ItemsBytes(items[1..]);
      if s == head + tail {
        assert s[..|head|] == head && s[|head|..] == tail;
        ValueIs(s[..|head|], items[0]);
        ItemsAre(s[|head|..], items[1..]);
      }
      if k :| 0 <= k <= |s| && Laid(s[..k], items[0]) && LaidItems(s[k..], items[1..]) {
        ValueIs(s[..k], items[0]);
        ItemsAre(s[k..], items[1..]);
        assert s == s[..k] + s[k..];
      }
    }
  }

  lemma {:induction false} FieldsAre(s: Str, names: seq<Str>, v: Value)
    requires v.Object? && Accepted(v) && forall n :: n in names ==> n in v.fields
    ensures LaidFields(s, names, v) <==> s == FieldsBytes(names, v)
    decreases v, 0, |names|
  {
    hide Laid, ValueBytes, Sized, Lengthed;
    if names != [] {
      var head, value, tail := Lengthed(names[0]), ValueBytes(v.fields[names[0]]), FieldsBytes(names[1..], v);
      if s == head + value + tail {
        var j, k := |head|, |head| + |value|;
        assert s[..j] == head && s[j..k] == value && s[k..] == tail;
        SizedIs(s[..j], names[0]);
        ValueIs(s[j..k], v.fields[names[0]]);
        FieldsAre(s[k..], names[1..], v);
      }
      if j, k :| 0 <= j <= k <= |s| && Sized(s[..j], names[0]) && Laid(s[j..k], v.fields[names[0]])
                 && LaidFields(s[k..], names[1..], v)
      {
        SizedIs(s[..j], names[0]);
        ValueIs(s[j..k], v.fields[names[0]]);
        FieldsAre(s[k..], names[1..], v);
        assert s == s[..j] + s[j..k] + s[k..];
      }
    }
  }

  lemma {:induction false} BoundIs(s: Str, b: Bound)
    requires AcceptedBound(b)
    ensures LaidBound(s, b) <==> s == BoundBytes(b)
    decreases b
  {
    hide Laid, ValueBytes;
    match b
    case Unbounded =>
    case Included(v) =>
      Tagged(s, 0x02, ValueBytes(v));
      if |s| >= 1 { ValueIs(s[1..], v); }
    case Excluded(v) =>
      Tagged(s, 0x03, ValueBytes(v));
      if |s| >= 1 { ValueIs(s[1..], v); }
  }

  /** The lower bound before the upper one. */
  lemma {:induction false} RangeIs(s: Str, a: Bound, b: Bound)
    requires AcceptedBound(a) && AcceptedBound(b) && |s| >= 1
    ensures Laid(s, Range(a, b)) <==> s == ValueBytes(Range(a, b))
    decreases Range(a, b), 0
  {
    hide LaidBound, BoundBytes, AcceptedBound;
    var t, head, tail := s[1..], BoundBytes(a), BoundBytes(b);
    Tagged(s, 0x0e, head + tail);
    Assoc([0x0e], head, tail);
    if t == head + tail {
      assert t[..|head|] == head && t[|head|..] == tail;
      BoundIs(t[..|head|], a);
      BoundIs(t[|head|..], b);
    }
    if k :| 0 <= k <= |t| && LaidBound(t[..k], a) && LaidBound(t[k..], b) {
      BoundIs(t[..k], a);
      BoundIs(t[k..], b);
      assert t == t[..k] + t[k..];
    }
  }
}
