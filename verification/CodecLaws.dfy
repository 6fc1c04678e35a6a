/** What the two halves of the codec owe each other. */
module CodecLaws {
  import opened Words
  import opened Values
  import opened Encoding
  import opened Decoding
  import Utf8

  // ---------- primitives: reading what was written ----------

  lemma U32Reads(n: UInt32, s: Str)
    ensures ReadU32(U32(n) + s) == Parsed(n, s, true)
  {
    hide BigEndian, FromBigEndian, Pow256;
    Powers();
    BigEndianReads(n, 4);
    assert (U32(n) + s)[..4] == U32(n);
  }

  lemma U64Reads(n: UInt64, s: Str)
    ensures ReadU64(U64(n) + s) == Parsed(n, s, true)
  {
    hide BigEndian, FromBigEndian, Pow256;
    Powers();
    BigEndianReads(n, 8);
    assert (U64(n) + s)[..8] == U64(n);
  }

  lemma I64Reads(n: Int64, s: Str)
    ensures ReadI64(I64(n) + s) == Parsed(n, s, true)
  {
    hide BigEndian, FromBigEndian, Pow256;
    var plain := BigEndian(Unsigned64(n), 8);
    Powers();
    BigEndianReads(Unsigned64(n), 8);
    var bs := I64(n) + s;
    assert [FlipTop(bs[0])] + bs[1..8] == plain;
    assert bs[8..] == s;
  }

  /** The sixteen bytes read back exactly when the mantissa is an i128. */
  lemma I128Reads(n: int, s: Str)
    requires Magnitude128(n) < TWO_128
    ensures (ReadI128(I128(n) + s) == Parsed(n, s, true)) <==> -TWO_127 <= n < TWO_127
  {
    hide BigEndian, FromBigEndian, Pow256;
    Powers();
    var m := Magnitude128(n);
    BigEndianReads(m, 16);
    var bs := I128(n) + s;
    assert bs[..16] == I128(n) && bs[16..] == s;
    TopBit(I128(n));
    assert bs[0] >= 0x80 <==> m >= TWO_127;
  }

  lemma TopBit(s: Str)
    requires |s| == 16
    ensures s[0] >= 0x80 <==> FromBigEndian(s) >= TWO_127
  {
    Powers();
    FromBigEndianHead(s[0], s[1..]);
    BigEndianWrites(s[1..]);
    assert s == [s[0]] + s[1..];
    assert Pow256(15) == 0x1_0000_0000_0000_0000_0000_0000_0000_00;
  }

  lemma LengthedReads(t: Str, s: Str)
    requires |t| < TWO_32
    ensures ReadLengthed(Lengthed(t) + s) == Parsed(t, s, true)
  {
    hide ReadU32, U32;
    U32Reads(|t|, t + s);
    assert Lengthed(t) + s == U32(|t|) + (t + s);
    assert (t + s)[..|t|] == t && (t + s)[|t|..] == s;
  }

  lemma {:induction false} VarbytesReads(t: Str, s: Str)
    ensures ReadVarbytes(Varbytes(t) + s) == Parsed(t, s, true)
  {
    var bs := Varbytes(t) + s;
    if t == [] {
      assert bs == [0x00, 0x01] + s;
      assert bs[2..] == s;
    } else {
      VarbytesReads(t[1..], s);
      var k := if t[0] == 0 then 2 else 1;
      assert bs[k..] == Varbytes(t[1..]) + s;
      assert t == [t[0]] + t[1..];
    }
  }

  lemma {:induction false} ManyReads<T>(xs: seq<T>, one: T -> Str, read: Str -> Parsed<T>, s: Str)
    requires forall s :: read(s).Parsed? ==> |read(s).rest| <= |s|
    requires forall i, s :: 0 <= i < |xs| ==> read(one(xs[i]) + s) == Parsed(xs[i], s, true)
    ensures ReadMany(Many(xs, one) + s, |xs|, read) == Parsed(xs, s, true)
  {
    if xs == [] {
      assert Many(xs, one) + s == s;
    } else {
      var tail := xs[1..];
      ManyReads(tail, one, read, s);
      assert Many(xs, one) + s == one(xs[0]) + (Many(tail, one) + s);
      assert xs == [xs[0]] + tail;
    }
  }

  lemma CountedReads<T>(xs: seq<T>, one: T -> Str, read: Str -> Parsed<T>, s: Str)
    requires |xs| < TWO_32
    requires forall s :: read(s).Parsed? ==> |read(s).rest| <= |s|
    requires forall i, s :: 0 <= i < |xs| ==> read(one(xs[i]) + s) == Parsed(xs[i], s, true)
    ensures ReadCounted(Counted(xs, one) + s, read) == Parsed(xs, s, true)
  {
    U32Reads(|xs|, Many(xs, one) + s);
    ManyReads(xs, one, read, s);
    assert Counted(xs, one) + s == U32(|xs|) + (Many(xs, one) + s);
  }

  // ---------- shapes ----------

  lemma PositionReads(p: Position, s: Str)
    ensures ReadPosition(PositionBytes(p) + s) == Parsed(p, s, true)
  {
    hide ReadU64, U64;
    U64Reads(p.lon, U64(p.lat) + s);
    U64Reads(p.lat, s);
    assert PositionBytes(p) + s == U64(p.lon) + (U64(p.lat) + s);
  }

  lemma RingReads(ps: Ring, s: Str)
    requires |ps| < TWO_32
    ensures ReadRing(RingBytes(ps) + s) == Parsed(ps, s, true)
  {
    forall i, s | 0 <= i < |ps| ensures ReadPosition(PositionBytes(ps[i]) + s) == Parsed(ps[i], s, true) {
      PositionReads(ps[i], s);
    }
    CountedReads(ps, PositionBytes, ReadPosition, s);
  }

  lemma RingsRead(rings: seq<Ring>, s: Str)
    requires HoldableRings(rings)
    ensures ReadCounted(Counted(rings, RingBytes) + s, ReadRing) == Parsed(rings, s, true)
  {
    hide ReadU32, U32, ReadMany, Many;
    forall i, s | 0 <= i < |rings| ensures ReadRing(RingBytes(rings[i]) + s) == Parsed(rings[i], s, true) {
      RingReads(rings[i], s);
    }
    CountedReads(rings, RingBytes, ReadRing, s);
  }

  lemma PolygonReads(p: Polygon, s: Str)
    requires HoldablePolygon(p)
    ensures ReadPolygon(PolygonBytes(p) + s) == Parsed(p, s, true)
  {
    hide ReadRing, RingBytes, ReadCounted, Counted;
    RingReads(p.exterior, Counted(p.interiors, RingBytes) + s);
    RingsRead(p.interiors, s);
    assert PolygonBytes(p) + s == RingBytes(p.exterior) + (Counted(p.interiors, RingBytes) + s);
  }

  lemma PolygonsRead(ps: seq<Polygon>, s: Str)
    requires |ps| < TWO_32 && forall i :: 0 <= i < |ps| ==> HoldablePolygon(ps[i])
    ensures ReadCounted(Counted(ps, PolygonBytes) + s, ReadPolygon) == Parsed(ps, s, true)
  {
    forall i, s | 0 <= i < |ps| ensures ReadPolygon(PolygonBytes(ps[i]) + s) == Parsed(ps[i], s, true) {
      PolygonReads(ps[i], s);
    }
    CountedReads(ps, PolygonBytes, ReadPolygon, s);
  }

  lemma {:induction false} ShapeReads(g: Shape, s: Str)
    requires AcceptedShape(g) && HoldableShape(g)
    ensures ReadShape(ShapeBytes(g) + s) == Parsed(g, s, true)
    decreases g
  {
    hide ReadPosition, PositionBytes, ReadRing, RingBytes, ReadPolygon, PolygonBytes, ReadCounted, Counted,
      ReadShapes, ShapesBytes, ReadU32, U32;
    var bs := ShapeBytes(g) + s;
    match g
    case Point(p) => PositionReads(p, s); assert bs[1..] == PositionBytes(p) + s;
    case Line(ps) => RingReads(ps, s); assert bs[1..] == RingBytes(ps) + s;
    case PolygonShape(p) => PolygonReads(p, s); assert bs[1..] == PolygonBytes(p) + s;
    case MultiPoint(ps) => RingReads(ps, s); assert bs[1..] == RingBytes(ps) + s;
    case MultiLine(ls) => RingsRead(ls, s); assert bs[1..] == Counted(ls, RingBytes) + s;
    case MultiPolygon(ps) => PolygonsRead(ps, s); assert bs[1..] == Counted(ps, PolygonBytes) + s;
    case Collection(gs) =>
      assert bs[1..] == U32(|gs|) + (ShapesBytes(gs) + s);
      U32Reads(|gs|, ShapesBytes(gs) + s);
      ShapesRead(gs, s);
  }

  lemma {:induction false} ShapesRead(gs: seq<Shape>, s: Str)
    requires forall i :: 0 <= i < |gs| ==> AcceptedShape(gs[i]) && HoldableShape(gs[i])
    ensures ReadShapes(ShapesBytes(gs) + s, |gs|) == Parsed(gs, s, true)
    decreases gs
  {
    hide ReadShape, ShapeBytes, AcceptedShape, HoldableShape;
    if gs == [] {
      assert ShapesBytes(gs) + s == s;
    } else {
      ShapeReads(gs[0], ShapesBytes(gs[1..]) + s);
      ShapesRead(gs[1..], s);
      Assoc(ShapeBytes(gs[0]), ShapesBytes(gs[1..]), s);
      assert gs == [gs[0]] + gs[1..];
      ShapesStep(ShapeBytes(gs[0]) + (ShapesBytes(gs[1..]) + s), gs[0], gs[1..], ShapesBytes(gs[1..]) + s, s);
    }
  }

  lemma ShapesStep(bs: Str, g: Shape, gs: seq<Shape>, after: Str, rest: Str)
    requires ReadShape(bs) == Parsed(g, after, true) && ReadShapes(after, |gs|) == Parsed(gs, rest, true)
    ensures ReadShapes(bs, |gs| + 1) == Parsed([g] + gs, rest, true)
  {
    hide ReadShape;
  }

  // ---------- values ----------

  lemma MomentReads(seconds: Int64, nanos: UInt32, s: Str)
    requires nanos < NANOS_PER_SECOND
    ensures ReadMoment(Moment(seconds, nanos) + s) == Parsed((seconds, nanos), s, true)
  {
    hide ReadU32, U32, ReadI64, I64;
    I64Reads(seconds, U32(nanos) + s);
    U32Reads(nanos, s);
    assert Moment(seconds, nanos) + s == I64(seconds) + (U32(nanos) + s);
  }

  lemma IdReads(id: RecordId, s: Str)
    requires !id.NoId?
    ensures ReadId(IdBytes(id) + s) == Parsed(id, s, true)
  {
    hide ReadI64, I64, ReadVarbytes, Varbytes, Accepted, Holdable;
    var bs := IdBytes(id) + s;
    assert bs[1..] == IdBytes(id)[1..] + s;
    match id
    case IntegerId(n) => I64Reads(n, s); assert bs[1..] == I64(n) + s;
    case TextId(t) => VarbytesReads(t, s); assert bs[1..] == Varbytes(t) + s;
    case UuidId(u) => assert bs[1..] == u + s; assert (u + s)[..16] == u;
    case BytesId(b) => VarbytesReads(b, s); assert bs[1..] == Varbytes(b) + s;
  }

  /** The types that hold no other value; the two numbers first. */
  lemma NumberReads(v: Value, s: Str)
    requires v.Integer? || v.Float? || v.Decimal?
    requires Accepted(v) && Holdable(v)
    ensures ReadValue(ValueBytes(v) + s) == Parsed(v, s, true)
  {
    hide ReadI64, I64, ReadU64, U64, ReadI128, I128, ReadU32, U32, Magnitude128;
    var bs := ValueBytes(v) + s;
    match v
    case Integer(n) =>
      I64Reads(n, s);
      assert bs[1..][1..] == I64(n) + s;
    case Float(bits) =>
      U64Reads(bits, s);
      assert bs[1..][1..] == U64(bits) + s;
    case Decimal(m, scale) =>
      I128Reads(m.value, U32(scale) + s);
      U32Reads(scale, s);
      assert bs[1..][1..] == I128(m.value) + (U32(scale) + s);
  }

  lemma StringReads(v: Value, s: Str)
    requires v.Text? || v.Bytes? || v.Regex?
    requires Holdable(v)
    ensures ReadValue(ValueBytes(v) + s) == Parsed(v, s, true)
  {
    hide ReadLengthed, Lengthed, ReadItems, ReadFields, ReadBound, ReadCountedItems, ReadNumber, ReadMoment, ReadShape,
      ReadId, ReadU32, Utf8.Valid;
    var t := if v.Text? then v.text else if v.Bytes? then v.bytes else v.pattern;
    LengthedReads(t, s);
    assert (ValueBytes(v) + s)[1..] == Lengthed(t) + s;
  }

  lemma FlatReads(v: Value, s: Str)
    requires Accepted(v) && Holdable(v)
    requires !v.Integer? && !v.Float? && !v.Decimal? && !v.Text? && !v.Bytes? && !v.Regex?
    requires !v.Array? && !v.Set? && !v.Object? && !v.Range?
    ensures ReadValue(ValueBytes(v) + s) == Parsed(v, s, true)
  {
    hide ReadLengthed, ReadMoment, Moment, ReadU32, U32, ReadId, IdBytes, ReadShape, ShapeBytes, ReadNumber, ReadText,
      ReadItems, ReadFields, ReadBound, AcceptedShape, HoldableShape, ReadCountedItems;
    if v.None? || v.Null? || v.Bool? || v.Uuid? {
      ShortReads(v, s);
    } else if v.Duration? || v.Datetime? {
      MomentReads(v.seconds, v.nanos, s);
      TimeReads(v, s);
    } else if v.Table? || v.Record? {
      TableReads(v, s);
    } else {
      ShapeReads(v.shape, s);
      assert (ValueBytes(v) + s)[1..] == ShapeBytes(v.shape) + s;
    }
  }

  lemma TagReads(tag: Byte, rest: Str)
    requires tag != TAG_ARRAY && tag != TAG_SET && tag != TAG_OBJECT && tag != TAG_RANGE
    ensures ReadValue([tag] + rest) == ReadFlat(tag, rest)
  {
    hide ReadFlat, ReadCountedItems, ReadCountedFields, ReadBound;
    assert ([tag] + rest)[1..] == rest;
  }

  lemma ShortReads(v: Value, s: Str)
    requires v.None? || v.Null? || v.Bool? || v.Uuid?
    ensures ReadValue(ValueBytes(v) + s) == Parsed(v, s, true)
  {
    hide ReadValue, ReadMoment, ReadU32, ReadId, ReadShape, ReadNumber, ReadText, ReadLengthed;
    if v.Bool? {
      var rest := [if v.truth then 1 else 0] + s;
      assert ValueBytes(v) + s == [TAG_BOOL] + rest && rest[1..] == s;
      TagReads(TAG_BOOL, rest);
    } else if v.Uuid? {
      Assoc([TAG_UUID], v.uuid, s);
      TagReads(TAG_UUID, v.uuid + s);
      assert (v.uuid + s)[..16] == v.uuid && (v.uuid + s)[16..] == s;
    } else {
      TagReads(if v.None? then TAG_NONE else TAG_NULL, s);
    }
  }

  lemma TimeReads(v: Value, s: Str)
    requires v.Duration? || v.Datetime?
    requires ReadMoment(Moment(v.seconds, v.nanos) + s) == Parsed((v.seconds, v.nanos), s, true)
    ensures ReadValue(ValueBytes(v) + s) == Parsed(v, s, true)
  {
    hide ReadValue, ReadMoment, Moment, ReadU32, ReadId, ReadShape, ReadNumber, ReadText, ReadLengthed;
    var tag: Byte := if v.Duration? then TAG_DURATION else TAG_DATETIME;
    Assoc([tag], Moment(v.seconds, v.nanos), s);
    TagReads(tag, Moment(v.seconds, v.nanos) + s);
  }

  lemma TableReads(v: Value, s: Str)
    requires v.Table? || (v.Record? && !v.id.NoId? && Accepted(v) && Holdable(v))
    ensures ReadValue(ValueBytes(v) + s) == Parsed(v, s, true)
  {
    hide ReadValue, ReadMoment, ReadU32, U32, ReadId, IdBytes, ReadShape, ReadNumber, ReadText, ReadLengthed;
    if v.Table? {
      U32Reads(v.table, s);
      Assoc([TAG_TABLE], U32(v.table), s);
      TagReads(TAG_TABLE, U32(v.table) + s);
    } else {
      U32Reads(v.table, IdBytes(v.id) + s);
      IdReads(v.id, s);
      Assoc([TAG_RECORD], U32(v.table), IdBytes(v.id));
      Assoc([TAG_RECORD], U32(v.table) + IdBytes(v.id), s);
      Assoc(U32(v.table), IdBytes(v.id), s);
      TagReads(TAG_RECORD, U32(v.table) + (IdBytes(v.id) + s));
    }
  }

  /** A value read where it was written comes back whole, whatever follows, and its bytes are canonical. */
  lemma {:induction false} ValueReads(v: Value, s: Str)
    requires Accepted(v) && Holdable(v)
    ensures ReadValue(ValueBytes(v) + s) == Parsed(v, s, true)
    decreases v
  {
    hide ReadItems, ItemsBytes, ReadFields, FieldsBytes, ReadBound, BoundBytes, ReadFlat, ReadU32, U32, Sorted,
      AcceptedShape, HoldableShape;
    var bs := ValueBytes(v) + s;
    match v
    case Array(items) =>
      assert bs[1..] == U32(|items|) + (ItemsBytes(items) + s);
      U32Reads(|items|, ItemsBytes(items) + s);
      ItemsRead(items, s);
    case Set(items) =>
      assert bs[1..] == U32(|items|) + (ItemsBytes(items) + s);
      U32Reads(|items|, ItemsBytes(items) + s);
      ItemsRead(items, s);
    case Object(fields) =>
      ObjectReads(v, s);
    case Range(a, b) =>
      assert bs[1..] == BoundBytes(a) + (BoundBytes(b) + s);
      BoundReads(a, BoundBytes(b) + s);
      BoundReads(b, s);
    case Integer(_) => NumberReads(v, s);
    case Float(_) => NumberReads(v, s);
    case Decimal(_, _) => NumberReads(v, s);
    case Text(_) => StringReads(v, s);
    case Bytes(_) => StringReads(v, s);
    case Regex(_) => StringReads(v, s);
    case _ => FlatReads(v, s);
  }

  lemma {:induction false} ObjectReads(v: Value, s: Str)
    requires v.Object? && Accepted(v) && Holdable(v)
    ensures ReadValue(ValueBytes(v) + s) == Parsed(v, s, true)
    decreases v, |v.fields| + 1
  {
    hide ReadValue, ReadFields, ValueBytes, FieldsBytes, ReadU32, U32, Accepted, Holdable, Less, Sorted;
    var names, count := Sorted(v.fields.Keys), |v.fields|;
    var after := FieldsBytes(names, v) + s;
    assert |v.fields.Keys| == count;
    FieldCountFits(v);
    U32Reads(count, after);
    assert [] + names == names;
    FieldsRead([], names, v, map[], s);
    ObjectStep(U32(count) + after, count, after);
    ObjectText(v, s);
  }

  lemma ObjectText(v: Value, s: Str)
    requires v.Object?
    ensures ValueBytes(v) + s == [TAG_OBJECT] + (U32(|v.fields|) + (FieldsBytes(Sorted(v.fields.Keys), v) + s))
  {
    hide U32, FieldsBytes, Sorted;
    var count, fields := U32(|v.fields|), FieldsBytes(Sorted(v.fields.Keys), v);
    Assoc([TAG_OBJECT] + count, fields, s);
    Assoc([TAG_OBJECT], count, fields + s);
  }

  lemma ObjectStep(bs: Str, count: nat, after: Str)
    requires ReadU32(bs).Parsed? && ReadU32(bs).value == count && ReadU32(bs).rest == after
    ensures ReadValue([TAG_OBJECT] + bs)
         == match ReadFields(after, count, map[])
            case Failed => Failed
            case Parsed(fields, rest, canonical) => Parsed(Object(fields), rest, canonical)
  {
    hide ReadFields, ReadU32, ReadItems, ReadBound, ReadFlat, ReadCountedItems;
    assert ([TAG_OBJECT] + bs)[1..] == bs;
  }

  lemma FieldCountFits(v: Value)
    requires v.Object? && Holdable(v)
    ensures |v.fields| < TWO_32
  {}

  lemma {:induction false} ItemsRead(items: seq<Value>, s: Str)
    requires forall i :: 0 <= i < |items| ==> Accepted(items[i]) && Holdable(items[i])
    ensures ReadItems(ItemsBytes(items) + s, |items|) == Parsed(items, s, true)
    decreases items
  {
    hide ReadValue, ValueBytes, Accepted, Holdable, ReadItems;
    if items == [] {
      assert ItemsBytes(items) + s == s;
      NoItemRead(s);
    } else {
      var tail := ItemsBytes(items[1..]) + s;
      ValueReads(items[0], tail);
      ItemsRead(items[1..], s);
      Assoc(ValueBytes(items[0]), ItemsBytes(items[1..]), s);
      OneItemRead(ValueBytes(items[0]) + tail, items[0], tail, items[1..], s);
      assert items == [items[0]] + items[1..];
    }
  }

  lemma NoItemRead(s: Str)
    ensures ReadItems(s, 0) == Parsed([], s, true)
  {}

  lemma OneItemRead(bs: Str, first: Value, tail: Str, more: seq<Value>, s: Str)
    requires ReadValue(bs) == Parsed(first, tail, true) && ReadItems(tail, |more|) == Parsed(more, s, true)
    ensures ReadItems(bs, |more| + 1) == Parsed([first] + more, s, true)
  {
    hide ReadValue;
  }

  lemma FieldReads(name: Str, written: Str, value: Value, tail: Str, count: nat, before: map<Str, Value>)
    requires |name| < TWO_32 && Utf8.Valid(name)
    requires ReadValue(written + tail) == Parsed(value, tail, true)
    requires forall k :: k in before ==> Less(k, name)
    ensures ReadFields(Lengthed(name) + (written + tail), count + 1, before)
         == ReadFields(tail, count, before[name := value])
  {
    hide ReadValue, ReadLengthed, Lengthed, Less, Utf8.Valid;
    LengthedReads(name, written + tail);
  }

  /** Reading on from the middle of an object: `done` are the names already in the map. */
  lemma {:induction false} FieldsRead(done: seq<Str>, names: seq<Str>, v: Value, before: map<Str, Value>, s: Str)
    requires v.Object? && Accepted(v) && Holdable(v)
    requires Ascending(done + names) && forall n :: n in done + names <==> n in v.fields
    requires before == map n | n in v.fields && n in done :: v.fields[n]
    ensures ReadFields(FieldsBytes(names, v) + s, |names|, before) == Parsed(v.fields, s, true)
    decreases v, |names|
  {
    hide ReadValue, ValueBytes, ReadText, Lengthed, Less, Utf8.Valid, Accepted, Holdable;
    if names == [] {
      assert done + names == done;
      assert before == v.fields;
      assert FieldsBytes(names, v) + s == s;
    } else {
      hide ReadFields, Ascending;
      var name, rest := names[0], names[1..];
      assert name in done + names;
      FieldHolds(v, name);
      var value, tail := v.fields[name], FieldsBytes(rest, v) + s;
      ValueReads(value, tail);
      OneMoreField(done, name, v.fields, before);
      NamesAreAbove(done, names);
      FieldReads(name, ValueBytes(value), value, tail, |rest|, before);
      assert FieldsBytes(names, v) + s == Lengthed(name) + (ValueBytes(value) + tail);
      assert (done + [name]) + rest == done + names;
      FieldsRead(done + [name], rest, v, before[name := value], s);
    }
  }

  lemma FieldHolds(v: Value, name: Str)
    requires v.Object? && Accepted(v) && Holdable(v) && name in v.fields
    ensures |name| < TWO_32 && Utf8.Valid(name) && Accepted(v.fields[name]) && Holdable(v.fields[name])
  {
    hide Utf8.Valid;
  }

  lemma OneMoreField(done: seq<Str>, name: Str, fields: map<Str, Value>, before: map<Str, Value>)
    requires name in fields && before == map n | n in fields && n in done :: fields[n]
    ensures before[name := fields[name]] == map n | n in fields && n in done + [name] :: fields[n]
  {}

  lemma NamesAreAbove(done: seq<Str>, names: seq<Str>)
    requires names != [] && Ascending(done + names)
    ensures forall k :: k in done ==> Less(k, names[0])
  {
    hide Less;
    forall k | k in done ensures Less(k, names[0]) {
      var i :| 0 <= i < |done| && done[i] == k;
      assert (done + names)[i] == k && (done + names)[|done|] == names[0];
    }
  }

  lemma {:induction false} BoundReads(b: Bound, s: Str)
    requires AcceptedBound(b) && HoldableBound(b)
    ensures ReadBound(BoundBytes(b) + s) == Parsed(b, s, true)
    decreases b
  {
    hide ReadValue, ReadFlat, ValueBytes, Accepted, Holdable;
    var bs := BoundBytes(b) + s;
    match b
    case Unbounded => assert bs[1..] == s;
    case Included(v) => ValueReads(v, s); assert bs[1..] == ValueBytes(v) + s;
    case Excluded(v) => ValueReads(v, s); assert bs[1..] == ValueBytes(v) + s;
  }

  // ---------- the other way: what reading says about the bytes read ----------

  /** Writing `written` for what was read takes no more room, and the same bytes if they were canonical. */
  predicate Tight(bs: Str, written: Str, rest: Str, canonical: bool) {
    |written| + |rest| <= |bs| && (canonical ==> bs == written + rest)
  }

  lemma U32Writes(bs: Str)
    requires |bs| >= 4
    ensures bs == U32(ReadU32(bs).value) + ReadU32(bs).rest
  {
    hide BigEndian, FromBigEndian, Pow256;
    BigEndianWrites(bs[..4]);
    Powers();
  }

  lemma U64Writes(bs: Str)
    requires |bs| >= 8
    ensures bs == U64(ReadU64(bs).value) + ReadU64(bs).rest
  {
    hide BigEndian, FromBigEndian, Pow256;
    BigEndianWrites(bs[..8]);
    Powers();
  }

  lemma I64Writes(bs: Str)
    requires |bs| >= 8
    ensures bs == I64(ReadI64(bs).value) + ReadI64(bs).rest
  {
    hide BigEndian, FromBigEndian, Pow256;
    var plain := [FlipTop(bs[0])] + bs[1..8];
    BigEndianWrites(plain);
    Powers();
    assert bs == [bs[0]] + plain[1..] + bs[8..];
  }

  lemma I128Writes(bs: Str)
    requires |bs| >= 16
    ensures var m := ReadI128(bs).value; -TWO_127 <= m < TWO_127 && Magnitude128(m) < TWO_128
    ensures bs == I128(ReadI128(bs).value) + ReadI128(bs).rest
  {
    hide BigEndian, FromBigEndian, Pow256;
    BigEndianWrites(bs[..16]);
    Powers();
    TopBit(bs[..16]);
  }

  lemma LengthedWrites(bs: Str)
    requires ReadLengthed(bs).Parsed?
    ensures bs == Lengthed(ReadLengthed(bs).value) + ReadLengthed(bs).rest
  {
    hide U32;
    U32Writes(bs);
  }

  lemma NothingEscaped()
    ensures Varbytes([]) == [0x00, 0x01]
  {}

  lemma OneEscaped(b: Byte, t: Str, rest: Str)
    ensures Varbytes([b] + t) + rest == (if b == 0 then [0x00, 0xff] else [b]) + (Varbytes(t) + rest)
  {
    assert ([b] + t)[1..] == t;
    var mark := if b == 0 then [0x00, 0xff] else [b];
    Assoc(mark, Escaped(t), [0x00, 0x01]);
    Assoc(mark, Varbytes(t), rest);
  }

  lemma {:induction false} VarbytesWrite(bs: Str)
    requires ReadVarbytes(bs).Parsed?
    ensures bs == Varbytes(ReadVarbytes(bs).value) + ReadVarbytes(bs).rest
    decreases |bs|
  {
    hide Varbytes;
    if bs[0] == 0 && bs[1] == 0x01 {
      assert bs == [0x00, 0x01] + bs[2..];
      NothingEscaped();
    } else {
      var n := if bs[0] == 0 then 2 else 1;
      var tail := ReadVarbytes(bs[n..]);
      VarbytesWrite(bs[n..]);
      assert bs == bs[..n] + bs[n..];
      OneEscaped(bs[0], tail.value, tail.rest);
    }
  }

  lemma {:induction false} ManyWrite<T>(bs: Str, count: nat, one: T -> Str, read: Str -> Parsed<T>)
    requires forall s :: read(s).Parsed? ==> |read(s).rest| <= |s|
    requires forall s :: read(s).Parsed? ==> Tight(s, one(read(s).value), read(s).rest, read(s).canonical)
    requires ReadMany(bs, count, read).Parsed?
    ensures var p := ReadMany(bs, count, read); Tight(bs, Many(p.value, one), p.rest, p.canonical)
    decreases count
  {
    if count > 0 {
      var p, xs := read(bs), ReadMany(bs, count, read).value;
      ManyWrite(p.rest, count - 1, one, read);
      assert xs[1..] == ReadMany(p.rest, count - 1, read).value;
    }
  }

  lemma CountedWrites<T>(bs: Str, one: T -> Str, read: Str -> Parsed<T>)
    requires forall s :: read(s).Parsed? ==> |read(s).rest| <= |s|
    requires forall s :: read(s).Parsed? ==> Tight(s, one(read(s).value), read(s).rest, read(s).canonical)
    requires ReadCounted(bs, read).Parsed?
    ensures var p := ReadCounted(bs, read); Tight(bs, Counted(p.value, one), p.rest, p.canonical)
  {
    hide Many, ReadMany, U32;
    U32Writes(bs);
    ManyWrite(ReadU32(bs).rest, ReadU32(bs).value, one, read);
  }

  /** Each item of a counted list satisfies what every single reading satisfies. */
  lemma {:induction false} ManyHold<T>(bs: Str, count: nat, read: Str -> Parsed<T>, holds: T -> bool)
    requires forall s :: read(s).Parsed? ==> |read(s).rest| <= |s|
    requires forall s :: read(s).Parsed? ==> holds(read(s).value)
    requires ReadMany(bs, count, read).Parsed?
    ensures forall x :: x in ReadMany(bs, count, read).value ==> holds(x)
    decreases count
  {
    if count > 0 {
      ManyHold(read(bs).rest, count - 1, read, holds);
    }
  }

  lemma PositionWrites(bs: Str)
    requires ReadPosition(bs).Parsed?
    ensures var p := ReadPosition(bs); Tight(bs, PositionBytes(p.value), p.rest, p.canonical)
  {
    hide U64;
    U64Writes(bs);
    U64Writes(ReadU64(bs).rest);
  }

  lemma RingWrites(bs: Str)
    requires ReadRing(bs).Parsed?
    ensures var p := ReadRing(bs); Tight(bs, RingBytes(p.value), p.rest, p.canonical) && |p.value| < TWO_32
  {
    forall s | ReadPosition(s).Parsed?
      ensures var p := ReadPosition(s); Tight(s, PositionBytes(p.value), p.rest, p.canonical)
    {
      PositionWrites(s);
    }
    CountedWrites(bs, PositionBytes, ReadPosition);
  }

  lemma RingsWrite(bs: Str)
    requires ReadCounted(bs, ReadRing).Parsed?
    ensures var p := ReadCounted(bs, ReadRing);
            Tight(bs, Counted(p.value, RingBytes), p.rest, p.canonical) && HoldableRings(p.value)
  {
    forall s | ReadRing(s).Parsed?
      ensures var p := ReadRing(s); Tight(s, RingBytes(p.value), p.rest, p.canonical) && HoldableRing(p.value)
    {
      RingWrites(s);
    }
    CountedWrites(bs, RingBytes, ReadRing);
    ManyHold(ReadU32(bs).rest, ReadU32(bs).value, ReadRing, HoldableRing);
  }

  lemma PolygonWrites(bs: Str)
    requires ReadPolygon(bs).Parsed?
    ensures var p := ReadPolygon(bs);
            Tight(bs, PolygonBytes(p.value), p.rest, p.canonical) && HoldablePolygon(p.value)
  {
    hide ReadRing, RingBytes, ReadCounted, Counted, HoldableRings;
    RingWrites(bs);
    RingsWrite(ReadRing(bs).rest);
  }

  lemma PolygonsWrite(bs: Str)
    requires ReadCounted(bs, ReadPolygon).Parsed?
    ensures var p := ReadCounted(bs, ReadPolygon);
            && Tight(bs, Counted(p.value, PolygonBytes), p.rest, p.canonical)
            && |p.value| < TWO_32 && forall i :: 0 <= i < |p.value| ==> HoldablePolygon(p.value[i])
  {
    forall s | ReadPolygon(s).Parsed?
      ensures var p := ReadPolygon(s);
              Tight(s, PolygonBytes(p.value), p.rest, p.canonical) && HoldablePolygon(p.value)
    {
      PolygonWrites(s);
    }
    CountedWrites(bs, PolygonBytes, ReadPolygon);
    ManyHold(ReadU32(bs).rest, ReadU32(bs).value, ReadPolygon, HoldablePolygon);
  }

  lemma {:induction false} ShapeWrites(bs: Str)
    requires ReadShape(bs).Parsed?
    ensures var p := ReadShape(bs);
            && Tight(bs, ShapeBytes(p.value), p.rest, p.canonical)
            && AcceptedShape(p.value) && HoldableShape(p.value)
    decreases |bs|, 0
  {
    hide ReadPosition, PositionBytes, ReadRing, RingBytes, ReadPolygon, PolygonBytes, ReadCounted, Counted,
      ReadShapes, ShapesBytes, ReadU32, U32, HoldablePolygon, HoldableRings;
    var r := bs[1..];
    assert bs == [bs[0]] + r;
    match ReadShape(bs).value
    case NoShape => assert false;
    case Point(_) => PositionWrites(r);
    case Line(_) => RingWrites(r);
    case PolygonShape(_) => PolygonWrites(r);
    case MultiPoint(_) => RingWrites(r);
    case MultiLine(_) => RingsWrite(r);
    case MultiPolygon(_) => PolygonsWrite(r);
    case Collection(_) =>
      assert ReadU32(r).Parsed? && |r| >= 4 by { if |r| < 4 { ShortU32(r); } }
      U32Writes(r);
      ShapesWrite(ReadU32(r).rest, ReadU32(r).value);
  }

  lemma ShortU32(bs: Str)
    requires |bs| < 4
    ensures ReadU32(bs).Failed?
  {}

  lemma {:induction false} ShapesWrite(bs: Str, count: nat)
    requires ReadShapes(bs, count).Parsed?
    ensures var p := ReadShapes(bs, count);
            && Tight(bs, ShapesBytes(p.value), p.rest, p.canonical)
            && forall i :: 0 <= i < |p.value| ==> AcceptedShape(p.value[i]) && HoldableShape(p.value[i])
    decreases |bs|, count
  {
    hide ReadShape, ShapeBytes, AcceptedShape, HoldableShape, Tight;
    if count > 0 {
      ShapeWrites(bs);
      var p := ReadShape(bs);
      ShapesWrite(p.rest, count - 1);
      var more := ReadShapes(p.rest, count - 1);
      assert ReadShapes(bs, count).value == [p.value] + more.value;
      ShapesCons(p.value, more.value);
      TightTwice(bs, ShapeBytes(p.value), p.rest, ShapesBytes(more.value), more.rest, p.canonical, more.canonical);
    } else {
      NoShapes(bs);
    }
  }

  lemma NoShapes(bs: Str)
    ensures Tight(bs, ShapesBytes([]), bs, true)
  {
    assert [] + bs == bs;
  }

  lemma ShapesCons(g: Shape, gs: seq<Shape>)
    ensures ShapesBytes([g] + gs) == ShapeBytes(g) + ShapesBytes(gs)
  {
    hide ShapeBytes;
    assert ([g] + gs)[1..] == gs;
  }

  lemma MomentWrites(bs: Str)
    requires ReadMoment(bs).Parsed?
    ensures var p := ReadMoment(bs); bs == Moment(p.value.0, p.value.1) + p.rest
  {
    hide U32, I64;
    I64Writes(bs);
    U32Writes(ReadI64(bs).rest);
  }

  lemma IdWrites(bs: Str)
    requires ReadId(bs).Parsed?
    ensures var p := ReadId(bs); !p.value.NoId? && bs == IdBytes(p.value) + p.rest
  {
    hide I64, ReadI64, ReadVarbytes, Varbytes;
    var r := bs[1..];
    assert bs == [bs[0]] + r;
    match ReadId(bs).value
    case NoId => assert false;
    case IntegerId(_) => assert |r| >= 8 by { if |r| < 8 { ShortI64(r); } } I64Writes(r);
    case TextId(_) => VarbytesWrite(r);
    case UuidId(_) => assert r == r[..16] + r[16..];
    case BytesId(_) => VarbytesWrite(r);
  }

  lemma ShortI64(bs: Str)
    requires |bs| < 8
    ensures ReadI64(bs).Failed?
  {}

  lemma TwoTags(a: Byte, b: Byte, bs: Str, written: Str, rest: Str)
    requires bs == written + rest
    ensures [a] + ([b] + bs) == [a, b] + written + rest
  {
    Assoc([a, b], written, rest);
  }

  lemma IntegerWrites(bs: Str)
    requires ReadI64(bs).Parsed?
    ensures var n := Integer(ReadI64(bs).value);
            && Accepted(n) && Holdable(n)
            && [TAG_NUMBER] + ([NUMBER_INTEGER] + bs) == ValueBytes(n) + ReadI64(bs).rest
  {
    hide ReadI64, I64;
    I64Writes(bs);
    TwoTags(TAG_NUMBER, NUMBER_INTEGER, bs, I64(ReadI64(bs).value), ReadI64(bs).rest);
  }

  lemma FloatWrites(bs: Str)
    requires ReadU64(bs).Parsed?
    ensures var n := Float(ReadU64(bs).value);
            && Accepted(n) && Holdable(n)
            && [TAG_NUMBER] + ([NUMBER_FLOAT] + bs) == ValueBytes(n) + ReadU64(bs).rest
  {
    hide ReadU64, U64;
    U64Writes(bs);
    TwoTags(TAG_NUMBER, NUMBER_FLOAT, bs, U64(ReadU64(bs).value), ReadU64(bs).rest);
  }

  lemma DecimalWrites(bs: Str)
    requires ReadI128(bs).Parsed? && ReadU32(ReadI128(bs).rest).Parsed?
    ensures var m, scale := ReadI128(bs).value, ReadU32(ReadI128(bs).rest);
            && Accepted(Decimal(Some(m), scale.value)) && Holdable(Decimal(Some(m), scale.value))
            && [TAG_NUMBER] + ([NUMBER_DECIMAL] + bs) == ValueBytes(Decimal(Some(m), scale.value)) + scale.rest
  {
    hide ReadI128, I128, ReadU32, U32, Magnitude128;
    var m, scale := ReadI128(bs), ReadU32(ReadI128(bs).rest);
    I128Writes(bs);
    U32Writes(m.rest);
    Assoc(I128(m.value), U32(scale.value), scale.rest);
    Assoc([TAG_NUMBER, NUMBER_DECIMAL], I128(m.value), U32(scale.value));
    TwoTags(TAG_NUMBER, NUMBER_DECIMAL, bs, I128(m.value) + U32(scale.value), scale.rest);
  }

  lemma NumberWrites(bs: Str)
    requires ReadNumber(bs).Parsed?
    ensures var p := ReadNumber(bs);
            Accepted(p.value) && Holdable(p.value) && [TAG_NUMBER] + bs == ValueBytes(p.value) + p.rest
  {
    hide Accepted, Holdable, ValueBytes, ReadI64, ReadU64, ReadI128, ReadU32;
    var r := bs[1..];
    assert bs == [bs[0]] + r;
    if bs[0] == NUMBER_INTEGER {
      IntegerWrites(r);
    } else if bs[0] == NUMBER_FLOAT {
      FloatWrites(r);
    } else {
      DecimalWrites(r);
    }
  }

  lemma StringWrites(bs: Str)
    requires ReadLengthed(bs).Parsed?
    ensures var t, rest := ReadLengthed(bs).value, ReadLengthed(bs).rest;
            && Accepted(Bytes(t)) && Holdable(Bytes(t)) && [TAG_BYTES] + bs == ValueBytes(Bytes(t)) + rest
            && (Utf8.Valid(t) ==>
                  && Accepted(Text(t)) && Holdable(Text(t)) && [TAG_TEXT] + bs == ValueBytes(Text(t)) + rest
                  && Accepted(Regex(t)) && Holdable(Regex(t)) && [TAG_REGEX] + bs == ValueBytes(Regex(t)) + rest)
  {
    hide ReadLengthed, Lengthed, Utf8.Valid;
    LengthedWrites(bs);
    var t, rest := ReadLengthed(bs).value, ReadLengthed(bs).rest;
    Assoc([TAG_BYTES], Lengthed(t), rest);
    Assoc([TAG_TEXT], Lengthed(t), rest);
    Assoc([TAG_REGEX], Lengthed(t), rest);
  }

  lemma ShortWrites(bs: Str)
    ensures Accepted(None) && Holdable(None) && [TAG_NONE] + bs == ValueBytes(None) + bs
    ensures Accepted(Null) && Holdable(Null) && [TAG_NULL] + bs == ValueBytes(Null) + bs
    ensures |bs| >= 1 ==>
              var b := Bool(bs[0] != 0);
              Accepted(b) && Holdable(b) && Tight([TAG_BOOL] + bs, ValueBytes(b), bs[1..], bs[0] <= 1)
    ensures |bs| >= 16 ==>
              var u := Uuid(bs[..16]); Accepted(u) && Holdable(u) && [TAG_UUID] + bs == ValueBytes(u) + bs[16..]
  {
    if |bs| >= 1 { assert bs == [bs[0]] + bs[1..]; }
    if |bs| >= 16 {
      assert bs == bs[..16] + bs[16..];
      Assoc([TAG_UUID], bs[..16], bs[16..]);
    }
  }

  lemma TimeWrites(bs: Str)
    requires ReadMoment(bs).Parsed?
    ensures var p := ReadMoment(bs); var d, t := Duration(p.value.0, p.value.1), Datetime(p.value.0, p.value.1);
            && Accepted(d) && Holdable(d) && [TAG_DURATION] + bs == ValueBytes(d) + p.rest
            && Accepted(t) && Holdable(t) && [TAG_DATETIME] + bs == ValueBytes(t) + p.rest
  {
    hide ReadMoment, Moment;
    MomentWrites(bs);
    var p := ReadMoment(bs);
    Assoc([TAG_DURATION], Moment(p.value.0, p.value.1), p.rest);
    Assoc([TAG_DATETIME], Moment(p.value.0, p.value.1), p.rest);
  }

  lemma TableWrites(bs: Str)
    requires ReadU32(bs).Parsed?
    ensures var p := ReadU32(bs); var t := Table(p.value);
            Accepted(t) && Holdable(t) && [TAG_TABLE] + bs == ValueBytes(t) + p.rest
  {
    hide ReadU32, U32;
    U32Writes(bs);
    Assoc([TAG_TABLE], U32(ReadU32(bs).value), ReadU32(bs).rest);
  }

  lemma RecordWrites(bs: Str)
    requires ReadU32(bs).Parsed? && ReadId(ReadU32(bs).rest).Parsed?
    ensures var p := ReadId(ReadU32(bs).rest); var t := Record(ReadU32(bs).value, p.value);
            Accepted(t) && Holdable(t) && [TAG_RECORD] + bs == ValueBytes(t) + p.rest
  {
    hide ReadU32, U32, ReadId, IdBytes;
    var table, id := ReadU32(bs), ReadId(ReadU32(bs).rest);
    U32Writes(bs);
    IdWrites(table.rest);
    Assoc(U32(table.value), IdBytes(id.value), id.rest);
    Assoc([TAG_RECORD], U32(table.value), IdBytes(id.value));
    Assoc([TAG_RECORD], U32(table.value) + IdBytes(id.value), id.rest);
  }

  /** A tag in front of what is tight is tight. */
  lemma TaggedTight(tag: Byte, bs: Str, written: Str, rest: Str, canonical: bool)
    requires Tight(bs, written, rest, canonical)
    ensures Tight([tag] + bs, [tag] + written, rest, canonical)
  {
    if canonical { Assoc([tag], written, rest); }
  }

  lemma GeometryWrites(bs: Str)
    requires ReadShape(bs).Parsed?
    ensures var p := ReadShape(bs); var g := Geometry(p.value);
            Accepted(g) && Holdable(g) && Tight([TAG_GEOMETRY] + bs, ValueBytes(g), p.rest, p.canonical)
  {
    hide ReadShape, ShapeBytes, AcceptedShape, HoldableShape, Tight;
    var p := ReadShape(bs);
    ShapeWrites(bs);
    TaggedTight(TAG_GEOMETRY, bs, ShapeBytes(p.value), p.rest, p.canonical);
  }

  lemma FlatWrites(tag: Byte, bs: Str)
    requires ReadFlat(tag, bs).Parsed?
    ensures var p := ReadFlat(tag, bs);
            Accepted(p.value) && Holdable(p.value) && Tight([tag] + bs, ValueBytes(p.value), p.rest, p.canonical)
  {
    hide Accepted, Holdable, ValueBytes, ReadLengthed, ReadMoment, ReadU32, ReadId, ReadShape, ReadNumber, Utf8.Valid;
    ShortWrites(bs);
    if tag == TAG_NUMBER {
      NumberWrites(bs);
    } else if tag == TAG_TEXT || tag == TAG_BYTES || tag == TAG_REGEX {
      StringWrites(bs);
    } else if tag == TAG_DURATION || tag == TAG_DATETIME {
      TimeWrites(bs);
    } else if tag == TAG_TABLE {
      TableWrites(bs);
    } else if tag == TAG_RECORD {
      RecordWrites(bs);
    } else if tag == TAG_GEOMETRY {
      GeometryWrites(bs);
    }
  }

  // ---------- objects: from the fields in the order met to the fields in name order ----------

  lemma {:induction false} FieldsAppend(a: seq<Str>, b: seq<Str>, v: Value)
    requires v.Object? && forall n :: n in a + b ==> n in v.fields
    ensures FieldsBytes(a + b, v) == FieldsBytes(a, v) + FieldsBytes(b, v)
  {
    hide ValueBytes, Lengthed;
    assert forall n :: n in a ==> n in a + b;
    assert forall n :: n in b ==> n in a + b;
    if a == [] {
      assert a + b == b;
    } else {
      FieldsAppend(a[1..], b, v);
      assert (a + b)[1..] == a[1..] + b;
    }
  }

  lemma {:induction false} FieldsAgree(names: seq<Str>, v: Value, w: Value)
    requires v.Object? && w.Object?
    requires forall n :: n in names ==> n in v.fields && n in w.fields && v.fields[n] == w.fields[n]
    ensures FieldsBytes(names, v) == FieldsBytes(names, w)
  {
    hide ValueBytes, Lengthed;
    if names != [] { FieldsAgree(names[1..], v, w); }
  }

  ghost function FieldBytes(name: Str, value: Value): Str {
    Lengthed(name) + ValueBytes(value)
  }

  lemma FieldsCons(name: Str, names: seq<Str>, v: Value)
    requires v.Object? && name in v.fields && forall n :: n in names ==> n in v.fields
    ensures FieldsBytes([name] + names, v) == FieldBytes(name, v.fields[name]) + FieldsBytes(names, v)
  {
    hide ValueBytes, Lengthed;
    assert ([name] + names)[1..] == names;
  }

  lemma NoFields(v: Value)
    requires v.Object?
    ensures FieldsBytes([], v) == []
  {}

  ghost function InOrder(fields: map<Str, Value>): Str {
    FieldsBytes(Sorted(fields.Keys), Object(fields))
  }

  /** One name's share of an object's length does not depend on where it sorts. */
  lemma FieldsSplit(fields: map<Str, Value>, name: Str)
    requires name in fields
    ensures |InOrder(fields)|
         == |FieldsBytes(Sorted(fields.Keys - {name}), Object(fields))| + |FieldBytes(name, fields[name])|
  {
    hide FieldBytes, FieldsBytes, Less, Sorted;
    var v, names := Object(fields), Sorted(fields.Keys);
    var i :| 0 <= i < |names| && names[i] == name;
    var a, b := names[..i], names[i + 1..];
    SortedWithout(names, i, fields.Keys);
    FieldsAppend(a, [name] + b, v);
    FieldsAppend(a, b, v);
    FieldsCons(name, b, v);
    assert names == a + ([name] + b);
  }

  lemma SortedWithout(names: seq<Str>, i: nat, keys: set<Str>)
    requires names == Sorted(keys) && i < |names|
    ensures names[..i] + names[i + 1..] == Sorted(keys - {names[i]})
    ensures forall n :: n in names[..i] + names[i + 1..] ==> n in keys
  {
    hide Sorted;
    var rest := names[..i] + names[i + 1..];
    forall p, q | 0 <= p < q < |rest| ensures Less(rest[p], rest[q]) {
      assert rest[p] == names[if p < i then p else p + 1] && rest[q] == names[if q < i then q else q + 1];
    }
    forall n ensures n in rest <==> n in keys - {names[i]} {
      if n in rest {
        var p :| 0 <= p < |rest| && rest[p] == n;
        assert n == names[if p < i then p else p + 1];
        LessIsTotal(n, n);
      }
      if n in keys && n != names[i] {
        assert n in names;
        var p :| 0 <= p < |names| && names[p] == n;
        assert rest[if p < i then p else p - 1] == n;
      }
    }
    SortedIsUnique(rest, keys - {names[i]});
  }

  /** Putting a field in lengthens an object by at most that field. */
  lemma FieldFits(before: map<Str, Value>, name: Str, value: Value)
    ensures |InOrder(before[name := value])| <= |InOrder(before)| + |FieldBytes(name, value)|
  {
    hide FieldBytes, FieldsBytes, Less, Sorted;
    var after := before[name := value];
    assert after.Keys - {name} == before.Keys - {name};
    FieldsSplit(after, name);
    FieldsAgree(Sorted(before.Keys - {name}), Object(before), Object(after));
    if name in before {
      FieldsSplit(before, name);
    } else {
      assert before.Keys - {name} == before.Keys;
    }
  }

  /** A field above all others goes last. */
  lemma FieldGoesLast(before: map<Str, Value>, name: Str, value: Value)
    requires forall k :: k in before ==> Less(k, name)
    ensures InOrder(before[name := value]) == InOrder(before) + FieldBytes(name, value) && name !in before
  {
    hide FieldBytes, FieldsBytes, Less, Sorted;
    var after, names := before[name := value], Sorted(before.Keys);
    LessIsTotal(name, name);
    assert Ascending(names + [name]);
    SortedIsUnique(names + [name], after.Keys);
    FieldsAppend(names, [name], Object(after));
    FieldsAgree(names, Object(before), Object(after));
    FieldsCons(name, [], Object(after));
    assert [name] + [] == [name];
    NoFields(Object(after));
  }

  // ---------- values ----------

  lemma {:induction false} ValueWrites(bs: Str)
    requires ReadValue(bs).Parsed?
    ensures var p := ReadValue(bs);
            Accepted(p.value) && Holdable(p.value) && Tight(bs, ValueBytes(p.value), p.rest, p.canonical)
    decreases |bs|, 0
  {
    hide Accepted, Holdable, ValueBytes, Tight, ReadCountedItems, ReadFields, ReadBound, ReadFlat, ReadU32, InOrder,
      GoodField;
    var tag, r := bs[0], bs[1..];
    assert bs == [tag] + r;
    if tag == TAG_ARRAY || tag == TAG_SET {
      CountedItemsWrite(r);
      ListWrites(r);
    } else if tag == TAG_OBJECT {
      FieldsWrite(ReadU32(r).rest, ReadU32(r).value, map[]);
      ObjectWrites(r);
    } else if tag == TAG_RANGE {
      BoundWrites(r);
      BoundWrites(ReadBound(r).rest);
      RangeWrites(r);
    } else {
      FlatWrites(tag, r);
    }
  }

  lemma ListWrites(bs: Str)
    requires ReadCountedItems(bs).Parsed?
    requires var p := ReadCountedItems(bs);
             && Tight(bs, U32(|p.value|) + ItemsBytes(p.value), p.rest, p.canonical)
             && forall i :: 0 <= i < |p.value| ==> Accepted(p.value[i]) && Holdable(p.value[i])
    ensures var p := ReadCountedItems(bs); var a, t := Array(p.value), Set(p.value);
            && Accepted(a) && Holdable(a) && Tight([TAG_ARRAY] + bs, ValueBytes(a), p.rest, p.canonical)
            && Accepted(t) && Holdable(t) && Tight([TAG_SET] + bs, ValueBytes(t), p.rest, p.canonical)
  {
    hide ReadCountedItems, U32, ItemsBytes, Tight;
    var p := ReadCountedItems(bs);
    TaggedTight(TAG_ARRAY, bs, U32(|p.value|) + ItemsBytes(p.value), p.rest, p.canonical);
    TaggedTight(TAG_SET, bs, U32(|p.value|) + ItemsBytes(p.value), p.rest, p.canonical);
    Assoc([TAG_ARRAY], U32(|p.value|), ItemsBytes(p.value));
    Assoc([TAG_SET], U32(|p.value|), ItemsBytes(p.value));
  }

  lemma TightTwice(bs: Str, a: Str, r: Str, b: Str, rest: Str, first: bool, second: bool)
    requires Tight(bs, a, r, first) && Tight(r, b, rest, second)
    ensures Tight(bs, a + b, rest, first && second)
  {
    if first && second { Assoc(a, b, rest); }
  }

  lemma RangeWrites(bs: Str)
    requires ReadBound(bs).Parsed? && ReadBound(ReadBound(bs).rest).Parsed?
    requires var a := ReadBound(bs);
             AcceptedBound(a.value) && HoldableBound(a.value) && Tight(bs, BoundBytes(a.value), a.rest, a.canonical)
    requires var a, b := ReadBound(bs), ReadBound(ReadBound(bs).rest);
             AcceptedBound(b.value) && HoldableBound(b.value) && Tight(a.rest, BoundBytes(b.value), b.rest, b.canonical)
    ensures var a, b := ReadBound(bs), ReadBound(ReadBound(bs).rest); var v := Range(a.value, b.value);
            Accepted(v) && Holdable(v) && Tight([TAG_RANGE] + bs, ValueBytes(v), b.rest, a.canonical && b.canonical)
  {
    hide ReadBound, BoundBytes, AcceptedBound, HoldableBound, Tight;
    var a, b := ReadBound(bs), ReadBound(ReadBound(bs).rest);
    TightTwice(bs, BoundBytes(a.value), a.rest, BoundBytes(b.value), b.rest, a.canonical, b.canonical);
    TaggedTight(TAG_RANGE, bs, BoundBytes(a.value) + BoundBytes(b.value), b.rest, a.canonical && b.canonical);
    Assoc([TAG_RANGE], BoundBytes(a.value), BoundBytes(b.value));
  }

  lemma {:induction false} CountedItemsWrite(bs: Str)
    requires ReadCountedItems(bs).Parsed?
    ensures var p := ReadCountedItems(bs);
            && Tight(bs, U32(|p.value|) + ItemsBytes(p.value), p.rest, p.canonical)
            && forall i :: 0 <= i < |p.value| ==> Accepted(p.value[i]) && Holdable(p.value[i])
    decreases |bs|, 0
  {
    hide ReadItems, ItemsBytes, U32, Accepted, Holdable;
    U32Writes(bs);
    ItemsWrite(ReadU32(bs).rest, ReadU32(bs).value);
  }

  lemma {:induction false} ItemsWrite(bs: Str, count: nat)
    requires ReadItems(bs, count).Parsed?
    ensures var p := ReadItems(bs, count);
            && Tight(bs, ItemsBytes(p.value), p.rest, p.canonical)
            && forall i :: 0 <= i < |p.value| ==> Accepted(p.value[i]) && Holdable(p.value[i])
    decreases |bs|, 1, count
  {
    hide ReadValue, ValueBytes, Accepted, Holdable;
    if count > 0 {
      ValueWrites(bs);
      var p := ReadValue(bs);
      ItemsWrite(p.rest, count - 1);
      assert ReadItems(bs, count).value[1..] == ReadItems(p.rest, count - 1).value;
    }
  }

  ghost predicate GoodField(name: Str, value: Value) {
    |name| < TWO_32 && Utf8.Valid(name) && Accepted(value) && Holdable(value)
  }

  lemma {:induction false} FieldsWrite(bs: Str, count: nat, before: map<Str, Value>)
    requires ReadFields(bs, count, before).Parsed?
    requires forall k :: k in before ==> GoodField(k, before[k])
    ensures var p := ReadFields(bs, count, before);
            && (forall k :: k in p.value ==> GoodField(k, p.value[k]))
            && |p.value| <= |before| + count
            && |InOrder(p.value)| + |p.rest| <= |bs| + |InOrder(before)|
            && (p.canonical ==> |p.value| == |before| + count && InOrder(before) + bs == InOrder(p.value) + p.rest)
    decreases |bs|, 1, count
  {
    hide ReadValue, ReadText, InOrder, FieldBytes, GoodField, Less;
    if count > 0 {
      var name, r := ReadText(bs).value, ReadText(bs).rest;
      var value, r' := ReadValue(r).value, ReadValue(r).rest;
      var after := before[name := value];
      ValueWrites(r);
      FieldWrites(bs);
      assert forall k :: k in after ==> GoodField(k, after[k]);
      FieldsWrite(r', count - 1, after);
      FieldFits(before, name, value);
      if ReadFields(bs, count, before).canonical {
        FieldGoesLast(before, name, value);
        assert InOrder(after) + r' == InOrder(before) + (FieldBytes(name, value) + r');
      }
    }
  }

  lemma FieldWrites(bs: Str)
    requires ReadText(bs).Parsed? && ReadValue(ReadText(bs).rest).Parsed?
    requires var p := ReadValue(ReadText(bs).rest);
             && Accepted(p.value) && Holdable(p.value)
             && Tight(ReadText(bs).rest, ValueBytes(p.value), p.rest, p.canonical)
    ensures var name, p := ReadText(bs).value, ReadValue(ReadText(bs).rest);
            GoodField(name, p.value) && Tight(bs, FieldBytes(name, p.value), p.rest, p.canonical)
  {
    hide ReadValue, ValueBytes, Lengthed, ReadLengthed, Utf8.Valid;
    LengthedWrites(bs);
  }

  lemma ObjectWrites(bs: Str)
    requires ReadU32(bs).Parsed?
    requires ReadFields(ReadU32(bs).rest, ReadU32(bs).value, map[]).Parsed?
    requires var n, p := ReadU32(bs).value, ReadFields(ReadU32(bs).rest, ReadU32(bs).value, map[]);
             && (forall k :: k in p.value ==> GoodField(k, p.value[k]))
             && |p.value| <= n
             && |InOrder(p.value)| + |p.rest| <= |ReadU32(bs).rest| + |InOrder(map[])|
             && (p.canonical ==> |p.value| == n && InOrder(map[]) + ReadU32(bs).rest == InOrder(p.value) + p.rest)
    ensures var p := ReadFields(ReadU32(bs).rest, ReadU32(bs).value, map[]);
            && Accepted(Object(p.value)) && Holdable(Object(p.value))
            && Tight([TAG_OBJECT] + bs, ValueBytes(Object(p.value)), p.rest, p.canonical)
  {
    hide ReadFields, U32, ReadU32, InOrder, ValueBytes, Accepted, Holdable, GoodField, Tight;
    var n, r := ReadU32(bs).value, ReadU32(bs).rest;
    var p := ReadFields(r, n, map[]);
    U32Writes(bs);
    NothingInOrder();
    assert [] + r == r;
    CountedTight(bs, n, r, |p.value|, InOrder(p.value), p.rest, p.canonical);
    TaggedTight(TAG_OBJECT, bs, U32(|p.value|) + InOrder(p.value), p.rest, p.canonical);
    Assoc([TAG_OBJECT], U32(|p.value|), InOrder(p.value));
    ObjectBytes(p.value);
    GoodFieldsMakeObject(p.value);
  }

  /** A count in front, no larger than the one that was read. */
  lemma CountedTight(bs: Str, n: nat, r: Str, count: nat, written: Str, rest: Str, canonical: bool)
    requires bs == U32(n) + r && |written| + |rest| <= |r| && (canonical ==> count == n && r == written + rest)
    ensures Tight(bs, U32(count) + written, rest, canonical)
  {
    hide U32;
    if canonical { Assoc(U32(n), written, rest); }
  }

  lemma GoodFieldsMakeObject(fields: map<Str, Value>)
    requires |fields| < TWO_32 && forall k :: k in fields ==> GoodField(k, fields[k])
    ensures Accepted(Object(fields)) && Holdable(Object(fields))
  {
    hide Utf8.Valid;
    assert forall k :: k in fields && GoodField(k, fields[k]) ==> Accepted(fields[k]) && Holdable(fields[k]);
  }

  lemma ObjectBytes(fields: map<Str, Value>)
    ensures ValueBytes(Object(fields)) == [TAG_OBJECT] + U32(|fields|) + InOrder(fields)
  {}

  lemma NothingInOrder()
    ensures InOrder(map[]) == []
  {
    var none: map<Str, Value> := map[];
    assert none.Keys == {};
  }

  lemma {:induction false} BoundWrites(bs: Str)
    requires ReadBound(bs).Parsed?
    ensures var p := ReadBound(bs);
            && AcceptedBound(p.value) && HoldableBound(p.value)
            && Tight(bs, BoundBytes(p.value), p.rest, p.canonical)
    decreases |bs|, 0
  {
    hide ReadValue, ValueBytes, Accepted, Holdable;
    assert bs == [bs[0]] + bs[1..];
    if !ReadBound(bs).value.Unbounded? { ValueWrites(bs[1..]); }
  }

  // ---------- the theorems ----------

  /** Decode undoes Encode exactly for the values the wire can hold. */
  lemma DecodeInvertsEncode(v: Value)
    requires Accepted(v)
    ensures Decoded(ValueBytes(v)) == Some(v) <==> Holdable(v)
  {
    hide ReadValue, ValueBytes, Accepted, Holdable;
    if Holdable(v) {
      ValueReads(v, []);
      assert ValueBytes(v) + [] == ValueBytes(v);
    } else if Decoded(ValueBytes(v)) == Some(v) {
      ValueWrites(ValueBytes(v));
    }
  }

  /** No encoding is a proper prefix of another, and one encoding is one value. */
  lemma EncodingsArePrefixFree(v: Value, w: Value, s: Str, t: Str)
    requires Accepted(v) && Holdable(v) && Accepted(w) && Holdable(w)
    requires ValueBytes(v) + s == ValueBytes(w) + t
    ensures v == w && s == t
  {
    hide ReadValue, ValueBytes, Accepted, Holdable;
    ValueReads(v, s);
    ValueReads(w, t);
  }

  /**
   Whatever bytes decode, their value can be written again: in no more room, to bytes that decode to
   the same value, and to the same bytes exactly when the ones read were canonical.
   */
  lemma DecodedIsWritable(bs: Str)
    requires Decoded(bs).Some?
    ensures var v := Decoded(bs).value;
            && Accepted(v) && Holdable(v)
            && |ValueBytes(v)| <= |bs|
            && Decoded(ValueBytes(v)) == Some(v)
            && (ValueBytes(v) == bs <==> ReadValue(bs).canonical)
  {
    hide ReadValue, ValueBytes, Accepted, Holdable;
    var v := Decoded(bs).value;
    ValueWrites(bs);
    DecodeInvertsEncode(v);
    ValueReads(v, []);
    assert ValueBytes(v) + [] == ValueBytes(v);
  }
}
