/** Writing values as the client does it: one growing buffer (bytes.go, encode.go), proved against the encoding. */
module Writing {
  import opened Words
  import opened Values
  import opened Encoding

  class Writer {
    var buf: Str

    constructor ()
      ensures buf == []
    {
      buf := [];
    }

    method U8(b: Byte)
      modifies this
      ensures buf == old(buf) + [b]
    {
      buf := buf + [b];
    }

    method Fixed(b: Str)
      modifies this
      ensures buf == old(buf) + b
    {
      buf := buf + b;
    }

    /** The value's low 32 bits, high byte first. */
    method PutU32(n: nat)
      modifies this
      ensures buf == old(buf) + U32(n)
    {
      buf := buf + BigEndian(n % TWO_32, 4);
    }

    method PutU64(n: UInt64)
      modifies this
      ensures buf == old(buf) + U64(n)
    {
      buf := buf + BigEndian(n, 8);
    }

    method PutI64(n: Int64)
      modifies this
      ensures buf == old(buf) + I64(n)
    {
      var b := BigEndian(Unsigned64(n), 8);
      buf := buf + [FlipTop(b[0])] + b[1..];
    }

    /** False when the magnitude needs more than sixteen bytes, where FillBytes panics. */
    method PutI128(n: int) returns (ok: bool)
      modifies this
      ensures ok <==> Magnitude128(n) < TWO_128
      ensures buf == old(buf) + if ok then I128(n) else []
    {
      var v := n;
      if v < 0 { v := v + TWO_128; }
      var magnitude := if v < 0 then -v else v;
      ok := magnitude < TWO_128;
      if ok { buf := buf + BigEndian(magnitude, 16); }
    }

    method PutLengthed(b: Str)
      modifies this
      ensures buf == old(buf) + Lengthed(b)
    {
      PutU32(|b|);
      Fixed(b);
    }

    method PutVarbytes(b: Str)
      modifies this
      ensures buf == old(buf) + Varbytes(b)
    {
      var i := 0;
      while i < |b|
        invariant 0 <= i <= |b|
        invariant buf + Escaped(b[i..]) == old(buf) + Escaped(b)
      {
        ghost var was := buf;
        U8(b[i]);
        if b[i] == 0x00 { U8(0xff); }
        assert Escaped(b[i..]) == buf[|was|..] + Escaped(b[i..][1..]);
        assert b[i..][1..] == b[i + 1..];
        i := i + 1;
      }
      assert buf == old(buf) + Escaped(b);
      U8(0x00);
      U8(0x01);
    }
  }

  // ---------- encode.go ----------

  /** Encode: the bytes of an accepted value, and an error for any other. */
  method Encode(v: Value) returns (encoded: Option<Str>)
    ensures encoded.Some? <==> Accepted(v)
    ensures encoded.Some? ==> encoded.value == ValueBytes(v)
  {
    var w := new Writer();
    var ok := WriteValue(w, v);
    assert [] + ValueBytes(v) == ValueBytes(v);
    encoded := if ok then Some(w.buf) else Nothing;
  }

  method WriteValue(w: Writer, v: Value) returns (ok: bool)
    modifies w
    ensures ok <==> Accepted(v)
    ensures ok ==> w.buf == old(w.buf) + ValueBytes(v)
    decreases v
  {
    hide U32, ItemsBytes, FieldsBytes, BoundBytes, Sorted, AcceptedBound, Accepted, ValueBytes;
    if !v.Array? && !v.Set? && !v.Object? && !v.Range? { ok := WriteFlat(w, v); return; }
    ghost var was := w.buf;
    HoldersAre(v);
    match v
    case Array(items) =>
      w.U8(TAG_ARRAY);
      ok := WriteItems(w, items);
      Assoc(was, [TAG_ARRAY], U32(|items|));
      Assoc(was, [TAG_ARRAY] + U32(|items|), ItemsBytes(items));
    case Set(items) =>
      w.U8(TAG_SET);
      ok := WriteItems(w, items);
      Assoc(was, [TAG_SET], U32(|items|));
      Assoc(was, [TAG_SET] + U32(|items|), ItemsBytes(items));
    case Object(fields) =>
      w.U8(TAG_OBJECT);
      w.PutU32(|fields|);
      ok := WriteFields(w, v);
      Assoc(was, [TAG_OBJECT], U32(|fields|));
      Assoc(was, [TAG_OBJECT] + U32(|fields|), FieldsBytes(Sorted(fields.Keys), v));
    case Range(a, b) =>
      w.U8(TAG_RANGE);
      ok := WriteBound(w, a);
      if ok { ok := WriteBound(w, b); }
      Assoc(was, [TAG_RANGE], BoundBytes(a));
      Assoc(was, [TAG_RANGE] + BoundBytes(a), BoundBytes(b));
    case _ => assert false;
  }

  lemma HoldersAre(v: Value)
    requires v.Array? || v.Set? || v.Object? || v.Range?
    ensures v.Array? || v.Set? ==>
              && ValueBytes(v) == [if v.Array? then TAG_ARRAY else TAG_SET] + U32(|v.items|) + ItemsBytes(v.items)
              && (Accepted(v) <==> forall i :: 0 <= i < |v.items| ==> Accepted(v.items[i]))
    ensures v.Object? ==>
              && ValueBytes(v) == [TAG_OBJECT] + U32(|v.fields|) + FieldsBytes(Sorted(v.fields.Keys), v)
              && (Accepted(v) <==> forall k :: k in v.fields ==> Accepted(v.fields[k]))
    ensures v.Range? ==>
              && ValueBytes(v) == [TAG_RANGE] + BoundBytes(v.start) + BoundBytes(v.end)
              && (Accepted(v) <==> AcceptedBound(v.start) && AcceptedBound(v.end))
  {
    hide U32, ItemsBytes, FieldsBytes, BoundBytes, Sorted, AcceptedBound;
  }

  /** The value types that hold no other value. */
  method WriteFlat(w: Writer, v: Value) returns (ok: bool)
    requires !v.Array? && !v.Set? && !v.Object? && !v.Range?
    modifies w
    ensures ok <==> Accepted(v)
    ensures ok ==> w.buf == old(w.buf) + ValueBytes(v)
  {
    hide U32, Moment, IdBytes, ShapeBytes, AcceptedShape, ItemsBytes, FieldsBytes, BoundBytes, AcceptedBound, Lengthed,
      I64, I128, Sorted;
    if v.Integer? || v.Float? || v.Decimal? { ok := WriteNumber(w, v); return; }
    if v.Text? || v.Bytes? || v.Regex? { WriteString(w, v); return true; }
    ghost var was := w.buf;
    ok := true;
    match v
    case NoValue => ok := false;
    case None => w.U8(TAG_NONE);
    case Null => w.U8(TAG_NULL);
    case Bool(b) =>
      w.U8(TAG_BOOL);
      w.U8(if b then 1 else 0);
      assert [TAG_BOOL] + [if b then 1 else 0] == [TAG_BOOL, if b then 1 else 0];
      Assoc(was, [TAG_BOOL], [if b then 1 else 0]);
    case Duration(s, n) =>
      w.U8(TAG_DURATION);
      ok := WriteMoment(w, s, n);
      Assoc(was, [TAG_DURATION], Moment(s, n));
    case Datetime(s, n) =>
      w.U8(TAG_DATETIME);
      ok := WriteMoment(w, s, n);
      Assoc(was, [TAG_DATETIME], Moment(s, n));
    case Uuid(u) =>
      w.U8(TAG_UUID);
      w.Fixed(u);
      Assoc(was, [TAG_UUID], u);
    case Table(id) =>
      w.U8(TAG_TABLE);
      w.PutU32(id);
      Assoc(was, [TAG_TABLE], U32(id));
    case Record(table, id) =>
      w.U8(TAG_RECORD);
      w.PutU32(table);
      ok := WriteId(w, id);
      Assoc(was, [TAG_RECORD], U32(table));
      Assoc(was, [TAG_RECORD] + U32(table), IdBytes(id));
    case Geometry(s) =>
      w.U8(TAG_GEOMETRY);
      ok := WriteShape(w, s);
      Assoc(was, [TAG_GEOMETRY], ShapeBytes(s));
    case _ => assert false;
  }

  method WriteString(w: Writer, v: Value)
    requires v.Text? || v.Bytes? || v.Regex?
    modifies w
    ensures w.buf == old(w.buf) + ValueBytes(v)
  {
    hide Lengthed;
    w.U8(if v.Text? then TAG_TEXT else if v.Bytes? then TAG_BYTES else TAG_REGEX);
    w.PutLengthed(if v.Text? then v.text else if v.Bytes? then v.bytes else v.pattern);
  }

  method WriteNumber(w: Writer, v: Value) returns (ok: bool)
    requires v.Integer? || v.Float? || v.Decimal?
    modifies w
    ensures ok <==> Accepted(v)
    ensures ok ==> w.buf == old(w.buf) + ValueBytes(v)
  {
    hide I64, U64, U32, I128, Magnitude128;
    ok := true;
    w.U8(TAG_NUMBER);
    match v
    case Integer(n) =>
      w.U8(NUMBER_INTEGER);
      w.PutI64(n);
    case Float(bits) =>
      w.U8(NUMBER_FLOAT);
      w.PutU64(bits);
    case Decimal(m, scale) =>
      w.U8(NUMBER_DECIMAL);
      if m.Nothing? { return false; }
      ok := w.PutI128(m.value);
      if ok { w.PutU32(scale); }
  }

  method WriteItems(w: Writer, items: seq<Value>) returns (ok: bool)
    modifies w
    ensures ok <==> forall i :: 0 <= i < |items| ==> Accepted(items[i])
    ensures ok ==> w.buf == old(w.buf) + U32(|items|) + ItemsBytes(items)
    decreases items
  {
    hide ValueBytes, U32, Accepted;
    w.PutU32(|items|);
    var i := 0;
    while i < |items|
      invariant 0 <= i <= |items|
      invariant forall j :: 0 <= j < i ==> Accepted(items[j])
      invariant w.buf + ItemsBytes(items[i..]) == old(w.buf) + U32(|items|) + ItemsBytes(items)
    {
      ok := WriteValue(w, items[i]);
      if !ok { return; }
      assert items[i..][1..] == items[i + 1..];
      i := i + 1;
    }
    ok := true;
  }

  /** The fields in ascending order of their names. */
  method WriteFields(w: Writer, v: Value) returns (ok: bool)
    requires v.Object?
    modifies w
    ensures ok <==> forall k :: k in v.fields ==> Accepted(v.fields[k])
    ensures ok ==> w.buf == old(w.buf) + FieldsBytes(Sorted(v.fields.Keys), v)
    decreases v, 0
  {
    hide ValueBytes, Accepted, Lengthed, Sorted, Ascending, FieldsBytes;
    var names := SortNames(v.fields.Keys);
    var i := 0;
    while i < |names|
      invariant 0 <= i <= |names|
      invariant forall j :: 0 <= j < i ==> Accepted(v.fields[names[j]])
      invariant w.buf + FieldsBytes(names[i..], v) == old(w.buf) + FieldsBytes(names, v)
    {
      assert names[i] in names;
      OneField(w.buf, names, i, v);
      w.PutLengthed(names[i]);
      ok := WriteValue(w, v.fields[names[i]]);
      if !ok { return; }
      i := i + 1;
    }
    NoMoreFields(names, v);
    assert w.buf + [] == w.buf;
    ok := true;
    forall k | k in v.fields ensures Accepted(v.fields[k]) {
      assert k in names;
    }
  }

  lemma OneField(was: Str, names: seq<Str>, i: nat, v: Value)
    requires v.Object? && i < |names| && forall n :: n in names ==> n in v.fields
    ensures was + FieldsBytes(names[i..], v)
         == was + Lengthed(names[i]) + ValueBytes(v.fields[names[i]]) + FieldsBytes(names[i + 1..], v)
  {
    hide Lengthed, ValueBytes;
    assert names[i..][1..] == names[i + 1..];
    Assoc(was, Lengthed(names[i]) + ValueBytes(v.fields[names[i]]), FieldsBytes(names[i + 1..], v));
    Assoc(was, Lengthed(names[i]), ValueBytes(v.fields[names[i]]));
  }

  lemma NoMoreFields(names: seq<Str>, v: Value)
    requires v.Object?
    ensures FieldsBytes(names[|names|..], v) == []
  {}

  method WriteMoment(w: Writer, seconds: Int64, nanos: UInt32) returns (ok: bool)
    modifies w
    ensures ok <==> nanos < NANOS_PER_SECOND
    ensures w.buf == old(w.buf) + if ok then Moment(seconds, nanos) else []
  {
    if nanos >= NANOS_PER_SECOND { return false; }
    w.PutI64(seconds);
    w.PutU32(nanos);
    ok := true;
  }

  method WriteId(w: Writer, id: RecordId) returns (ok: bool)
    modifies w
    ensures ok <==> !id.NoId?
    ensures w.buf == old(w.buf) + IdBytes(id)
  {
    hide I64, Varbytes;
    ghost var was := w.buf;
    ok := true;
    match id
    case NoId => ok := false;
    case IntegerId(n) =>
      w.U8(ID_INTEGER);
      w.PutI64(n);
      Assoc(was, [ID_INTEGER], I64(n));
    case TextId(t) =>
      w.U8(ID_TEXT);
      w.PutVarbytes(t);
      Assoc(was, [ID_TEXT], Varbytes(t));
    case UuidId(u) =>
      w.U8(ID_UUID);
      w.Fixed(u);
      Assoc(was, [ID_UUID], u);
    case BytesId(b) =>
      w.U8(ID_BYTES);
      w.PutVarbytes(b);
      Assoc(was, [ID_BYTES], Varbytes(b));
  }

  method WriteBound(w: Writer, b: Bound) returns (ok: bool)
    modifies w
    ensures ok <==> AcceptedBound(b)
    ensures ok ==> w.buf == old(w.buf) + BoundBytes(b)
    decreases b
  {
    hide ValueBytes, Accepted;
    ok := true;
    match b
    case NoBound => ok := false;
    case Unbounded => w.U8(BOUND_UNBOUNDED);
    case Included(v) =>
      w.U8(BOUND_INCLUDED);
      ok := WriteValue(w, v);
    case Excluded(v) =>
      w.U8(BOUND_EXCLUDED);
      ok := WriteValue(w, v);
  }

  method WritePosition(w: Writer, p: Position)
    modifies w
    ensures w.buf == old(w.buf) + PositionBytes(p)
  {
    w.PutU64(p.lon);
    w.PutU64(p.lat);
  }

  method WritePositions(w: Writer, ps: Ring)
    modifies w
    ensures w.buf == old(w.buf) + RingBytes(ps)
  {
    w.PutU32(|ps|);
    var i := 0;
    while i < |ps|
      invariant 0 <= i <= |ps|
      invariant w.buf + Many(ps[i..], PositionBytes) == old(w.buf) + RingBytes(ps)
    {
      WritePosition(w, ps[i]);
      assert ps[i..][1..] == ps[i + 1..];
      i := i + 1;
    }
  }

  method WriteRings(w: Writer, rings: seq<Ring>)
    modifies w
    ensures w.buf == old(w.buf) + Counted(rings, RingBytes)
  {
    hide RingBytes, U32;
    w.PutU32(|rings|);
    var i := 0;
    while i < |rings|
      invariant 0 <= i <= |rings|
      invariant w.buf + Many(rings[i..], RingBytes) == old(w.buf) + Counted(rings, RingBytes)
    {
      WritePositions(w, rings[i]);
      assert rings[i..][1..] == rings[i + 1..];
      i := i + 1;
    }
  }

  method WritePolygon(w: Writer, p: Polygon)
    modifies w
    ensures w.buf == old(w.buf) + PolygonBytes(p)
  {
    WritePositions(w, p.exterior);
    WriteRings(w, p.interiors);
  }

  method WriteShape(w: Writer, s: Shape) returns (ok: bool)
    modifies w
    ensures ok <==> AcceptedShape(s)
    ensures ok ==> w.buf == old(w.buf) + ShapeBytes(s)
    decreases s
  {
    hide RingBytes, PositionBytes, PolygonBytes, Counted, ShapesBytes, U32;
    ghost var was := w.buf;
    ok := true;
    match s
    case NoShape => ok := false;
    case Point(p) =>
      w.U8(SHAPE_POINT);
      WritePosition(w, p);
      Assoc(was, [SHAPE_POINT], PositionBytes(p));
    case Line(ps) =>
      w.U8(SHAPE_LINE);
      WritePositions(w, ps);
      Assoc(was, [SHAPE_LINE], RingBytes(ps));
    case PolygonShape(p) =>
      w.U8(SHAPE_POLYGON);
      WritePolygon(w, p);
      Assoc(was, [SHAPE_POLYGON], PolygonBytes(p));
    case MultiPoint(ps) =>
      w.U8(SHAPE_MULTI_POINT);
      WritePositions(w, ps);
      Assoc(was, [SHAPE_MULTI_POINT], RingBytes(ps));
    case MultiLine(ls) =>
      w.U8(SHAPE_MULTI_LINE);
      WriteRings(w, ls);
      Assoc(was, [SHAPE_MULTI_LINE], Counted(ls, RingBytes));
    case MultiPolygon(ps) =>
      w.U8(SHAPE_MULTI_POLYGON);
      WritePolygons(w, ps);
      Assoc(was, [SHAPE_MULTI_POLYGON], Counted(ps, PolygonBytes));
    case Collection(gs) =>
      w.U8(SHAPE_COLLECTION);
      ok := WriteShapes(w, gs);
      Assoc(was, [SHAPE_COLLECTION], U32(|gs|));
      Assoc(was, [SHAPE_COLLECTION] + U32(|gs|), ShapesBytes(gs));
  }

  method WritePolygons(w: Writer, ps: seq<Polygon>)
    modifies w
    ensures w.buf == old(w.buf) + Counted(ps, PolygonBytes)
  {
    hide PolygonBytes, U32;
    w.PutU32(|ps|);
    var i := 0;
    while i < |ps|
      invariant 0 <= i <= |ps|
      invariant w.buf + Many(ps[i..], PolygonBytes) == old(w.buf) + Counted(ps, PolygonBytes)
    {
      WritePolygon(w, ps[i]);
      assert ps[i..][1..] == ps[i + 1..];
      i := i + 1;
    }
  }

  method WriteShapes(w: Writer, gs: seq<Shape>) returns (ok: bool)
    modifies w
    ensures ok <==> forall i :: 0 <= i < |gs| ==> AcceptedShape(gs[i])
    ensures ok ==> w.buf == old(w.buf) + U32(|gs|) + ShapesBytes(gs)
    decreases gs
  {
    hide ShapeBytes, U32, AcceptedShape;
    w.PutU32(|gs|);
    var i := 0;
    while i < |gs|
      invariant 0 <= i <= |gs|
      invariant forall j :: 0 <= j < i ==> AcceptedShape(gs[j])
      invariant w.buf + ShapesBytes(gs[i..]) == old(w.buf) + U32(|gs|) + ShapesBytes(gs)
    {
      ok := WriteShape(w, gs[i]);
      if !ok { return; }
      assert gs[i..][1..] == gs[i + 1..];
      i := i + 1;
    }
    ok := true;
  }
}
