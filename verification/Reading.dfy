/**
 Reading values as the client does it: one cursor over a buffer (bytes.go, decode.go), proved against the readings.
 */
module Reading {
  import opened Words
  import opened Values
  import opened Encoding
  import opened Decoding
  import Utf8

  class Reader {
    const buf: Str
    var at: nat

    constructor (bs: Str)
      ensures buf == bs && at == 0
    {
      buf := bs;
      at := 0;
    }

    ghost predicate Valid()
      reads this
    {
      at <= |buf|
    }

    /** The bytes not read yet. */
    ghost function Rest(): Str
      requires Valid()
      reads this
    {
      buf[at..]
    }

    /** `got` is what p says, and the cursor stands where p leaves it. */
    ghost predicate Got<T(!new)>(p: Parsed<T>, got: Option<T>)
      reads this
    {
      && Valid()
      && (got.Some? <==> p.Parsed?)
      && (got.Some? ==> got.value == p.value && Rest() == p.rest)
    }

    function Remaining(): nat
      requires Valid()
      reads this
    {
      |buf| - at
    }

    method GetFixed(n: nat) returns (got: Option<Str>)
      requires Valid()
      modifies this`at
      ensures Got(ReadFixed(old(Rest()), n), got)
    {
      if Remaining() < n { return Nothing; }
      got := Some(buf[at..at + n]);
      assert got.value == Rest()[..n] && Rest()[n..] == buf[at + n..];
      at := at + n;
    }

    method GetU8() returns (got: Option<Byte>)
      requires Valid()
      modifies this`at
      ensures Got(ReadU8(old(Rest())), got)
    {
      if Remaining() < 1 { return Nothing; }
      got := Some(buf[at]);
      at := at + 1;
    }

    method GetU32() returns (got: Option<UInt32>)
      requires Valid()
      modifies this`at
      ensures Got(ReadU32(old(Rest())), got)
    {
      hide BigEndian, FromBigEndian, Pow256;
      if Remaining() < 4 { return Nothing; }
      var b := buf[at..at + 4];
      BigEndianWrites(b);
      Powers();
      got := Some(FromBigEndian(b));
      assert b == Rest()[..4];
      at := at + 4;
    }

    method GetU64() returns (got: Option<UInt64>)
      requires Valid()
      modifies this`at
      ensures Got(ReadU64(old(Rest())), got)
    {
      hide BigEndian, FromBigEndian, Pow256;
      if Remaining() < 8 { return Nothing; }
      var b := buf[at..at + 8];
      BigEndianWrites(b);
      Powers();
      got := Some(FromBigEndian(b));
      assert b == Rest()[..8];
      at := at + 8;
    }

    method GetI64() returns (got: Option<Int64>)
      requires Valid()
      modifies this`at
      ensures Got(ReadI64(old(Rest())), got)
    {
      hide BigEndian, FromBigEndian, Pow256;
      if Remaining() < 8 { return Nothing; }
      var b := [FlipTop(buf[at])] + buf[at + 1..at + 8];
      BigEndianWrites(b);
      Powers();
      got := Some(Signed64(FromBigEndian(b)));
      assert b == [FlipTop(Rest()[0])] + Rest()[1..8];
      at := at + 8;
    }

    method GetI128() returns (got: Option<int>)
      requires Valid()
      modifies this`at
      ensures Got(ReadI128(old(Rest())), got)
    {
      hide BigEndian, FromBigEndian, Pow256;
      if Remaining() < 16 { return Nothing; }
      var b := buf[at..at + 16];
      var v := FromBigEndian(b);
      assert b == Rest()[..16];
      got := Some(if b[0] >= 0x80 then v - TWO_128 else v);
      at := at + 16;
    }

    method GetLengthed() returns (got: Option<Str>)
      requires Valid()
      modifies this`at
      ensures Got(ReadLengthed(old(Rest())), got)
    {
      hide ReadU32;
      var n := GetU32();
      if n.Nothing? { return Nothing; }
      got := GetFixed(n.value);
    }

    method GetText() returns (got: Option<Str>)
      requires Valid()
      modifies this`at
      ensures Got(ReadText(old(Rest())), got)
    {
      hide ReadLengthed, Utf8.Valid;
      got := GetLengthed();
      if got.Some? && !Utf8.Valid(got.value) { got := Nothing; }
    }

    method GetVarbytes() returns (got: Option<Str>)
      requires Valid()
      modifies this`at
      ensures Got(ReadVarbytes(old(Rest())), got)
    {
      hide ReadVarbytes, Continues;
      var out: Str := [];
      ghost var goal := ReadVarbytes(old(Rest()));
      NothingYet(goal);
      while true
        invariant Valid()
        invariant Continues(goal, out, ReadVarbytes(Rest()))
        decreases Remaining()
      {
        ghost var rest := Rest();
        if Remaining() < 1 {
          StringEnds(goal, out, rest);
          return Nothing;
        }
        var b := buf[at];
        if b != 0x00 {
          ByteGoesOn(goal, out, rest);
          assert rest[1..] == buf[at + 1..];
          out := out + [b];
          at := at + 1;
        } else {
          if Remaining() >= 2 && buf[at + 1] == 0xff {
            ZeroGoesOn(goal, out, rest);
          } else {
            StringEnds(goal, out, rest);
          }
          if Remaining() < 2 { return Nothing; }
          var next := buf[at + 1];
          assert rest[2..] == buf[at + 2..];
          at := at + 2;
          if next == 0xff {
            out := out + [0x00];
          } else if next == 0x01 {
            return Some(out);
          } else {
            return Nothing;
          }
        }
      }
    }
  }

  /** Reading q after having read `before` is reading p. */
  ghost predicate Continues<T>(p: Parsed<seq<T>>, before: seq<T>, q: Parsed<seq<T>>) {
    (p.Parsed? <==> q.Parsed?) && (p.Parsed? ==> p.value == before + q.value && p.rest == q.rest)
  }

  lemma NothingYet<T>(goal: Parsed<seq<T>>)
    ensures Continues(goal, [], goal)
  {
    if goal.Parsed? { assert [] + goal.value == goal.value; }
  }

  lemma ByteGoesOn(goal: Parsed<Str>, out: Str, rest: Str)
    requires |rest| >= 1 && rest[0] != 0 && Continues(goal, out, ReadVarbytes(rest))
    ensures Continues(goal, out + [rest[0]], ReadVarbytes(rest[1..]))
  {
    var more := ReadVarbytes(rest[1..]);
    if more.Parsed? { Assoc(out, [rest[0]], more.value); }
  }

  lemma ZeroGoesOn(goal: Parsed<Str>, out: Str, rest: Str)
    requires |rest| >= 2 && rest[0] == 0 && rest[1] == 0xff && Continues(goal, out, ReadVarbytes(rest))
    ensures Continues(goal, out + [0], ReadVarbytes(rest[2..]))
  {
    var more := ReadVarbytes(rest[2..]);
    if more.Parsed? { Assoc(out, [0], more.value); }
  }

  lemma StringEnds(goal: Parsed<Str>, out: Str, rest: Str)
    requires |rest| == 0 || (rest[0] == 0 && (|rest| == 1 || rest[1] != 0xff))
    requires Continues(goal, out, ReadVarbytes(rest))
    ensures if |rest| >= 2 && rest[1] == 0x01 then goal.Parsed? && goal.value == out && goal.rest == rest[2..]
            else goal.Failed?
  {
    assert out + [] == out;
  }

  /** One part more of a list: all fails with it, or the reading goes on behind it. */
  lemma ManyGoesOn<T>(whole: Parsed<seq<T>>, before: seq<T>, bs: Str, n: nat, one: Str -> Parsed<T>)
    requires n > 0 && forall s :: one(s).Parsed? ==> |one(s).rest| <= |s|
    requires Continues(whole, before, ReadMany(bs, n, one))
    ensures one(bs).Failed? ==> whole.Failed?
    ensures one(bs).Parsed? ==> Continues(whole, before + [one(bs).value], ReadMany(one(bs).rest, n - 1, one))
  {
    if one(bs).Parsed? {
      var rest := ReadMany(one(bs).rest, n - 1, one);
      if rest.Parsed? { assert before + ([one(bs).value] + rest.value) == before + [one(bs).value] + rest.value; }
    }
  }

  lemma ManyEnds<T>(whole: Parsed<seq<T>>, before: seq<T>, bs: Str, one: Str -> Parsed<T>)
    requires forall s :: one(s).Parsed? ==> |one(s).rest| <= |s|
    requires Continues(whole, before, ReadMany(bs, 0, one))
    ensures whole.Parsed? && whole.value == before && whole.rest == bs
  {
    assert before + [] == before;
  }

  ghost predicate Alike<T>(p: Parsed<T>, q: Parsed<T>) {
    (p.Parsed? <==> q.Parsed?) && (p.Parsed? ==> p.value == q.value && p.rest == q.rest)
  }

  // ---------- decode.go ----------

  /** Decode: one value, with nothing after it. */
  method Decode(bs: Str) returns (v: Option<Value>)
    ensures v == Decoded(bs)
  {
    hide ReadValue;
    var r := new Reader(bs);
    assert r.Rest() == bs;
    v := GetValue(r);
    if v.Some? && r.Remaining() != 0 { v := Nothing; }
  }

  method GetValue(r: Reader) returns (got: Option<Value>)
    requires r.Valid()
    modifies r`at
    ensures r.Got(ReadValue(old(r.Rest())), got)
    decreases r.Remaining(), 0
  {
    hide ReadFlat, ReadCountedFields, ReadBound, ReadCountedItems;
    var tag := r.GetU8();
    if tag.Nothing? { return Nothing; }
    if tag.value == TAG_ARRAY {
      var items := GetItems(r);
      return if items.Some? then Some(Array(items.value)) else Nothing;
    }
    if tag.value == TAG_SET {
      var items := GetItems(r);
      return if items.Some? then Some(Set(items.value)) else Nothing;
    }
    if tag.value == TAG_OBJECT {
      var fields := GetFields(r);
      return if fields.Some? then Some(Object(fields.value)) else Nothing;
    }
    if tag.value == TAG_RANGE {
      var start := GetBound(r);
      if start.Nothing? { return Nothing; }
      var end := GetBound(r);
      return if end.Some? then Some(Range(start.value, end.value)) else Nothing;
    }
    got := GetFlat(r, tag.value);
  }

  method GetItems(r: Reader) returns (got: Option<seq<Value>>)
    requires r.Valid()
    modifies r`at
    ensures r.Got(ReadCountedItems(old(r.Rest())), got)
    decreases r.Remaining(), 0
  {
    hide ReadValue, ReadU32;
    var count := r.GetU32();
    if count.Nothing? { return Nothing; }
    ghost var whole := ReadItems(r.Rest(), count.value);
    var items: seq<Value> := [];
    var i := 0;
    while i < count.value
      invariant 0 <= i <= count.value && r.Valid() && r.Remaining() < old(r.Remaining())
      invariant Continues(whole, items, ReadItems(r.Rest(), count.value - i))
    {
      var item := GetValue(r);
      if item.Nothing? { return Nothing; }
      items := items + [item.value];
      i := i + 1;
    }
    assert items + [] == items;
    got := Some(items);
  }

  method GetFields(r: Reader) returns (got: Option<map<Str, Value>>)
    requires r.Valid()
    modifies r`at
    ensures r.Got(ReadCountedFields(old(r.Rest())), got)
    decreases r.Remaining(), 0
  {
    hide ReadValue, ReadU32, ReadText, Less;
    var count := r.GetU32();
    if count.Nothing? { return Nothing; }
    ghost var whole := ReadFields(r.Rest(), count.value, map[]);
    var fields: map<Str, Value> := map[];
    var i := 0;
    while i < count.value
      invariant 0 <= i <= count.value && r.Valid() && r.Remaining() < old(r.Remaining())
      invariant Alike(whole, ReadFields(r.Rest(), count.value - i, fields))
    {
      var name := r.GetText();
      if name.Nothing? { return Nothing; }
      var value := GetValue(r);
      if value.Nothing? { return Nothing; }
      fields := fields[name.value := value.value];
      i := i + 1;
    }
    got := Some(fields);
  }

  method GetBound(r: Reader) returns (got: Option<Bound>)
    requires r.Valid()
    modifies r`at
    ensures r.Got(ReadBound(old(r.Rest())), got)
    decreases r.Remaining(), 0
  {
    hide ReadValue;
    var tag := r.GetU8();
    if tag.Nothing? { return Nothing; }
    if tag.value == BOUND_UNBOUNDED { return Some(Unbounded); }
    if tag.value != BOUND_INCLUDED && tag.value != BOUND_EXCLUDED { return Nothing; }
    var v := GetValue(r);
    if v.Nothing? { return Nothing; }
    got := Some(if tag.value == BOUND_INCLUDED then Included(v.value) else Excluded(v.value));
  }

  /** The value types that hold no other value, after their tag. */
  method GetFlat(r: Reader, tag: Byte) returns (got: Option<Value>)
    requires r.Valid()
    modifies r`at
    ensures r.Got(ReadFlat(tag, old(r.Rest())), got)
  {
    hide ReadNumber, ReadText, ReadLengthed, ReadMoment, ReadU32, ReadId, ReadShape;
    got := Nothing;
    if tag == TAG_NONE {
      got := Some(None);
    } else if tag == TAG_NULL {
      got := Some(Null);
    } else if tag == TAG_BOOL {
      var b := r.GetU8();
      if b.Some? { got := Some(Bool(b.value != 0)); }
    } else if tag == TAG_NUMBER {
      got := GetNumber(r);
    } else if tag == TAG_TEXT || tag == TAG_REGEX {
      var t := r.GetText();
      if t.Some? { got := Some(if tag == TAG_TEXT then Text(t.value) else Regex(t.value)); }
    } else if tag == TAG_BYTES {
      var b := r.GetLengthed();
      if b.Some? { got := Some(Bytes(b.value)); }
    } else if tag == TAG_DURATION || tag == TAG_DATETIME {
      var m := GetMoment(r);
      if m.Some? {
        got := Some(if tag == TAG_DURATION then Duration(m.value.0, m.value.1) else Datetime(m.value.0, m.value.1));
      }
    } else if tag == TAG_UUID {
      var u := r.GetFixed(16);
      if u.Some? { got := Some(Uuid(u.value)); }
    } else if tag == TAG_TABLE {
      var id := r.GetU32();
      if id.Some? { got := Some(Table(id.value)); }
    } else if tag == TAG_RECORD {
      var table := r.GetU32();
      if table.Some? {
        var id := GetId(r);
        if id.Some? { got := Some(Record(table.value, id.value)); }
      }
    } else if tag == TAG_GEOMETRY {
      var s := GetShape(r);
      if s.Some? { got := Some(Geometry(s.value)); }
    }
  }

  method GetNumber(r: Reader) returns (got: Option<Value>)
    requires r.Valid()
    modifies r`at
    ensures r.Got(ReadNumber(old(r.Rest())), got)
  {
    hide ReadI64, ReadU64, ReadI128, ReadU32;
    got := Nothing;
    var kind := r.GetU8();
    if kind.Nothing? { return; }
    if kind.value == NUMBER_INTEGER {
      var n := r.GetI64();
      if n.Some? { got := Some(Integer(n.value)); }
    } else if kind.value == NUMBER_FLOAT {
      var bits := r.GetU64();
      if bits.Some? { got := Some(Float(bits.value)); }
    } else if kind.value == NUMBER_DECIMAL {
      var m := r.GetI128();
      if m.Nothing? { return; }
      var scale := r.GetU32();
      if scale.Some? { got := Some(Decimal(Some(m.value), scale.value)); }
    }
  }

  method GetMoment(r: Reader) returns (got: Option<(Int64, UInt32)>)
    requires r.Valid()
    modifies r`at
    ensures r.Got(ReadMoment(old(r.Rest())), got)
  {
    hide ReadI64, ReadU32;
    var seconds := r.GetI64();
    if seconds.Nothing? { return Nothing; }
    var nanos := r.GetU32();
    if nanos.Nothing? || nanos.value >= NANOS_PER_SECOND { return Nothing; }
    got := Some((seconds.value, nanos.value));
  }

  method GetId(r: Reader) returns (got: Option<RecordId>)
    requires r.Valid()
    modifies r`at
    ensures r.Got(ReadId(old(r.Rest())), got)
  {
    hide ReadI64, ReadVarbytes;
    got := Nothing;
    var tag := r.GetU8();
    if tag.Nothing? { return; }
    if tag.value == ID_INTEGER {
      var n := r.GetI64();
      if n.Some? { got := Some(IntegerId(n.value)); }
    } else if tag.value == ID_TEXT || tag.value == ID_BYTES {
      var b := r.GetVarbytes();
      if b.Some? { got := Some(if tag.value == ID_TEXT then TextId(b.value) else BytesId(b.value)); }
    } else if tag.value == ID_UUID {
      var u := r.GetFixed(16);
      if u.Some? { got := Some(UuidId(u.value)); }
    }
  }

  method GetPosition(r: Reader) returns (got: Option<Position>)
    requires r.Valid()
    modifies r`at
    ensures r.Got(ReadPosition(old(r.Rest())), got)
  {
    hide ReadU64;
    var lon := r.GetU64();
    if lon.Nothing? { return Nothing; }
    var lat := r.GetU64();
    if lat.Nothing? { return Nothing; }
    got := Some(Position(lon.value, lat.value));
  }

  method GetPositions(r: Reader) returns (got: Option<Ring>)
    requires r.Valid()
    modifies r`at
    ensures r.Got(ReadRing(old(r.Rest())), got)
  {
    hide ReadPosition, ReadU32, ReadMany;
    var count := r.GetU32();
    if count.Nothing? { return Nothing; }
    ghost var whole := ReadMany(r.Rest(), count.value, ReadPosition);
    var ps: Ring := [];
    var i := 0;
    while i < count.value
      invariant 0 <= i <= count.value && r.Valid()
      invariant Continues(whole, ps, ReadMany(r.Rest(), count.value - i, ReadPosition))
    {
      ManyGoesOn(whole, ps, r.Rest(), count.value - i, ReadPosition);
      var p := GetPosition(r);
      if p.Nothing? { return Nothing; }
      ps := ps + [p.value];
      i := i + 1;
    }
    ManyEnds(whole, ps, r.Rest(), ReadPosition);
    got := Some(ps);
  }

  method GetRings(r: Reader) returns (got: Option<seq<Ring>>)
    requires r.Valid()
    modifies r`at
    ensures r.Got(ReadCounted(old(r.Rest()), ReadRing), got)
  {
    hide ReadRing, ReadU32, ReadMany;
    var count := r.GetU32();
    if count.Nothing? { return Nothing; }
    ghost var whole := ReadMany(r.Rest(), count.value, ReadRing);
    var rings: seq<Ring> := [];
    var i := 0;
    while i < count.value
      invariant 0 <= i <= count.value && r.Valid()
      invariant Continues(whole, rings, ReadMany(r.Rest(), count.value - i, ReadRing))
    {
      ManyGoesOn(whole, rings, r.Rest(), count.value - i, ReadRing);
      var ring := GetPositions(r);
      if ring.Nothing? { return Nothing; }
      rings := rings + [ring.value];
      i := i + 1;
    }
    ManyEnds(whole, rings, r.Rest(), ReadRing);
    got := Some(rings);
  }

  method GetPolygon(r: Reader) returns (got: Option<Polygon>)
    requires r.Valid()
    modifies r`at
    ensures r.Got(ReadPolygon(old(r.Rest())), got)
  {
    hide ReadRing, ReadCounted;
    var exterior := GetPositions(r);
    if exterior.Nothing? { return Nothing; }
    var interiors := GetRings(r);
    if interiors.Nothing? { return Nothing; }
    got := Some(Polygon(exterior.value, interiors.value));
  }

  method GetPolygons(r: Reader) returns (got: Option<seq<Polygon>>)
    requires r.Valid()
    modifies r`at
    ensures r.Got(ReadCounted(old(r.Rest()), ReadPolygon), got)
  {
    hide ReadPolygon, ReadU32, ReadMany;
    var count := r.GetU32();
    if count.Nothing? { return Nothing; }
    ghost var whole := ReadMany(r.Rest(), count.value, ReadPolygon);
    var ps: seq<Polygon> := [];
    var i := 0;
    while i < count.value
      invariant 0 <= i <= count.value && r.Valid()
      invariant Continues(whole, ps, ReadMany(r.Rest(), count.value - i, ReadPolygon))
    {
      ManyGoesOn(whole, ps, r.Rest(), count.value - i, ReadPolygon);
      var p := GetPolygon(r);
      if p.Nothing? { return Nothing; }
      ps := ps + [p.value];
      i := i + 1;
    }
    ManyEnds(whole, ps, r.Rest(), ReadPolygon);
    got := Some(ps);
  }

  method GetShape(r: Reader) returns (got: Option<Shape>)
    requires r.Valid()
    modifies r`at
    ensures r.Got(ReadShape(old(r.Rest())), got)
    decreases r.Remaining(), 0
  {
    hide ReadPosition, ReadRing, ReadPolygon, ReadCounted, ReadShapes, ReadU32;
    got := Nothing;
    var kind := r.GetU8();
    if kind.Nothing? { return; }
    if kind.value == SHAPE_POINT {
      var p := GetPosition(r);
      if p.Some? { got := Some(Point(p.value)); }
    } else if kind.value == SHAPE_LINE || kind.value == SHAPE_MULTI_POINT {
      var ps := GetPositions(r);
      if ps.Some? { got := Some(if kind.value == SHAPE_LINE then Line(ps.value) else MultiPoint(ps.value)); }
    } else if kind.value == SHAPE_POLYGON {
      var p := GetPolygon(r);
      if p.Some? { got := Some(PolygonShape(p.value)); }
    } else if kind.value == SHAPE_MULTI_LINE {
      var ls := GetRings(r);
      if ls.Some? { got := Some(MultiLine(ls.value)); }
    } else if kind.value == SHAPE_MULTI_POLYGON {
      var ps := GetPolygons(r);
      if ps.Some? { got := Some(MultiPolygon(ps.value)); }
    } else if kind.value == SHAPE_COLLECTION {
      got := GetCollection(r);
    }
  }

  method GetCollection(r: Reader) returns (got: Option<Shape>)
    requires r.Valid()
    modifies r`at
    ensures r.Got(ReadCollection(old(r.Rest())), got)
    decreases r.Remaining(), 1
  {
    hide ReadShape, ReadU32;
    var count := r.GetU32();
    if count.Nothing? { return Nothing; }
    ghost var whole := ReadShapes(r.Rest(), count.value);
    var gs: seq<Shape> := [];
    var i := 0;
    while i < count.value
      invariant 0 <= i <= count.value && r.Valid() && r.Remaining() < old(r.Remaining())
      invariant Continues(whole, gs, ReadShapes(r.Rest(), count.value - i))
    {
      var g := GetShape(r);
      if g.Nothing? { return Nothing; }
      gs := gs + [g.value];
      i := i + 1;
    }
    assert gs + [] == gs;
    got := Some(Collection(gs));
  }
}
