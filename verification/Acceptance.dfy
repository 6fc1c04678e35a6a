/** Exactly which bytes are values, and which they are (decode.go): laid out as encoded, but for two liberties. */
module Acceptance {
  import opened Words
  import opened Values
  import opened Encoding
  import opened Decoding
  import opened Layouts
  import opened AnswerLayouts
  import opened CodecLaws

  // ---------- what bytes mean ----------

  /**
   The bytes of a value, strictly by their first: any byte but zero is true, and the fields of an object come in any
   order and as often as they like, the last of a name counting. Nothing else departs from the encoding.
   */
  ghost predicate Means(s: Str, v: Value)
    decreases |s|, 1
  {
    && |s| >= 1
    && var t := s[1..];
       if s[0] == 0x03 then |t| == 1 && v == Bool(t[0] != 0)
       else if s[0] == 0x0c then
         v.Array? && |t| >= 4 && FromBigEndian(t[..4]) == |v.items| && MeansEach(t[4..], v.items)
       else if s[0] == 0x0d then v.Object? && |t| >= 4 && MeansFields(t[4..], FromBigEndian(t[..4]), map[], v.fields)
       else if s[0] == 0x0e then
         v.Range? && exists k :: 0 <= k <= |t| && MeansBound(t[..k], v.start) && MeansBound(t[k..], v.end)
       else if s[0] == 0x0f then
         v.Set? && |t| >= 4 && FromBigEndian(t[..4]) == |v.items| && MeansEach(t[4..], v.items)
       else Accepted(v) && Holdable(v) && Laid(s, v)
  }

  ghost predicate MeansEach(s: Str, items: seq<Value>)
    decreases |s|, 2, |items|
  {
    if items == [] then s == []
    else exists k :: 0 < k <= |s| && Means(s[..k], items[0]) && MeansEach(s[k..], items[1..])
  }

  /** A name and a value. */
  ghost predicate MeansField(s: Str, name: Str, v: Value)
    decreases |s|, 2
  {
    exists k :: 0 < k <= |s| && LaidText(s[..k], name) && Means(s[k..], v)
  }

  /** So many fields, each over what is there before it. */
  ghost predicate MeansFields(s: Str, count: nat, before: map<Str, Value>, fields: map<Str, Value>)
    decreases |s|, 3, count
  {
    if count == 0 then s == [] && fields == before
    else exists k, name, v :: MeansOneField(s, k, count, name, v, before, fields)
  }

  ghost predicate MeansOneField(
    s: Str, k: int, count: nat, name: Str, v: Value, before: map<Str, Value>, fields: map<Str, Value>)
    requires count > 0
    decreases |s|, 3, count, 0
  {
    0 < k <= |s| && MeansField(s[..k], name, v) && MeansFields(s[k..], count - 1, before[name := v], fields)
  }

  ghost predicate MeansBound(s: Str, b: Bound)
    decreases |s|, 2
  {
    && |s| >= 1
    && if s[0] == 0x01 then s == [0x01] && b == Unbounded
       else if s[0] == 0x02 then b.Included? && Means(s[1..], b.value)
       else s[0] == 0x03 && b.Excluded? && Means(s[1..], b.value)
  }

  // ---------- values without parts ----------

  lemma {:induction false} ManyCanonical<T(!new)>(bs: Str, count: nat, one: Str -> Parsed<T>)
    requires forall s :: one(s).Parsed? ==> |one(s).rest| <= |s| && one(s).canonical
    ensures ReadMany(bs, count, one).Parsed? ==> ReadMany(bs, count, one).canonical
    decreases count
  {
    if count > 0 && one(bs).Parsed? { ManyCanonical(one(bs).rest, count - 1, one); }
  }

  lemma RingCanonical(bs: Str)
    ensures ReadRing(bs).Parsed? ==> ReadRing(bs).canonical
  {
    hide ReadMany;
    if |bs| >= 4 { ManyCanonical(ReadU32(bs).rest, ReadU32(bs).value, ReadPosition); }
  }

  lemma RingsCanonical(bs: Str)
    ensures ReadCounted(bs, ReadRing).Parsed? ==> ReadCounted(bs, ReadRing).canonical
  {
    hide ReadMany, ReadRing;
    forall s ensures ReadRing(s).Parsed? ==> |ReadRing(s).rest| <= |s| && ReadRing(s).canonical { RingCanonical(s); }
    if |bs| >= 4 { ManyCanonical(ReadU32(bs).rest, ReadU32(bs).value, ReadRing); }
  }

  lemma PolygonCanonical(bs: Str)
    ensures ReadPolygon(bs).Parsed? ==> ReadPolygon(bs).canonical
  {
    hide ReadCounted, ReadRing;
    RingCanonical(bs);
    if ReadRing(bs).Parsed? { RingsCanonical(ReadRing(bs).rest); }
  }

  lemma PolygonsCanonical(bs: Str)
    ensures ReadCounted(bs, ReadPolygon).Parsed? ==> ReadCounted(bs, ReadPolygon).canonical
  {
    hide ReadMany, ReadPolygon;
    forall s ensures ReadPolygon(s).Parsed? ==> |ReadPolygon(s).rest| <= |s| && ReadPolygon(s).canonical {
      PolygonCanonical(s);
    }
    if |bs| >= 4 { ManyCanonical(ReadU32(bs).rest, ReadU32(bs).value, ReadPolygon); }
  }

  /** A geometry leaves no liberty at all. */
  lemma {:induction false} ShapeCanonical(bs: Str)
    ensures ReadShape(bs).Parsed? ==> ReadShape(bs).canonical
    decreases |bs|, 0
  {
    hide ReadCounted, ReadRing, ReadPolygon, ReadPosition, ReadShapes;
    if bs != [] {
      var r := bs[1..];
      PositionCanonical(r);
      RingCanonical(r);
      RingsCanonical(r);
      PolygonCanonical(r);
      PolygonsCanonical(r);
      if |r| >= 4 { ShapesCanonical(r[4..], FromBigEndian(r[..4])); }
    }
  }

  lemma PositionCanonical(bs: Str)
    ensures ReadPosition(bs).Parsed? ==> ReadPosition(bs).canonical
  {}

  lemma {:induction false} ShapesCanonical(bs: Str, count: nat)
    ensures ReadShapes(bs, count).Parsed? ==> ReadShapes(bs, count).canonical
    decreases |bs|, 1, count
  {
    hide ReadShape;
    if count > 0 {
      ShapeCanonical(bs);
      if ReadShape(bs).Parsed? { ShapesCanonical(ReadShape(bs).rest, count - 1); }
    }
  }

  lemma FlatCanonical(tag: Byte, bs: Str)
    requires tag != 0x03
    ensures ReadFlat(tag, bs).Parsed? ==> ReadFlat(tag, bs).canonical
  {
    hide ReadShape, ReadNumber, ReadMoment, ReadText, ReadLengthed, ReadId;
    ShapeCanonical(bs);
    NumberCanonical(bs);
  }

  lemma NumberCanonical(bs: Str)
    ensures ReadNumber(bs).Parsed? ==> ReadNumber(bs).canonical
  {
    hide ReadI64, ReadU64, ReadI128, ReadU32;
  }

  /** A value without parts is read from just its encoding. */
  lemma FlatTaken(bs: Str)
    requires bs != [] && ReadFlat(bs[0], bs[1..]).Parsed?
    ensures var p := ReadFlat(bs[0], bs[1..]); Took(bs, p.rest) && Means(Taken(bs, p.rest), p.value)
  {
    hide ReadFlat, Accepted, Holdable, Laid, ValueBytes;
    var p := ReadFlat(bs[0], bs[1..]);
    FlatWrites(bs[0], bs[1..]);
    assert bs == [bs[0]] + bs[1..];
    if bs[0] == 0x03 {
      BoolTaken(bs);
    } else {
      FlatCanonical(bs[0], bs[1..]);
      TakenIs(ValueBytes(p.value), p.rest);
      ValueIs(ValueBytes(p.value), p.value);
      FlatTags(bs);
      assert ValueBytes(p.value) != [] by { ValueHasBytes(p.value); }
      assert ValueBytes(p.value)[0] == bs[0];
    }
  }

  lemma BoolTaken(bs: Str)
    requires bs != [] && bs[0] == 0x03 && ReadFlat(bs[0], bs[1..]).Parsed?
    ensures var p := ReadFlat(bs[0], bs[1..]); Took(bs, p.rest) && Means(Taken(bs, p.rest), p.value)
  {
    hide Laid, MeansEach, MeansFields;
  }

  lemma FlatTags(bs: Str)
    requires bs != [] && ReadFlat(bs[0], bs[1..]).Parsed?
    ensures bs[0] !in {0x0c, 0x0d, 0x0e, 0x0f}
  {}

  // ---------- what is taken means what is read ----------

  /** A byte, and what is taken after it. */
  lemma TookAfter(bs: Str, n: nat, rest: Str)
    requires n <= |bs| && Took(bs[n..], rest)
    ensures Took(bs, rest) && |Taken(bs, rest)| >= n
    ensures Taken(bs, rest)[..n] == bs[..n] && Taken(bs, rest)[n..] == Taken(bs[n..], rest)
  {}

  lemma {:induction false} ValueTaken(bs: Str)
    requires ReadValue(bs).Parsed?
    ensures var p := ReadValue(bs); Took(bs, p.rest) && Means(Taken(bs, p.rest), p.value)
    decreases |bs|, 1
  {
    hide ReadFlat, ReadItems, ReadFields, ReadBound, Took, Taken, Means, FromBigEndian;
    var tag, r := bs[0], bs[1..];
    if tag == 0x0c || tag == 0x0f {
      CountedTaken(bs);
    } else if tag == 0x0d {
      ObjectTaken(bs);
    } else if tag == 0x0e {
      RangeTaken(bs);
    } else {
      FlatTaken(bs);
    }
  }

  lemma {:induction false} CountedTaken(bs: Str)
    requires |bs| >= 1 && (bs[0] == 0x0c || bs[0] == 0x0f) && ReadValue(bs).Parsed?
    ensures var p := ReadValue(bs); Took(bs, p.rest) && Means(Taken(bs, p.rest), p.value)
    decreases |bs|, 0
  {
    hide ReadItems, FromBigEndian, MeansEach, Laid, MeansFields, MeansBound;
    var p, r := ReadValue(bs), bs[5..];
    assert bs[1..][4..] == r && bs[1..][..4] == bs[1..5];
    ItemsTaken(r, FromBigEndian(bs[1..5]));
    TookAfter(bs, 5, p.rest);
    var t := Taken(bs, p.rest);
    assert t[1..][..4] == t[..5][1..] == bs[1..5] && t[1..][4..] == t[5..] && t[0] == t[..5][0];
  }

  lemma {:induction false} ItemsTaken(bs: Str, count: nat)
    requires ReadItems(bs, count).Parsed?
    ensures var p := ReadItems(bs, count); Took(bs, p.rest) && MeansEach(Taken(bs, p.rest), p.value)
    decreases |bs|, 2, count
  {
    hide ReadValue, Means;
    if count == 0 {
      assert Taken(bs, bs) == [];
    } else {
      var first, p := ReadValue(bs), ReadItems(bs, count);
      ValueTaken(bs);
      ItemsTaken(first.rest, count - 1);
      TookTwice(bs, first.rest, p.rest);
      var t, k := Taken(bs, p.rest), |Taken(bs, first.rest)|;
      assert p.value[1..] == ReadItems(first.rest, count - 1).value && p.value[0] == first.value;
      assert Means(t[..k], p.value[0]) && MeansEach(t[k..], p.value[1..]);
    }
  }

  lemma {:induction false} ObjectTaken(bs: Str)
    requires |bs| >= 1 && bs[0] == 0x0d && ReadValue(bs).Parsed?
    ensures var p := ReadValue(bs); Took(bs, p.rest) && Means(Taken(bs, p.rest), p.value)
    decreases |bs|, 0
  {
    hide ReadFields, FromBigEndian, MeansEach, Laid, MeansFields, MeansBound;
    var p, r := ReadValue(bs), bs[5..];
    assert bs[1..][4..] == r && bs[1..][..4] == bs[1..5];
    FieldsTaken(r, FromBigEndian(bs[1..5]), map[]);
    TookAfter(bs, 5, p.rest);
    var t := Taken(bs, p.rest);
    assert t[1..][..4] == t[..5][1..] == bs[1..5] && t[1..][4..] == t[5..] && t[0] == t[..5][0];
  }

  lemma {:induction false} FieldsTaken(bs: Str, count: nat, before: map<Str, Value>)
    requires ReadFields(bs, count, before).Parsed?
    ensures var p := ReadFields(bs, count, before);
            Took(bs, p.rest) && MeansFields(Taken(bs, p.rest), count, before, p.value)
    decreases |bs|, 2, count
  {
    hide ReadText, ReadValue, MeansField;
    if count == 0 {
      assert Taken(bs, bs) == [];
    } else {
      var p, name := ReadFields(bs, count, before), ReadText(bs);
      var v := ReadValue(name.rest);
      FieldTaken(bs);
      FieldsTaken(v.rest, count - 1, before[name.value := v.value]);
      TookTwice(bs, v.rest, p.rest);
      var t, k := Taken(bs, p.rest), |Taken(bs, v.rest)|;
      assert MeansOneField(t, k, count, name.value, v.value, before, p.value);
    }
  }

  lemma {:induction false} FieldTaken(bs: Str)
    requires ReadText(bs).Parsed? && ReadValue(ReadText(bs).rest).Parsed?
    ensures var name := ReadText(bs);
            var v := ReadValue(name.rest);
            Took(bs, v.rest) && Taken(bs, v.rest) != [] && MeansField(Taken(bs, v.rest), name.value, v.value)
    decreases |bs|, 0
  {
    hide ReadText, ReadValue, LaidText, Means, Finds;
    var name := ReadText(bs);
    var v := ReadValue(name.rest);
    TextTaken(bs);
    ValueTaken(name.rest);
    TookTwice(bs, name.rest, v.rest);
    var t, k := Taken(bs, v.rest), |Taken(bs, name.rest)|;
    assert k > 0 && LaidText(t[..k], name.value) && Means(t[k..], v.value);
  }

  lemma {:induction false} BoundTaken(bs: Str)
    requires ReadBound(bs).Parsed?
    ensures var p := ReadBound(bs); Took(bs, p.rest) && MeansBound(Taken(bs, p.rest), p.value)
    decreases |bs|, 2
  {
    hide ReadValue, Means;
    var p := ReadBound(bs);
    if bs[0] != 0x01 { ValueTaken(bs[1..]); }
    TookAfter(bs, 1, p.rest);
    var t := Taken(bs, p.rest);
    assert t[0] == t[..1][0];
    if bs[0] == 0x01 { assert t == t[..1] + t[1..]; }
  }

  lemma {:induction false} RangeTaken(bs: Str)
    requires |bs| >= 1 && bs[0] == 0x0e && ReadValue(bs).Parsed?
    ensures var p := ReadValue(bs); Took(bs, p.rest) && Means(Taken(bs, p.rest), p.value)
    decreases |bs|, 0
  {
    hide ReadBound, MeansEach, Laid, MeansFields, MeansBound;
    var p, r := ReadValue(bs), bs[1..];
    var a := ReadBound(r);
    BoundTaken(r);
    BoundTaken(a.rest);
    TookTwice(r, a.rest, p.rest);
    TookAfter(bs, 1, p.rest);
    var t, k := Taken(bs, p.rest), |Taken(r, a.rest)|;
    assert t[0] == t[..1][0];
    assert MeansBound(t[1..][..k], p.value.start) && MeansBound(t[1..][k..], p.value.end);
  }

  // ---------- and what means a value is read as it ----------

  lemma {:induction false} ValueFound(t: Str, s: Str, v: Value)
    requires Means(t, v)
    ensures ReadValue(t + s).Parsed? && ReadValue(t + s).value == v && ReadValue(t + s).rest == s
    decreases |t|, 1
  {
    hide ReadFlat, ReadItems, ReadFields, ReadBound, MeansEach, MeansFields, MeansBound, ValueBytes, Laid, Accepted,
      Holdable, FromBigEndian, ReadValue;
    if t[0] == 0x03 {
      BoolFound(t, s, v);
    } else if t[0] == 0x0c || t[0] == 0x0f {
      CountedFound(t, s, v);
    } else if t[0] == 0x0d {
      ObjectFound(t, s, v);
    } else if t[0] == 0x0e {
      RangeFound(t, s, v);
    } else {
      ValueIs(t, v);
      ValueReads(v, s);
    }
  }

  lemma BoolFound(t: Str, s: Str, v: Value)
    requires |t| == 2 && t[0] == 0x03 && v == Bool(t[1] != 0)
    ensures ReadValue(t + s).Parsed? && ReadValue(t + s).value == v && ReadValue(t + s).rest == s
  {
    hide ReadShape, ReadNumber, ReadMoment, ReadText, ReadLengthed, ReadId, ReadItems, ReadFields, ReadBound;
    assert (t + s)[1..][1..] == s;
  }

  lemma {:induction false} CountedFound(t: Str, s: Str, v: Value)
    requires Means(t, v) && (t[0] == 0x0c || t[0] == 0x0f)
    ensures ReadValue(t + s).Parsed? && ReadValue(t + s).value == v && ReadValue(t + s).rest == s
    decreases |t|, 0
  {
    hide ReadItems, MeansEach, MeansFields, MeansBound, Laid, FromBigEndian, ReadFlat, ReadFields, ReadBound;
    var bs := t + s;
    assert bs[1..][..4] == t[1..][..4] && bs[1..][4..] == t[1..][4..] + s;
    ItemsFound(t[1..][4..], s, v.items);
  }

  lemma {:induction false} ItemsFound(t: Str, s: Str, items: seq<Value>)
    requires MeansEach(t, items)
    ensures var p := ReadItems(t + s, |items|); p.Parsed? && p.value == items && p.rest == s
    decreases |t|, 2, |items|
  {
    hide ReadValue, Means;
    if items == [] {
      assert t + s == s;
    } else {
      var k :| 0 < k <= |t| && Means(t[..k], items[0]) && MeansEach(t[k..], items[1..]);
      assert t + s == t[..k] + (t[k..] + s);
      ValueFound(t[..k], t[k..] + s, items[0]);
      ItemsFound(t[k..], s, items[1..]);
    }
  }

  lemma {:induction false} ObjectFound(t: Str, s: Str, v: Value)
    requires Means(t, v) && t[0] == 0x0d
    ensures ReadValue(t + s).Parsed? && ReadValue(t + s).value == v && ReadValue(t + s).rest == s
    decreases |t|, 0
  {
    hide ReadItems, MeansEach, MeansFields, MeansBound, Laid, FromBigEndian, ReadFlat, ReadFields, ReadBound;
    var bs := t + s;
    assert bs[1..][..4] == t[1..][..4] && bs[1..][4..] == t[1..][4..] + s;
    FieldsFound(t[1..][4..], s, FromBigEndian(t[1..][..4]), map[], v.fields);
  }

  lemma {:induction false} FieldsFound(t: Str, s: Str, count: nat, before: map<Str, Value>, fields: map<Str, Value>)
    requires MeansFields(t, count, before, fields)
    ensures var p := ReadFields(t + s, count, before); p.Parsed? && p.value == fields && p.rest == s
    decreases |t|, 2, count
  {
    hide ReadValue, MeansField, ReadText;
    if count == 0 {
      assert t + s == s;
    } else {
      var k, name, v :| MeansOneField(t, k, count, name, v, before, fields);
      assert t + s == t[..k] + (t[k..] + s);
      FieldFound(t[..k], t[k..] + s, name, v);
      FieldsFound(t[k..], s, count - 1, before[name := v], fields);
    }
  }

  lemma {:induction false} FieldFound(t: Str, s: Str, name: Str, v: Value)
    requires MeansField(t, name, v)
    ensures ReadText(t + s).Parsed? && ReadText(t + s).value == name
    ensures var p := ReadValue(ReadText(t + s).rest); p.Parsed? && p.value == v && p.rest == s
    decreases |t|, 2, 0
  {
    hide ReadValue, Means, ReadText, LaidText, Finds;
    TextFound();
    var k :| 0 < k <= |t| && LaidText(t[..k], name) && Means(t[k..], v);
    Found(ReadText, LaidText, t + s, t[..k], t[k..] + s, name);
    ValueFound(t[k..], s, v);
  }

  lemma {:induction false} BoundFound(t: Str, s: Str, b: Bound)
    requires MeansBound(t, b)
    ensures ReadBound(t + s).Parsed? && ReadBound(t + s).value == b && ReadBound(t + s).rest == s
    decreases |t|, 2
  {
    hide ReadValue, Means;
    assert (t + s)[1..] == t[1..] + s;
    if t[0] != 0x01 { ValueFound(t[1..], s, b.value); }
  }

  lemma {:induction false} RangeFound(t: Str, s: Str, v: Value)
    requires Means(t, v) && t[0] == 0x0e
    ensures ReadValue(t + s).Parsed? && ReadValue(t + s).value == v && ReadValue(t + s).rest == s
    decreases |t|, 0
  {
    hide ReadItems, MeansEach, MeansFields, MeansBound, Laid, ReadFlat, ReadFields, ReadBound;
    var r := t[1..];
    var k :| 0 <= k <= |r| && MeansBound(r[..k], v.start) && MeansBound(r[k..], v.end);
    assert (t + s)[1..] == r[..k] + (r[k..] + s);
    BoundFound(r[..k], r[k..] + s, v.start);
    BoundFound(r[k..], s, v.end);
  }

  /** Bytes decode exactly when they mean a value, and then to that value. */
  lemma DecodedIs(s: Str, v: Value)
    ensures Decoded(s) == Some(v) <==> Means(s, v)
  {
    hide ReadValue, Means;
    if Decoded(s) == Some(v) {
      ValueTaken(s);
      assert Taken(s, []) == s;
    }
    if Means(s, v) {
      ValueFound(s, [], v);
      assert s + [] == s;
    }
  }
}
