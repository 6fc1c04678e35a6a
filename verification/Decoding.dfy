/**
 Reading values as functions of the bytes that remain (decode.go over the reader of bytes.go).
 Beside the value and what is left, a reading says whether the bytes read were canonical: every
 bool byte 0 or 1, and in every object each name above all the names before it.
 */
module Decoding {
  import opened Words
  import opened Values
  import opened Encoding
  import Utf8

  datatype Parsed<+T> = Failed | Parsed(value: T, rest: Str, canonical: bool)

  // ---------- primitives ----------

  function ReadFixed(bs: Str, n: nat): (p: Parsed<Str>)
    ensures p.Parsed? ==> |p.value| == n && |p.rest| + n == |bs|
  {
    if |bs| < n then Failed else Parsed(bs[..n], bs[n..], true)
  }

  function ReadU8(bs: Str): (p: Parsed<Byte>)
    ensures p.Parsed? ==> |p.rest| + 1 == |bs|
  {
    if |bs| < 1 then Failed else Parsed(bs[0], bs[1..], true)
  }

  function ReadU32(bs: Str): (p: Parsed<UInt32>)
    ensures p.Parsed? ==> |p.rest| + 4 == |bs|
  {
    if |bs| < 4 then Failed else
      BigEndianWrites(bs[..4]); Powers();
      Parsed(FromBigEndian(bs[..4]), bs[4..], true)
  }

  function ReadU64(bs: Str): (p: Parsed<UInt64>)
    ensures p.Parsed? ==> |p.rest| + 8 == |bs|
  {
    if |bs| < 8 then Failed else
      BigEndianWrites(bs[..8]); Powers();
      Parsed(FromBigEndian(bs[..8]), bs[8..], true)
  }

  /** int64(n) for an unsigned n. */
  function Signed64(n: UInt64): Int64 {
    if n < TWO_63 then n else n - TWO_64
  }

  function ReadI64(bs: Str): (p: Parsed<Int64>)
    ensures p.Parsed? ==> |p.rest| + 8 == |bs|
  {
    if |bs| < 8 then Failed else
      var plain := [FlipTop(bs[0])] + bs[1..8];
      BigEndianWrites(plain); Powers();
      Parsed(Signed64(FromBigEndian(plain)), bs[8..], true)
  }

  function ReadI128(bs: Str): (p: Parsed<int>)
    ensures p.Parsed? ==> |p.rest| + 16 == |bs|
  {
    if |bs| < 16 then Failed else
      var n := FromBigEndian(bs[..16]);
      Parsed(if bs[0] >= 0x80 then n - TWO_128 else n, bs[16..], true)
  }

  function ReadLengthed(bs: Str): (p: Parsed<Str>)
    ensures p.Parsed? ==> |p.rest| + 4 + |p.value| == |bs| && |p.value| < TWO_32
  {
    match ReadU32(bs)
    case Failed => Failed
    case Parsed(n, r, _) => ReadFixed(r, n)
  }

  function ReadText(bs: Str): (p: Parsed<Str>)
    ensures p.Parsed? ==> |p.rest| + 4 + |p.value| == |bs| && |p.value| < TWO_32 && Utf8.Valid(p.value)
  {
    match ReadLengthed(bs)
    case Failed => Failed
    case Parsed(t, r, _) => if Utf8.Valid(t) then Parsed(t, r, true) else Failed
  }

  function ReadVarbytes(bs: Str): (p: Parsed<Str>)
    ensures p.Parsed? ==> |p.rest| + 2 <= |bs|
  {
    if bs == [] then Failed
    else if bs[0] != 0 then
      match ReadVarbytes(bs[1..])
      case Failed => Failed
      case Parsed(t, r, _) => Parsed([bs[0]] + t, r, true)
    else if |bs| == 1 then Failed
    else if bs[1] == 0xff then
      match ReadVarbytes(bs[2..])
      case Failed => Failed
      case Parsed(t, r, _) => Parsed([0] + t, r, true)
    else if bs[1] == 0x01 then Parsed([], bs[2..], true)
    else Failed
  }

  /** count readings, one after the other. */
  function ReadMany<T>(bs: Str, count: nat, one: Str -> Parsed<T>): (p: Parsed<seq<T>>)
    requires forall s :: one(s).Parsed? ==> |one(s).rest| <= |s|
    ensures p.Parsed? ==> |p.rest| <= |bs| && |p.value| == count
    decreases count
  {
    if count == 0 then Parsed([], bs, true) else
      match one(bs)
      case Failed => Failed
      case Parsed(x, r, c) =>
        match ReadMany(r, count - 1, one)
        case Failed => Failed
        case Parsed(xs, r', c') => Parsed([x] + xs, r', c && c')
  }

  function ReadCounted<T>(bs: Str, one: Str -> Parsed<T>): (p: Parsed<seq<T>>)
    requires forall s :: one(s).Parsed? ==> |one(s).rest| <= |s|
    ensures p.Parsed? ==> |p.rest| < |bs| && |p.value| < TWO_32
  {
    match ReadU32(bs)
    case Failed => Failed
    case Parsed(n, r, _) => ReadMany(r, n, one)
  }

  // ---------- values ----------

  function ReadMoment(bs: Str): (p: Parsed<(Int64, UInt32)>)
    ensures p.Parsed? ==> |p.rest| < |bs| && p.value.1 < NANOS_PER_SECOND
  {
    match ReadI64(bs)
    case Failed => Failed
    case Parsed(s, r, _) =>
      match ReadU32(r)
      case Failed => Failed
      case Parsed(n, r', _) => if n >= NANOS_PER_SECOND then Failed else Parsed((s, n), r', true)
  }

  function ReadNumber(bs: Str): (p: Parsed<Value>)
    ensures p.Parsed? ==> |p.rest| < |bs|
  {
    match ReadU8(bs)
    case Failed => Failed
    case Parsed(kind, r, _) =>
      if kind == NUMBER_INTEGER then
        match ReadI64(r)
        case Failed => Failed
        case Parsed(n, r', _) => Parsed(Integer(n), r', true)
      else if kind == NUMBER_FLOAT then
        match ReadU64(r)
        case Failed => Failed
        case Parsed(bits, r', _) => Parsed(Float(bits), r', true)
      else if kind == NUMBER_DECIMAL then
        match ReadI128(r)
        case Failed => Failed
        case Parsed(m, r', _) =>
          match ReadU32(r')
          case Failed => Failed
          case Parsed(scale, r'', _) => Parsed(Decimal(Some(m), scale), r'', true)
      else Failed
  }

  function ReadId(bs: Str): (p: Parsed<RecordId>)
    ensures p.Parsed? ==> |p.rest| < |bs|
  {
    match ReadU8(bs)
    case Failed => Failed
    case Parsed(tag, r, _) =>
      if tag == ID_INTEGER then
        match ReadI64(r)
        case Failed => Failed
        case Parsed(n, r', _) => Parsed(IntegerId(n), r', true)
      else if tag == ID_TEXT then
        match ReadVarbytes(r)
        case Failed => Failed
        case Parsed(t, r', _) => Parsed(TextId(t), r', true)
      else if tag == ID_UUID then
        match ReadFixed(r, 16)
        case Failed => Failed
        case Parsed(u, r', _) => Parsed(UuidId(u), r', true)
      else if tag == ID_BYTES then
        match ReadVarbytes(r)
        case Failed => Failed
        case Parsed(b, r', _) => Parsed(BytesId(b), r', true)
      else Failed
  }

  function ReadPosition(bs: Str): (p: Parsed<Position>)
    ensures p.Parsed? ==> |p.rest| < |bs|
  {
    match ReadU64(bs)
    case Failed => Failed
    case Parsed(lon, r, _) =>
      match ReadU64(r)
      case Failed => Failed
      case Parsed(lat, r', _) => Parsed(Position(lon, lat), r', true)
  }

  function ReadRing(bs: Str): (p: Parsed<Ring>)
    ensures p.Parsed? ==> |p.rest| < |bs|
  {
    ReadCounted(bs, ReadPosition)
  }

  function ReadPolygon(bs: Str): (p: Parsed<Polygon>)
    ensures p.Parsed? ==> |p.rest| < |bs|
  {
    match ReadRing(bs)
    case Failed => Failed
    case Parsed(exterior, r, c) =>
      match ReadCounted(r, ReadRing)
      case Failed => Failed
      case Parsed(interiors, r', c') => Parsed(Polygon(exterior, interiors), r', c && c')
  }

  function ReadShape(bs: Str): (p: Parsed<Shape>)
    ensures p.Parsed? ==> |p.rest| < |bs|
    decreases |bs|, 0
  {
    match ReadU8(bs)
    case Failed => Failed
    case Parsed(kind, r, _) =>
      if kind == SHAPE_POINT then
        match ReadPosition(r)
        case Failed => Failed
        case Parsed(p, r', c) => Parsed(Point(p), r', c)
      else if kind == SHAPE_LINE then
        match ReadRing(r)
        case Failed => Failed
        case Parsed(ps, r', c) => Parsed(Line(ps), r', c)
      else if kind == SHAPE_POLYGON then
        match ReadPolygon(r)
        case Failed => Failed
        case Parsed(p, r', c) => Parsed(PolygonShape(p), r', c)
      else if kind == SHAPE_MULTI_POINT then
        match ReadRing(r)
        case Failed => Failed
        case Parsed(ps, r', c) => Parsed(MultiPoint(ps), r', c)
      else if kind == SHAPE_MULTI_LINE then
        match ReadCounted(r, ReadRing)
        case Failed => Failed
        case Parsed(ls, r', c) => Parsed(MultiLine(ls), r', c)
      else if kind == SHAPE_MULTI_POLYGON then
        match ReadCounted(r, ReadPolygon)
        case Failed => Failed
        case Parsed(ps, r', c) => Parsed(MultiPolygon(ps), r', c)
      else if kind == SHAPE_COLLECTION then
        ReadCollection(r)
      else Failed
  }

  function ReadCollection(bs: Str): (p: Parsed<Shape>)
    ensures p.Parsed? ==> |p.rest| < |bs|
    decreases |bs|, 0
  {
    match ReadU32(bs)
    case Failed => Failed
    case Parsed(n, r, _) =>
      match ReadShapes(r, n)
      case Failed => Failed
      case Parsed(gs, r', c) => Parsed(Collection(gs), r', c)
  }

  function ReadShapes(bs: Str, count: nat): (p: Parsed<seq<Shape>>)
    ensures p.Parsed? ==> |p.rest| <= |bs| && |p.value| == count
    decreases |bs|, count
  {
    if count == 0 then Parsed([], bs, true) else
      match ReadShape(bs)
      case Failed => Failed
      case Parsed(g, r, c) =>
        match ReadShapes(r, count - 1)
        case Failed => Failed
        case Parsed(gs, r', c') => Parsed([g] + gs, r', c && c')
  }

  /** One value, every reading of a nested one from strictly fewer bytes. */
  function ReadValue(bs: Str): (p: Parsed<Value>)
    ensures p.Parsed? ==> |p.rest| < |bs|
    decreases |bs|, 0
  {
    match ReadU8(bs)
    case Failed => Failed
    case Parsed(tag, r, _) =>
      if tag == TAG_ARRAY then
        match ReadCountedItems(r)
        case Failed => Failed
        case Parsed(items, r', c) => Parsed(Array(items), r', c)
      else if tag == TAG_SET then
        match ReadCountedItems(r)
        case Failed => Failed
        case Parsed(items, r', c) => Parsed(Set(items), r', c)
      else if tag == TAG_OBJECT then
        match ReadCountedFields(r)
        case Failed => Failed
        case Parsed(fields, r', c) => Parsed(Object(fields), r', c)
      else if tag == TAG_RANGE then
        match ReadBound(r)
        case Failed => Failed
        case Parsed(a, r', c) =>
          match ReadBound(r')
          case Failed => Failed
          case Parsed(b, r'', c') => Parsed(Range(a, b), r'', c && c')
      else ReadFlat(tag, r)
  }

  /** The value types that hold no other value, after their tag. */
  function ReadFlat(tag: Byte, bs: Str): (p: Parsed<Value>)
    ensures p.Parsed? ==> |p.rest| <= |bs|
  {
    if tag == TAG_NONE then Parsed(None, bs, true)
    else if tag == TAG_NULL then Parsed(Null, bs, true)
    else if tag == TAG_BOOL then
      match ReadU8(bs)
      case Failed => Failed
      case Parsed(b, r, _) => Parsed(Bool(b != 0), r, b <= 1)
    else if tag == TAG_NUMBER then ReadNumber(bs)
    else if tag == TAG_TEXT then
      match ReadText(bs)
      case Failed => Failed
      case Parsed(t, r, _) => Parsed(Text(t), r, true)
    else if tag == TAG_BYTES then
      match ReadLengthed(bs)
      case Failed => Failed
      case Parsed(b, r, _) => Parsed(Bytes(b), r, true)
    else if tag == TAG_DURATION then
      match ReadMoment(bs)
      case Failed => Failed
      case Parsed(m, r, _) => Parsed(Duration(m.0, m.1), r, true)
    else if tag == TAG_DATETIME then
      match ReadMoment(bs)
      case Failed => Failed
      case Parsed(m, r, _) => Parsed(Datetime(m.0, m.1), r, true)
    else if tag == TAG_UUID then
      match ReadFixed(bs, 16)
      case Failed => Failed
      case Parsed(u, r, _) => Parsed(Uuid(u), r, true)
    else if tag == TAG_TABLE then
      match ReadU32(bs)
      case Failed => Failed
      case Parsed(id, r, _) => Parsed(Table(id), r, true)
    else if tag == TAG_RECORD then
      match ReadU32(bs)
      case Failed => Failed
      case Parsed(table, r, _) =>
        match ReadId(r)
        case Failed => Failed
        case Parsed(id, r', _) => Parsed(Record(table, id), r', true)
    else if tag == TAG_GEOMETRY then
      match ReadShape(bs)
      case Failed => Failed
      case Parsed(s, r, c) => Parsed(Geometry(s), r, c)
    else if tag == TAG_REGEX then
      match ReadText(bs)
      case Failed => Failed
      case Parsed(t, r, _) => Parsed(Regex(t), r, true)
    else Failed
  }

  function ReadCountedItems(bs: Str): (p: Parsed<seq<Value>>)
    ensures p.Parsed? ==> |p.rest| < |bs| && |p.value| < TWO_32
    decreases |bs|, 0
  {
    match ReadU32(bs)
    case Failed => Failed
    case Parsed(n, r, _) => ReadItems(r, n)
  }

  function ReadItems(bs: Str, count: nat): (p: Parsed<seq<Value>>)
    ensures p.Parsed? ==> |p.rest| <= |bs| && |p.value| == count
    decreases |bs|, 1, count
  {
    if count == 0 then Parsed([], bs, true) else
      match ReadValue(bs)
      case Failed => Failed
      case Parsed(v, r, c) =>
        match ReadItems(r, count - 1)
        case Failed => Failed
        case Parsed(vs, r', c') => Parsed([v] + vs, r', c && c')
  }

  function ReadCountedFields(bs: Str): (p: Parsed<map<Str, Value>>)
    ensures p.Parsed? ==> |p.rest| < |bs|
    decreases |bs|, 0
  {
    match ReadU32(bs)
    case Failed => Failed
    case Parsed(n, r, _) => ReadFields(r, n, map[])
  }

  /** Fields land in a map, a later one over an earlier one of the same name. */
  function ReadFields(bs: Str, count: nat, before: map<Str, Value>): (p: Parsed<map<Str, Value>>)
    ensures p.Parsed? ==> |p.rest| <= |bs|
    decreases |bs|, 1, count
  {
    if count == 0 then Parsed(before, bs, true) else
      match ReadText(bs)
      case Failed => Failed
      case Parsed(name, r, _) =>
        match ReadValue(r)
        case Failed => Failed
        case Parsed(v, r', c) =>
          match ReadFields(r', count - 1, before[name := v])
          case Failed => Failed
          case Parsed(fields, r'', c') =>
            Parsed(fields, r'', c && c' && forall k :: k in before ==> Less(k, name))
  }

  function ReadBound(bs: Str): (p: Parsed<Bound>)
    ensures p.Parsed? ==> |p.rest| < |bs|
    decreases |bs|, 0
  {
    match ReadU8(bs)
    case Failed => Failed
    case Parsed(tag, r, _) =>
      if tag == BOUND_UNBOUNDED then Parsed(Unbounded, r, true)
      else if tag == BOUND_INCLUDED then
        match ReadValue(r)
        case Failed => Failed
        case Parsed(v, r', c) => Parsed(Included(v), r', c)
      else if tag == BOUND_EXCLUDED then
        match ReadValue(r)
        case Failed => Failed
        case Parsed(v, r', c) => Parsed(Excluded(v), r', c)
      else Failed
  }

  /** Decode: one value, and nothing after it. */
  function Decoded(bs: Str): Option<Value> {
    match ReadValue(bs)
    case Failed => Nothing
    case Parsed(v, rest, _) => if rest == [] then Some(v) else Nothing
  }
}
