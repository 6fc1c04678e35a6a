/** The value encoding as a function (encode.go over the writer of bytes.go). */
module Encoding {
  import opened Words
  import opened Values

  // Tags (tags.go).
  const TAG_NONE: Byte := 0x01
  const TAG_NULL: Byte := 0x02
  const TAG_BOOL: Byte := 0x03
  const TAG_NUMBER: Byte := 0x04
  const TAG_TEXT: Byte := 0x05
  const TAG_BYTES: Byte := 0x06
  const TAG_DURATION: Byte := 0x07
  const TAG_DATETIME: Byte := 0x08
  const TAG_UUID: Byte := 0x09
  const TAG_TABLE: Byte := 0x0a
  const TAG_RECORD: Byte := 0x0b
  const TAG_ARRAY: Byte := 0x0c
  const TAG_OBJECT: Byte := 0x0d
  const TAG_RANGE: Byte := 0x0e
  const TAG_SET: Byte := 0x0f
  const TAG_GEOMETRY: Byte := 0x10
  const TAG_REGEX: Byte := 0x11

  const NUMBER_INTEGER: Byte := 0x01
  const NUMBER_FLOAT: Byte := 0x02
  const NUMBER_DECIMAL: Byte := 0x03

  const BOUND_UNBOUNDED: Byte := 0x01
  const BOUND_INCLUDED: Byte := 0x02
  const BOUND_EXCLUDED: Byte := 0x03

  const ID_INTEGER: Byte := 0x01
  const ID_TEXT: Byte := 0x02
  const ID_UUID: Byte := 0x03
  const ID_BYTES: Byte := 0x04

  const SHAPE_POINT: Byte := 0x01
  const SHAPE_LINE: Byte := 0x02
  const SHAPE_POLYGON: Byte := 0x03
  const SHAPE_MULTI_POINT: Byte := 0x04
  const SHAPE_MULTI_LINE: Byte := 0x05
  const SHAPE_MULTI_POLYGON: Byte := 0x06
  const SHAPE_COLLECTION: Byte := 0x07

  // ---------- primitives ----------

  /** A u32; a longer count loses its high bits, as uint32(len) does. */
  function U32(n: nat): (s: Str)
    ensures |s| == 4
  {
    BigEndian(n % TWO_32, 4)
  }

  function U64(n: UInt64): (s: Str)
    ensures |s| == 8
  {
    BigEndian(n, 8)
  }

  function FlipTop(b: Byte): Byte {
    if b < 0x80 then b + 0x80 else b - 0x80
  }

  /** uint64(n) for a signed n. */
  function Unsigned64(n: Int64): UInt64 {
    if n < 0 then n + TWO_64 else n
  }

  function I64(n: Int64): (s: Str)
    ensures |s| == 8
  {
    var plain := BigEndian(Unsigned64(n), 8);
    [FlipTop(plain[0])] + plain[1..]
  }

  /** Sixteen bytes of the magnitude; only for one that fits (see Magnitude128). */
  function I128(n: int): (s: Str)
    ensures |s| == 16
  {
    BigEndian(Magnitude128(n), 16)
  }

  function Lengthed(s: Str): Str {
    U32(|s|) + s
  }

  function Escaped(s: Str): Str {
    if s == [] then [] else (if s[0] == 0 then [0x00, 0xff] else [s[0]]) + Escaped(s[1..])
  }

  function Varbytes(s: Str): Str {
    Escaped(s) + [0x00, 0x01]
  }

  function Many<T>(xs: seq<T>, one: T -> Str): Str {
    if xs == [] then [] else one(xs[0]) + Many(xs[1..], one)
  }

  function Counted<T>(xs: seq<T>, one: T -> Str): Str {
    U32(|xs|) + Many(xs, one)
  }

  // ---------- values ----------

  function Moment(seconds: Int64, nanos: UInt32): Str {
    I64(seconds) + U32(nanos)
  }

  function IdBytes(id: RecordId): Str {
    match id
    case NoId => []
    case IntegerId(n) => [ID_INTEGER] + I64(n)
    case TextId(t) => [ID_TEXT] + Varbytes(t)
    case UuidId(u) => [ID_UUID] + u
    case BytesId(b) => [ID_BYTES] + Varbytes(b)
  }

  function PositionBytes(p: Position): Str {
    U64(p.lon) + U64(p.lat)
  }

  function RingBytes(ps: Ring): Str {
    Counted(ps, PositionBytes)
  }

  function PolygonBytes(p: Polygon): Str {
    RingBytes(p.exterior) + Counted(p.interiors, RingBytes)
  }

  function ShapeBytes(s: Shape): Str
    decreases s
  {
    match s
    case NoShape => []
    case Point(p) => [SHAPE_POINT] + PositionBytes(p)
    case Line(ps) => [SHAPE_LINE] + RingBytes(ps)
    case PolygonShape(p) => [SHAPE_POLYGON] + PolygonBytes(p)
    case MultiPoint(ps) => [SHAPE_MULTI_POINT] + RingBytes(ps)
    case MultiLine(ls) => [SHAPE_MULTI_LINE] + Counted(ls, RingBytes)
    case MultiPolygon(ps) => [SHAPE_MULTI_POLYGON] + Counted(ps, PolygonBytes)
    case Collection(gs) => [SHAPE_COLLECTION] + U32(|gs|) + ShapesBytes(gs)
  }

  function ShapesBytes(gs: seq<Shape>): Str
    decreases gs
  {
    if gs == [] then [] else ShapeBytes(gs[0]) + ShapesBytes(gs[1..])
  }

  /** The bytes Encode returns for an accepted value. */
  ghost function ValueBytes(v: Value): Str
    decreases v
  {
    match v
    case NoValue => []
    case None => [TAG_NONE]
    case Null => [TAG_NULL]
    case Bool(b) => [TAG_BOOL, if b then 1 else 0]
    case Integer(n) => [TAG_NUMBER, NUMBER_INTEGER] + I64(n)
    case Float(bits) => [TAG_NUMBER, NUMBER_FLOAT] + U64(bits)
    case Decimal(m, scale) => [TAG_NUMBER, NUMBER_DECIMAL] + I128(if m.Some? then m.value else 0) + U32(scale)
    case Text(t) => [TAG_TEXT] + Lengthed(t)
    case Bytes(b) => [TAG_BYTES] + Lengthed(b)
    case Duration(s, n) => [TAG_DURATION] + Moment(s, n)
    case Datetime(s, n) => [TAG_DATETIME] + Moment(s, n)
    case Uuid(u) => [TAG_UUID] + u
    case Table(id) => [TAG_TABLE] + U32(id)
    case Record(table, id) => [TAG_RECORD] + U32(table) + IdBytes(id)
    case Array(items) => [TAG_ARRAY] + U32(|items|) + ItemsBytes(items)
    case Set(items) => [TAG_SET] + U32(|items|) + ItemsBytes(items)
    case Object(fields) => [TAG_OBJECT] + U32(|fields|) + FieldsBytes(Sorted(fields.Keys), v)
    case Range(a, b) => [TAG_RANGE] + BoundBytes(a) + BoundBytes(b)
    case Geometry(s) => [TAG_GEOMETRY] + ShapeBytes(s)
    case Regex(p) => [TAG_REGEX] + Lengthed(p)
  }

  ghost function ItemsBytes(items: seq<Value>): Str
    decreases items
  {
    if items == [] then [] else ValueBytes(items[0]) + ItemsBytes(items[1..])
  }

  ghost function FieldsBytes(names: seq<Str>, v: Value): Str
    requires v.Object? && forall n :: n in names ==> n in v.fields
    decreases v, |names|
  {
    if names == [] then [] else
      Lengthed(names[0]) + ValueBytes(v.fields[names[0]]) + FieldsBytes(names[1..], v)
  }

  ghost function BoundBytes(b: Bound): Str
    decreases b
  {
    match b
    case NoBound => []
    case Unbounded => [BOUND_UNBOUNDED]
    case Included(v) => [BOUND_INCLUDED] + ValueBytes(v)
    case Excluded(v) => [BOUND_EXCLUDED] + ValueBytes(v)
  }
}
