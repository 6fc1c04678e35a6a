/**
 The store's value types (value.go). A Go interface may also hold nothing; each of the four
 interfaces has a constructor for that, because a writer meets it and refuses it.
 */
module Values {
  import opened Words
  import Utf8

  datatype Value =
    | NoValue
    | None
    | Null
    | Bool(truth: bool)
    | Integer(number: Int64)
    | Float(bits: UInt64)
    | Decimal(mantissa: Option<int>, scale: UInt32)
    | Text(text: Str)
    | Bytes(bytes: Str)
    | Duration(seconds: Int64, nanos: UInt32)
    | Datetime(seconds: Int64, nanos: UInt32)
    | Uuid(uuid: Sixteen)
    | Table(table: UInt32)
    | Record(table: UInt32, id: RecordId)
    | Array(items: seq<Value>)
    | Object(fields: map<Str, Value>)
    | Set(items: seq<Value>)
    | Range(start: Bound, end: Bound)
    | Geometry(shape: Shape)
    | Regex(pattern: Str)

  type Sixteen = s: Str | |s| == 16 witness [0, 0, 0, 0, 0, 0, 0, 0, 0, 0, 0, 0, 0, 0, 0, 0]

  datatype RecordId = NoId | IntegerId(number: Int64) | TextId(text: Str) | UuidId(uuid: Sixteen) | BytesId(bytes: Str)

  datatype Bound = NoBound | Unbounded | Included(value: Value) | Excluded(value: Value)

  /** Coordinates are the 64 bits of a float, longitude first (RFC 7946, section 3.1.1). */
  datatype Position = Position(lon: UInt64, lat: UInt64)

  type Ring = seq<Position>

  datatype Polygon = Polygon(exterior: Ring, interiors: seq<Ring>)

  datatype Shape =
    | NoShape
    | Point(position: Position)
    | Line(positions: Ring)
    | PolygonShape(polygon: Polygon)
    | MultiPoint(positions: Ring)
    | MultiLine(lines: seq<Ring>)
    | MultiPolygon(polygons: seq<Polygon>)
    | Collection(geometries: seq<Shape>)

  // ---------- what a writer accepts ----------

  /** FillBytes writes the magnitude; of a mantissa that needs more than sixteen bytes it makes a panic. */
  function Magnitude128(n: int): nat {
    var v := if n < 0 then n + TWO_128 else n;
    if v < 0 then -v else v
  }

  /** Encode returns bytes: nothing nil inside, every mantissa there, every nanosecond count below a second. */
  predicate Accepted(v: Value) {
    match v
    case NoValue => false
    case Decimal(m, _) => m.Some? && Magnitude128(m.value) < TWO_128
    case Duration(_, n) => n < NANOS_PER_SECOND
    case Datetime(_, n) => n < NANOS_PER_SECOND
    case Record(_, id) => !id.NoId?
    case Array(items) => forall i :: 0 <= i < |items| ==> Accepted(items[i])
    case Set(items) => forall i :: 0 <= i < |items| ==> Accepted(items[i])
    case Object(fields) => forall k :: k in fields ==> Accepted(fields[k])
    case Range(a, b) => AcceptedBound(a) && AcceptedBound(b)
    case Geometry(s) => AcceptedShape(s)
    case _ => true
  }

  predicate AcceptedBound(b: Bound) {
    match b
    case NoBound => false
    case Unbounded => true
    case Included(v) => Accepted(v)
    case Excluded(v) => Accepted(v)
  }

  predicate AcceptedShape(s: Shape) {
    match s
    case NoShape => false
    case Collection(gs) => forall i :: 0 <= i < |gs| ==> AcceptedShape(gs[i])
    case _ => true
  }

  // ---------- what the wire can hold ----------

  /** Every count and length fits a u32, every mantissa an i128, and every text is UTF-8. */
  predicate Holdable(v: Value) {
    match v
    case Decimal(m, _) => m.Some? && -TWO_127 <= m.value < TWO_127
    case Text(t) => |t| < TWO_32 && Utf8.Valid(t)
    case Regex(t) => |t| < TWO_32 && Utf8.Valid(t)
    case Bytes(b) => |b| < TWO_32
    case Array(items) => |items| < TWO_32 && forall i :: 0 <= i < |items| ==> Holdable(items[i])
    case Set(items) => |items| < TWO_32 && forall i :: 0 <= i < |items| ==> Holdable(items[i])
    case Object(fields) =>
      |fields| < TWO_32
      && forall k :: k in fields ==> |k| < TWO_32 && Utf8.Valid(k) && Holdable(fields[k])
    case Range(a, b) => HoldableBound(a) && HoldableBound(b)
    case Geometry(s) => HoldableShape(s)
    case _ => true
  }

  predicate HoldableBound(b: Bound) {
    match b
    case Included(v) => Holdable(v)
    case Excluded(v) => Holdable(v)
    case _ => true
  }

  predicate HoldableShape(s: Shape) {
    match s
    case Line(ps) => |ps| < TWO_32
    case MultiPoint(ps) => |ps| < TWO_32
    case PolygonShape(p) => HoldablePolygon(p)
    case MultiLine(ls) => HoldableRings(ls)
    case MultiPolygon(ps) => |ps| < TWO_32 && forall i :: 0 <= i < |ps| ==> HoldablePolygon(ps[i])
    case Collection(gs) => |gs| < TWO_32 && forall i :: 0 <= i < |gs| ==> HoldableShape(gs[i])
    case _ => true
  }

  predicate HoldableRing(ring: Ring) {
    |ring| < TWO_32
  }

  predicate HoldableRings(rings: seq<Ring>) {
    |rings| < TWO_32 && forall i :: 0 <= i < |rings| ==> HoldableRing(rings[i])
  }

  predicate HoldablePolygon(p: Polygon) {
    |p.exterior| < TWO_32 && HoldableRings(p.interiors)
  }
}
