/** Event literals (httpseries.go): one spelling for each kind an event carries, and a reader of them. */
module Literals {
  import opened Words
  import opened Values
  import opened Texts
  import D = Decimals
  import Q = Quoting
  import Uuids

  /** What the Go library writes for a finite float and for a moment; kept as a token, not looked into. */
  datatype Library = Library(float: UInt64 -> Str, moment: Int64 -> Str)

  predicate Finite(bits: UInt64) {
    bits / 0x10_0000_0000_0000 % 0x800 != 0x7ff
  }

  /** The seconds of the years 0 to 9999. */
  predicate InYears(seconds: Int64) {
    -62167219200 <= seconds <= 253402300799
  }

  /** digits, signs, a point, an exponent */
  predicate IsNumberByte(b: Byte) {
    IsDigit(b) || b == 0x2b || b == 0x2d || b == 0x2e || b == 0x65
  }

  predicate AllNumberBytes(t: Str) {
    forall i :: 0 <= i < |t| ==> IsNumberByte(t[i])
  }

  predicate StartsNumber(t: Str) {
    t != [] && (IsDigit(t[0]) || t[0] == 0x2d)
  }

  /** The shape of FormatFloat's and Format's texts that the spelling leans on. */
  ghost predicate Lexical(lib: Library) {
    && (forall bits: UInt64 :: Finite(bits) ==> StartsNumber(lib.float(bits)) && AllNumberBytes(lib.float(bits)))
    && (forall seconds: Int64 :: InYears(seconds) ==> Q.QUOTE !in lib.moment(seconds))
  }

  predicate Pointed(t: Str) {
    0x2e in t || 0x65 in t
  }

  /** Without a point or an exponent a float would read as an integer. */
  function FloatText(lib: Library, bits: UInt64): Str {
    var t := lib.float(bits);
    if Pointed(t) then t else t + Ascii(".0")
  }

  /** %09d */
  function Nine(n: nat): (t: Str)
    ensures AllDigits(t)
  {
    var digits := Itoa(n);
    if |digits| < 9 then D.Zeros(9 - |digits|) + digits else digits
  }

  function MomentText(lib: Library, seconds: Int64, nanos: UInt32): Str {
    lib.moment(seconds) + (if nanos > 0 then Ascii(".") + Nine(nanos) else []) + Ascii("Z")
  }

  function IntegerText(n: int): Str {
    D.Sign(n) + Itoa(D.Magnitude(n))
  }

  // ---------- what an event can carry ----------

  predicate Speakable(v: Value)
    decreases v
  {
    match v
    case Null => true
    case Bool(_) => true
    case Integer(_) => true
    case Float(bits) => Finite(bits)
    case Decimal(_, _) => true
    case Text(_) => true
    case Datetime(seconds, _) => InYears(seconds)
    case Uuid(_) => true
    case Array(items) => forall i :: 0 <= i < |items| ==> Speakable(items[i])
    case Object(fields) => forall n :: n in fields && !fields[n].None? ==> Speakable(fields[n])
    case _ => false
  }

  /** The names of the fields that are there. */
  function Present(fields: map<Str, Value>): set<Str> {
    set n | n in fields && !fields[n].None?
  }

  /** The kinds without parts. */
  function FlatText(lib: Library, v: Value): Str {
    match v
    case Null => Ascii("NULL")
    case Bool(truth) => if truth then Ascii("true") else Ascii("false")
    case Integer(n) => IntegerText(n)
    case Float(bits) => FloatText(lib, bits)
    case Decimal(m, scale) => Ascii("dec ") + D.DecimalText(m, scale)
    case Text(t) => Q.Quoted(t)
    case Datetime(seconds, nanos) => Ascii("datetime '") + MomentText(lib, seconds, nanos) + Ascii("'")
    case Uuid(u) => Ascii("uuid '") + Uuids.UuidText(u) + Ascii("'")
    case _ => []
  }

  ghost function LiteralText(lib: Library, v: Value): Str
    decreases v
  {
    match v
    case Array(items) => Ascii("[") + ItemsText(lib, items, true) + Ascii("]")
    case Object(fields) =>
      if Present(fields) == {} then Ascii("{}")
      else Ascii("{ ") + FieldsText(lib, Sorted(Present(fields)), v, true) + Ascii(" }")
    case _ => FlatText(lib, v)
  }

  function Comma(first: bool): Str {
    if first then [] else Ascii(", ")
  }

  ghost function ItemsText(lib: Library, items: seq<Value>, first: bool): Str
    decreases items
  {
    if items == [] then [] else Comma(first) + LiteralText(lib, items[0]) + ItemsText(lib, items[1..], false)
  }

  ghost function FieldsText(lib: Library, names: seq<Str>, v: Value, first: bool): Str
    requires v.Object? && forall n :: n in names ==> n in v.fields
    decreases v, |names|
  {
    if names == [] then [] else
      Comma(first) + Q.Quoted(names[0]) + Ascii(": ") + LiteralText(lib, v.fields[names[0]])
      + FieldsText(lib, names[1..], v, false)
  }

  // ---------- reading a literal back ----------

  /** What a literal says; a float and a moment are the token that spells them. */
  datatype Event =
    | Nil
    | Flag(truth: bool)
    | Whole(n: int)
    | Floating(token: Str)
    | Exact(mantissa: int, scale: nat)
    | Words(text: Str)
    | Moment(token: Str)
    | Id(uuid: Sixteen)
    | List(items: seq<Event>)
    | Fields(fields: map<Str, Event>)

  /** The longest run of number bytes a text begins with. */
  function NumberRun(t: Str): (n: nat)
    ensures n <= |t| && AllNumberBytes(t[..n]) && (n < |t| ==> !IsNumberByte(t[n]))
  {
    if t == [] || !IsNumberByte(t[0]) then 0 else
      var n := NumberRun(t[1..]);
      assert t[..n + 1] == [t[0]] + t[1..][..n];
      n + 1
  }

  function ReadNumeral(t: Str): (r: Read<Event>)
    ensures r.Got? ==> |r.rest| < |t|
  {
    var n := NumberRun(t);
    if n == 0 then Not
    else if Pointed(t[..n]) then Got(Floating(t[..n]), t[n..])
    else
      match D.ReadInteger(t[..n])
      case Nothing => Not
      case Some(number) => Got(Whole(number), t[n..])
  }

  function ReadExact(t: Str): (r: Read<Event>)
    ensures r.Got? ==> |r.rest| <= |t|
  {
    var n := NumberRun(t);
    match D.ReadDecimal(t[..n])
    case Nothing => Not
    case Some(d) => Got(Exact(d.0, d.1), t[n..])
  }

  /** Everything up to the next quote. */
  function ReadToken(t: Str): (r: Read<Str>)
    ensures r.Got? ==> |r.rest| < |t|
  {
    if t == [] then Not
    else if t[0] == Q.QUOTE then Got([], t[1..])
    else
      var (more, rest) :- ReadToken(t[1..]);
      Got([t[0]] + more, rest)
  }

  function ReadId(t: Str): (r: Read<Event>)
    ensures r.Got? ==> |r.rest| < |t|
  {
    var (token, rest) :- ReadToken(t);
    match Uuids.ReadUuid(token)
    case Nothing => Not
    case Some(u) => Got(Id(u), rest)
  }

  function ReadMoment(t: Str): (r: Read<Event>)
    ensures r.Got? ==> |r.rest| < |t|
  {
    var (token, rest) :- ReadToken(t);
    Got(Moment(token), rest)
  }

  function ReadFlat(t: Str): (r: Read<Event>)
    ensures r.Got? ==> |r.rest| < |t|
  {
    if Opens(t, "NULL") then Got(Nil, Past(t, "NULL"))
    else if Opens(t, "true") then Got(Flag(true), Past(t, "true"))
    else if Opens(t, "false") then Got(Flag(false), Past(t, "false"))
    else if Opens(t, "dec ") then ReadExact(Past(t, "dec "))
    else if Opens(t, "datetime '") then ReadMoment(Past(t, "datetime '"))
    else if Opens(t, "uuid '") then ReadId(Past(t, "uuid '"))
    else if Opens(t, "'") then
      var (text, rest) :- Q.ReadQuoted(t);
      Got(Words(text), rest)
    else ReadNumeral(t)
  }

  function ReadEvent(t: Str): (r: Read<Event>)
    ensures r.Got? ==> |r.rest| < |t|
    decreases |t|, 0
  {
    if Opens(t, "[]") then Got(List([]), Past(t, "[]"))
    else if Opens(t, "[") then
      var (items, t1) :- ReadItems(Past(t, "["));
      var (_, t2) :- Skip(t1, "]");
      Got(List(items), t2)
    else if Opens(t, "{}") then Got(Fields(map[]), Past(t, "{}"))
    else if Opens(t, "{ ") then
      var (fields, t1) :- ReadFields(Past(t, "{ "));
      var (_, t2) :- Skip(t1, " }");
      Got(Fields(fields), t2)
    else ReadFlat(t)
  }

  function ReadItems(t: Str): (r: Read<seq<Event>>)
    ensures r.Got? ==> |r.rest| < |t|
    decreases |t|, 1
  {
    var (first, t1) :- ReadEvent(t);
    if Opens(t1, ", ") then
      var (more, t2) :- ReadItems(Past(t1, ", "));
      Got([first] + more, t2)
    else Got([first], t1)
  }

  function ReadFields(t: Str): (r: Read<map<Str, Event>>)
    ensures r.Got? ==> |r.rest| < |t|
    decreases |t|, 1
  {
    var (name, t1) :- Q.ReadQuoted(t);
    var (_, t2) :- Skip(t1, ": ");
    var (value, t3) :- ReadEvent(t2);
    if Opens(t3, ", ") then
      var (more, t4) :- ReadFields(Past(t3, ", "));
      Got(more[name := value], t4)
    else Got(map[name := value], t3)
  }

  // ---------- what a literal should say ----------

  function FlatMeaning(lib: Library, v: Value): Event {
    match v
    case Bool(truth) => Flag(truth)
    case Integer(n) => Whole(n)
    case Float(bits) => Floating(FloatText(lib, bits))
    case Decimal(m, scale) => Exact(if m.Some? then m.value else 0, scale)
    case Text(t) => Words(t)
    case Datetime(seconds, nanos) => Moment(MomentText(lib, seconds, nanos))
    case Uuid(u) => Id(u)
    case _ => Nil
  }

  /** The event itself, with every field that holds None removed at every depth. */
  function Meaning(lib: Library, v: Value): Event
    decreases v
  {
    match v
    case Array(items) => List(seq(|items|, i requires 0 <= i < |items| => Meaning(lib, items[i])))
    case Object(fields) => Fields(map n | n in fields && !fields[n].None? :: Meaning(lib, fields[n]))
    case _ => FlatMeaning(lib, v)
  }

  /** What is heard: the meaning, with each text repaired as a range over a Go string repairs it. */
  ghost function Heard(lib: Library, v: Value): Event
    decreases v
  {
    match v
    case Text(t) => Words(Q.Repaired(t))
    case Array(items) => List(seq(|items|, i requires 0 <= i < |items| => Heard(lib, items[i])))
    case Object(fields) => Fields(HeardFields(lib, Sorted(Present(fields)), v))
    case _ => FlatMeaning(lib, v)
  }

  ghost function HeardFields(lib: Library, names: seq<Str>, v: Value): map<Str, Event>
    requires v.Object? && forall n :: n in names ==> n in v.fields
    decreases v, |names|
  {
    if names == [] then map[] else
      HeardFields(lib, names[1..], v)[Q.Repaired(names[0]) := Heard(lib, v.fields[names[0]])]
  }
}
