/** Statements and the text they render to (query.go, filter.go, select.go, write.go, statement.go). */
module Statements {
  import opened Words
  import opened Values
  import opened Texts
  import Spans

  /** A where-clause tree; NoFilter is the nil interface. Operators and directions are plain integers. */
  datatype Filter =
    | NoFilter
    | Comparison(field: Str, op: int, value: Value)
    | And(left: Filter, right: Filter)
    | Or(left: Filter, right: Filter)

  datatype Item = Field(name: Str) | Lines(name: Str, start: UInt64, count: UInt64)

  datatype Ordering = Ordering(field: Str, direction: int)

  datatype Query = Query(
    table: Str, items: seq<Item>, filter: Filter, order: seq<Ordering>,
    start: Option<UInt64>, limit: Option<UInt64>, staleness: Str, answeredBy: Str)

  datatype Statement =
    | Select(query: Query)
    | CreateRecord(table: Str, id: Value, fields: map<Str, Value>)
    | CreateInTable(table: Str, fields: map<Str, Value>)
    | UpdateRecord(table: Str, id: Value, fields: map<Str, Value>)
    | DeleteRecord(table: Str, id: Value)

  /** Why a builder would not render; NilFilter is the panic on a nil operand of And or Or. */
  datatype Fault =
    | NotAName(what: string, name: Str)
    | Incomplete
    | NotASpan(name: Str)
    | NotAnAnswerer(name: Str)
    | NotAnOperator(op: int)
    | NotADirection(direction: int)
    | NilFilter

  datatype Rendered = Rendered(script: Str, parameters: map<Str, Value>)

  // ---------- references ----------

  /** What the binder names the value bound after k others. */
  function Reference(k: nat): Str {
    Ascii("p") + Itoa(k)
  }

  function References(from: nat, count: nat): seq<Str> {
    seq(count, i requires 0 <= i < count => Reference(from + i))
  }

  function Bindings(values: seq<Value>): map<Str, Value> {
    if values == [] then map[] else
      var n := |values| - 1;
      Bindings(values[..n])[Reference(n) := values[n]]
  }

  // ---------- filters ----------

  function Symbol(op: int): Option<string> {
    if op == 0 then Some("=") else if op == 1 then Some("!=") else if op == 2 then Some("<")
    else if op == 3 then Some("<=") else if op == 4 then Some(">") else if op == 5 then Some(">=")
    else Nothing
  }

  /** The first thing rendering stumbles over. */
  function FilterFault(f: Filter): Option<Fault> {
    match f
    case NoFilter => Some(NilFilter)
    case Comparison(field, op, _) =>
      if !PlainName(field) then Some(NotAName("a field", field))
      else if Symbol(op).Nothing? then Some(NotAnOperator(op))
      else Nothing
    case And(l, r) => if FilterFault(l).Some? then FilterFault(l) else FilterFault(r)
    case Or(l, r) => if FilterFault(l).Some? then FilterFault(l) else FilterFault(r)
  }

  /** The values, in the order of the text. */
  function FilterValues(f: Filter): seq<Value> {
    match f
    case NoFilter => []
    case Comparison(_, _, value) => [value]
    case And(l, r) => FilterValues(l) + FilterValues(r)
    case Or(l, r) => FilterValues(l) + FilterValues(r)
  }

  /** The text, with n values already bound. */
  function FilterText(f: Filter, n: nat): Str
    requires FilterFault(f).Nothing?
  {
    match f
    case Comparison(field, op, _) => field + Ascii(" ") + Ascii(Symbol(op).value) + Ascii(" $") + Reference(n)
    case And(l, r) =>
      Ascii("(") + FilterText(l, n) + Ascii(" AND ") + FilterText(r, n + |FilterValues(l)|) + Ascii(")")
    case Or(l, r) =>
      Ascii("(") + FilterText(l, n) + Ascii(" OR ") + FilterText(r, n + |FilterValues(l)|) + Ascii(")")
  }

  // ---------- lists ----------

  function More(parts: seq<Str>): Str {
    if parts == [] then [] else Ascii(", ") + parts[0] + More(parts[1..])
  }

  lemma MoreOfNothing()
    ensures More([]) == []
  {}

  function Listed(parts: seq<Str>): Str {
    if parts == [] then [] else parts[0] + More(parts[1..])
  }

  function Lines3(name: Str, start: UInt64, count: UInt64): Str {
    Ascii("string::lines(") + name + Ascii(", ") + Itoa(start) + Ascii(", ") + Itoa(count) + Ascii(") AS ") + name
  }

  function ItemText(item: Item): Str {
    match item
    case Field(name) => name
    case Lines(name, start, count) => Lines3(name, start, count)
  }

  function ItemParts(items: seq<Item>): seq<Str> {
    seq(|items|, i requires 0 <= i < |items| => ItemText(items[i]))
  }

  function Direction(d: int): Option<string> {
    if d == 0 then Some("ASC") else if d == 1 then Some("DESC") else Nothing
  }

  function OrderFault(order: seq<Ordering>): Option<Fault> {
    if order == [] then Nothing
    else if Direction(order[0].direction).Nothing? then Some(NotADirection(order[0].direction))
    else OrderFault(order[1..])
  }

  function OrderText(o: Ordering): Str
    requires Direction(o.direction).Some?
  {
    o.field + Ascii(" ") + Ascii(Direction(o.direction).value)
  }

  function OrderParts(order: seq<Ordering>): seq<Str>
    requires forall i :: 0 <= i < |order| ==> Direction(order[i].direction).Some?
  {
    seq(|order|, i requires 0 <= i < |order| => OrderText(order[i]))
  }

  lemma {:induction false} NoOrderFault(order: seq<Ordering>)
    ensures OrderFault(order).Nothing? <==> forall i :: 0 <= i < |order| ==> Direction(order[i].direction).Some?
  {
    if order != [] {
      NoOrderFault(order[1..]);
      assert forall i :: 0 < i < |order| ==> order[i] == order[1..][i - 1];
    }
  }

  // ---------- SELECT ----------

  const ANY := Ascii("ANY")
  const LEADER := Ascii("LEADER")

  function SelectFault(q: Query): Option<Fault> {
    if q.filter != NoFilter && FilterFault(q.filter).Some? then FilterFault(q.filter) else OrderFault(q.order)
  }

  function ItemsText(items: seq<Item>): Str {
    if items == [] then Ascii("*") else Listed(ItemParts(items))
  }

  function WhereText(f: Filter): Str
    requires f == NoFilter || FilterFault(f).Nothing?
  {
    if f == NoFilter then [] else Ascii(" WHERE ") + FilterText(f, 0)
  }

  function OrderByText(order: seq<Ordering>): Str
    requires forall i :: 0 <= i < |order| ==> Direction(order[i].direction).Some?
  {
    if order == [] then [] else Ascii(" ORDER BY ") + Listed(OrderParts(order))
  }

  function CountText(word: string, n: Option<UInt64>): Str {
    if n.Some? then Ascii(word) + Itoa(n.value) else []
  }

  function WordText(word: string, what: Str): Str {
    if what == [] then [] else Ascii(word) + what
  }

  function SelectText(q: Query): Str
    requires SelectFault(q).Nothing?
  {
    NoOrderFault(q.order);
    Ascii("SELECT ") + ItemsText(q.items) + Ascii(" FROM ") + q.table
    + WhereText(q.filter) + OrderByText(q.order)
    + CountText(" START ", q.start) + CountText(" LIMIT ", q.limit)
    + WordText(" STALENESS ", q.staleness) + WordText(" ANSWERED BY ", q.answeredBy) + Ascii(";")
  }

  // ---------- CREATE, UPDATE, DELETE ----------

  function FieldPart(name: Str, sep: string, n: nat): Str {
    name + Ascii(sep) + Reference(n)
  }

  function FieldParts(names: seq<Str>, sep: string, n: nat): seq<Str> {
    seq(|names|, i requires 0 <= i < |names| => FieldPart(names[i], sep, n + i))
  }

  ghost function ObjectText(fields: map<Str, Value>, n: nat): Str {
    Ascii("{ ") + Listed(FieldParts(Sorted(fields.Keys), ": $", n)) + Ascii(" }")
  }

  ghost function FieldValues(fields: map<Str, Value>): seq<Value> {
    var names := Sorted(fields.Keys);
    seq(|names|, i requires 0 <= i < |names| => fields[names[i]])
  }

  // ---------- any statement ----------

  function Faults(s: Statement): Option<Fault> {
    match s
    case Select(q) => SelectFault(q)
    case CreateRecord(_, _, fields) => if |fields| == 0 then Some(Incomplete) else Nothing
    case CreateInTable(_, fields) => if |fields| == 0 then Some(Incomplete) else Nothing
    case UpdateRecord(_, _, fields) => if |fields| == 0 then Some(Incomplete) else Nothing
    case DeleteRecord(_, _) => Nothing
  }

  ghost function Script(s: Statement): Str
    requires Faults(s).Nothing?
  {
    match s
    case Select(q) => SelectText(q)
    case CreateRecord(table, _, fields) =>
      Ascii("CREATE ") + table + Ascii(":$") + Reference(0) + Ascii(" = ") + ObjectText(fields, 1) + Ascii(";")
    case CreateInTable(table, fields) =>
      Ascii("CREATE ") + table + Ascii(" = ") + ObjectText(fields, 0) + Ascii(";")
    case UpdateRecord(table, _, fields) =>
      Ascii("UPDATE ") + table + Ascii(":$") + Reference(0) + Ascii(" SET ")
      + Listed(FieldParts(Sorted(fields.Keys), " = $", 1)) + Ascii(";")
    case DeleteRecord(table, _) =>
      Ascii("DELETE ") + table + Ascii(":$") + Reference(0) + Ascii(";")
  }

  /** The values a statement binds, in the order of the text: an identity before any field. */
  ghost function BoundValues(s: Statement): seq<Value> {
    match s
    case Select(q) => FilterValues(q.filter)
    case CreateRecord(_, id, fields) => [id] + FieldValues(fields)
    case CreateInTable(_, fields) => FieldValues(fields)
    case UpdateRecord(_, id, fields) => [id] + FieldValues(fields)
    case DeleteRecord(_, id) => [id]
  }

  ghost function Render(s: Statement): Rendered
    requires Faults(s).Nothing?
  {
    Rendered(Script(s), Bindings(BoundValues(s)))
  }

  /** What the checks in the builders leave: names that are names, a span that is one, an answerer that is one. */
  ghost predicate Legal(s: Statement) {
    match s
    case Select(q) => LegalQuery(q)
    case CreateRecord(table, _, fields) => PlainName(table) && PlainNames(fields)
    case CreateInTable(table, fields) => PlainName(table) && PlainNames(fields)
    case UpdateRecord(table, _, fields) => PlainName(table) && PlainNames(fields)
    case DeleteRecord(table, _) => PlainName(table)
  }

  ghost predicate LegalQuery(q: Query) {
    && PlainName(q.table)
    && (forall i :: 0 <= i < |q.items| ==> PlainName(q.items[i].name))
    && (forall i :: 0 <= i < |q.order| ==> PlainName(q.order[i].field))
    && (q.staleness == [] || Spans.IsSpan(q.staleness))
    && (q.answeredBy == [] || q.answeredBy == ANY || q.answeredBy == LEADER)
  }

  predicate PlainNames(fields: map<Str, Value>) {
    forall name :: name in fields ==> PlainName(name)
  }
}
