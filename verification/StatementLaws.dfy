/** Every statement that renders reads back, and only from its own text. */
module StatementLaws {
  import opened Words
  import opened Values
  import opened Texts
  import opened Statements
  import opened StatementReading
  import Spans

  // ---------- references ----------

  lemma ReferenceIsName(k: nat)
    ensures PlainName(Reference(k))
  {
    NumberReads(k);
    assert Ascii("p")[0] == 'p' as int % 256;
  }

  lemma ReferencesDiffer(i: nat, j: nat)
    requires Reference(i) == Reference(j)
    ensures i == j
  {
    assert Reference(i)[1..] == Itoa(i) && Reference(j)[1..] == Itoa(j);
    NumberReads(i);
    NumberReads(j);
  }

  /** The parameters are named p0 to p(n-1), one name for each value. */
  lemma {:induction false} BindingsAre(values: seq<Value>)
    ensures |Bindings(values)| == |values|
    ensures forall k :: 0 <= k < |values| ==>
              Reference(k) in Bindings(values) && Bindings(values)[Reference(k)] == values[k]
    ensures forall name :: name in Bindings(values) ==> exists k :: 0 <= k < |values| && name == Reference(k)
  {
    hide Reference;
    if values != [] {
      var n := |values| - 1;
      BindingsAre(values[..n]);
      forall k | 0 <= k < n ensures Reference(k) != Reference(n) {
        if Reference(k) == Reference(n) { ReferencesDiffer(k, n); }
      }
    }
  }

  /** Each value is under a `p` and its place, counted from zero, and nothing else is bound. */
  lemma BindingsHold(values: seq<Value>)
    ensures |Bindings(values)| == |values|
    ensures forall k :: 0 <= k < |values| ==>
              Ascii("p") + Itoa(k) in Bindings(values) && Bindings(values)[Ascii("p") + Itoa(k)] == values[k]
  {
    hide Ascii, Itoa, Bindings;
    BindingsAre(values);
    forall k | 0 <= k < |values|
      ensures Ascii("p") + Itoa(k) in Bindings(values) && Bindings(values)[Ascii("p") + Itoa(k)] == values[k]
    {
      assert Reference(k) == Ascii("p") + Itoa(k);
    }
  }

  lemma ReferenceReads(k: nat, rest: Str, ps: Parameters)
    requires Ended(rest) && Reference(k) in ps
    ensures ReadReference(Reference(k) + rest, ps) == Got(ps[Reference(k)], rest)
  {
    hide Reference;
    ReferenceIsName(k);
    NameReads(Reference(k), rest);
  }

  /** Under the names p(n), p(n+1) ... stand these values. */
  ghost predicate Holds(ps: Parameters, n: nat, values: seq<Value>) {
    forall k :: n <= k < n + |values| ==> Reference(k) in ps && ps[Reference(k)] == values[k - n]
  }

  // ---------- filters ----------

  lemma SymbolReads(op: int, rest: Str)
    requires Symbol(op).Some? && Opens(rest, " ")
    ensures ReadSymbol(Ascii(Symbol(op).value) + rest) == Got(op, rest)
  {
    hide Opens, Ascii;
    var s := Symbol(op).value;
    SpacedSymbol(s, rest);
    var tail := rest[1..];
    OpensWith(s, rest);
    match op
    case 0 =>
      assert s + " " == "= ";
      OpensWith("= ", tail);
    case 1 =>
      assert s + " " == "!= ";
      OpensWith("!= ", tail);
      Apart("!= ", tail, "= ", 0);
    case 2 =>
      assert s + " " == "< ";
      OpensWith("< ", tail);
      Apart("< ", tail, "= ", 0);
      Apart("< ", tail, "!= ", 0);
    case 3 =>
      assert s + " " == "<= ";
      OpensWith("<= ", tail);
      Apart("<= ", tail, "= ", 0);
      Apart("<= ", tail, "!= ", 0);
      Apart("<= ", tail, "< ", 1);
    case 4 =>
      assert s + " " == "> ";
      OpensWith("> ", tail);
      Apart("> ", tail, "= ", 0);
      Apart("> ", tail, "!= ", 0);
      Apart("> ", tail, "< ", 0);
      Apart("> ", tail, "<= ", 0);
    case _ =>
      assert s + " " == ">= ";
      OpensWith(">= ", tail);
      Apart(">= ", tail, "= ", 0);
      Apart(">= ", tail, "!= ", 0);
      Apart(">= ", tail, "< ", 0);
      Apart(">= ", tail, "<= ", 0);
      Apart(">= ", tail, "> ", 1);
  }

  lemma SpacedSymbol(s: string, rest: Str)
    requires Opens(rest, " ")
    ensures rest != [] && Ascii(s) + rest == Ascii(s + " ") + rest[1..]
  {}

  lemma ComparisonReads(field: Str, op: int, k: nat, rest: Str, ps: Parameters)
    requires PlainName(field) && Symbol(op).Some? && Ended(rest) && Reference(k) in ps
    ensures ReadComparison(field + Ascii(" ") + Ascii(Symbol(op).value) + Ascii(" $") + Reference(k) + rest, ps)
         == Got(Comparison(field, op, ps[Reference(k)]), rest)
  {
    hide Reference, PlainName, Symbol, ReadReference, ReadSymbol, ReadName, Skip, Opens;
    var t4 := Reference(k) + rest;
    var t3 := Ascii(" $") + t4;
    var t2 := Ascii(Symbol(op).value) + t3;
    var t1 := Ascii(" ") + t2;
    assert field + Ascii(" ") + Ascii(Symbol(op).value) + Ascii(" $") + Reference(k) + rest == field + t1;
    SpaceEnds(" ", t2);
    NameReads(field, t1);
    Skips(" ", t2);
    SpaceEnds(" $", t4);
    SymbolReads(op, t3);
    Skips(" $", t4);
    ReferenceReads(k, rest, ps);
  }

  lemma SpaceEnds(word: string, rest: Str)
    requires |word| > 0 && word[0] == ' '
    ensures Ended(Ascii(word) + rest) && Opens(Ascii(word) + rest, " ")
  {
    assert (Ascii(word) + rest)[0] == ' ' as int % 256;
  }

  lemma LeafReads(field: Str, op: int, value: Value, n: nat, rest: Str, ps: Parameters)
    requires FilterFault(Comparison(field, op, value)).Nothing? && Ended(rest)
    requires Reference(n) in ps && ps[Reference(n)] == value
    ensures ReadFilter(FilterText(Comparison(field, op, value), n) + rest, ps)
         == Got(Comparison(field, op, value), rest)
  {
    hide Reference, ReadComparison, ReadFilter, Ended, Symbol, Ascii;
    var after := Ascii(" ") + Ascii(Symbol(op).value) + Ascii(" $") + Reference(n) + rest;
    assert FilterText(Comparison(field, op, value), n) + rest == field + after;
    ComparisonReads(field, op, n, rest, ps);
    NameIsNoParen(field, after, ps);
  }

  lemma NameIsNoParen(field: Str, after: Str, ps: Parameters)
    requires PlainName(field)
    ensures ReadFilter(field + after, ps) == ReadComparison(field + after, ps)
  {
    hide ReadComparison, ReadJoint, Skip;
    assert (field + after)[0] == field[0];
  }

  /** The tree the caller built is the tree that is read. */
  lemma {:induction false} FilterReads(f: Filter, n: nat, rest: Str, ps: Parameters)
    requires FilterFault(f).Nothing? && Holds(ps, n, FilterValues(f)) && Ended(rest)
    ensures ReadFilter(FilterText(f, n) + rest, ps) == Got(f, rest)
    decreases f
  {
    hide Reference, ReadFilter, FilterText, Ended;
    match f
    case Comparison(field, op, value) =>
      assert Reference(n) in ps && ps[Reference(n)] == value;
      LeafReads(field, op, value, n, rest, ps);
    case And(l, r) => JunctionReads(f, l, " AND ", r, n, rest, ps);
    case Or(l, r) => JunctionReads(f, l, " OR ", r, n, rest, ps);
  }

  lemma {:induction false} JunctionReads(
    f: Filter, l: Filter, word: string, r: Filter, n: nat, rest: Str, ps: Parameters)
    requires FilterFault(f).Nothing? && Holds(ps, n, FilterValues(f)) && Ended(rest)
    requires (f == And(l, r) && word == " AND ") || (f == Or(l, r) && word == " OR ")
    ensures ReadFilter(FilterText(f, n) + rest, ps) == Got(f, rest)
    decreases f, 0
  {
    hide Reference, ReadFilter, FilterText, Opens, Ascii, Ended;
    var m := n + |FilterValues(l)|;
    assert Holds(ps, n, FilterValues(l)) by { HoldsParts(ps, n, FilterValues(l), FilterValues(r)); }
    assert Holds(ps, m, FilterValues(r)) by { HoldsParts(ps, n, FilterValues(l), FilterValues(r)); }
    var t3 := Ascii(")") + rest;
    var t2 := FilterText(r, m) + t3;
    var t1 := Ascii(word) + t2;
    var t0 := FilterText(l, n) + t1;
    assert FilterText(f, n) + rest == Ascii("(") + t0 by { JunctionText(f, l, word, r, n, rest); }
    SpaceEnds(word, t2);
    FilterReads(l, n, t1, ps);
    ClosingEnds(rest);
    FilterReads(r, m, t3, ps);
    JunctionStep(l, word, r, t0, t1, t2, t3, rest, ps);
  }

  lemma HoldsParts(ps: Parameters, n: nat, a: seq<Value>, b: seq<Value>)
    requires Holds(ps, n, a + b)
    ensures Holds(ps, n, a) && Holds(ps, n + |a|, b)
  {
    hide Reference;
    forall k | n <= k < n + |a| ensures Reference(k) in ps && ps[Reference(k)] == a[k - n] {
      assert (a + b)[k - n] == a[k - n];
    }
    forall k | n + |a| <= k < n + |a| + |b| ensures Reference(k) in ps && ps[Reference(k)] == b[k - n - |a|] {
      assert (a + b)[k - n] == b[k - n - |a|];
    }
  }

  lemma ClosingEnds(rest: Str)
    ensures Ended(Ascii(")") + rest)
  {
    assert (Ascii(")") + rest)[0] == ')' as int % 256;
  }

  lemma JunctionText(f: Filter, l: Filter, word: string, r: Filter, n: nat, rest: Str)
    requires FilterFault(f).Nothing?
    requires (f == And(l, r) && word == " AND ") || (f == Or(l, r) && word == " OR ")
    ensures FilterFault(l).Nothing? && FilterFault(r).Nothing?
    ensures FilterText(f, n) + rest
         == Ascii("(") + (FilterText(l,
                                     n) + (Ascii(word) + (FilterText(r, n + |FilterValues(l)|) + (Ascii(")") + rest))))
  {
    hide Ascii;
    var m := n + |FilterValues(l)|;
    Regroup(Ascii("("), FilterText(l, n), Ascii(word), FilterText(r, m), Ascii(")"), rest);
  }

  lemma Regroup(a: Str, b: Str, c: Str, d: Str, e: Str, f: Str)
    ensures a + b + c + d + e + f == a + (b + (c + (d + (e + f))))
  {}

  lemma JunctionStep(
    l: Filter, word: string, r: Filter, t0: Str, t1: Str, t2: Str, t3: Str, rest: Str, ps: Parameters)
    requires word == " AND " || word == " OR "
    requires t1 == Ascii(word) + t2 && t3 == Ascii(")") + rest
    requires ReadFilter(t0, ps) == Got(l, t1) && ReadFilter(t2, ps) == Got(r, t3)
    ensures ReadFilter(Ascii("(") + t0, ps) == Got(if word == " AND " then And(l, r) else Or(l, r), rest)
  {
    hide Ascii, Opens, ReadJoint, Skip, ReadComparison;
    OpensWith("(", t0);
    JointReads(word, t2);
    Skips(")", rest);
  }

  lemma JointReads(word: string, rest: Str)
    requires word == " AND " || word == " OR "
    ensures ReadJoint(Ascii(word) + rest) == Got(word == " AND ", rest)
  {
    hide Ascii, Opens;
    OpensWith(word, rest);
    if word == " OR " { Apart(" OR ", rest, " AND ", 1); }
  }

  // ---------- lists ----------

  /** What follows a part of a list: another part, or the text after the list. */
  predicate Separated(rest: Str) {
    rest != [] && (rest[0] == 0x2c || rest[0] == 0x20 || rest[0] == 0x3b)
  }

  ghost predicate ReadsAs<T(!new)>(one: Str -> Read<T>, part: Str, value: T) {
    forall rest: Str :: Separated(rest) ==> one(part + rest) == Got(value, rest)
  }

  lemma {:induction false} ListReads<T(!new)>(parts: seq<Str>, values: seq<T>, rest: Str, one: Str -> Read<T>)
    requires |parts| == |values| > 0
    requires forall i :: 0 <= i < |parts| ==> ReadsAs(one, parts[i], values[i])
    requires Separated(rest) && !Opens(rest, ", ")
    ensures ReadListed(Listed(parts) + rest, one) == Got(values, rest)
    decreases |parts|
  {
    hide Ascii, Opens, Separated;
    var tail := parts[1..];
    var t1 := More(tail) + rest;
    assert Listed(parts) + rest == parts[0] + t1;
    assert ReadsAs(one, parts[0], values[0]);
    if tail == [] {
      assert t1 == rest;
      assert [values[0]] == values;
    } else {
      var t2 := Listed(tail) + rest;
      assert t1 == Ascii(", ") + t2 by { Regroup3(Ascii(", "), tail[0], More(tail[1..]), rest); }
      CommaSeparates(t2);
      OpensWith(", ", t2);
      assert forall i :: 0 <= i < |tail| ==> tail[i] == parts[i + 1] && values[1..][i] == values[i + 1];
      ListReads(tail, values[1..], rest, one);
      assert [values[0]] + values[1..] == values;
      ListStep(parts[0] + t1, t1, t2, rest, values[0], values[1..], one);
    }
  }

  lemma Regroup3(a: Str, b: Str, c: Str, d: Str)
    ensures a + b + c + d == a + ((b + c) + d)
  {}

  lemma CommaSeparates(rest: Str)
    ensures Separated(Ascii(", ") + rest)
  {
    assert (Ascii(", ") + rest)[0] == ',' as int % 256;
  }

  lemma ListStep<T(!new)>(t: Str, t1: Str, t2: Str, rest: Str, first: T, more: seq<T>, one: Str -> Read<T>)
    requires one(t) == Got(first, t1) && |t1| <= |t|
    requires Opens(t1, ", ") && Past(t1, ", ") == t2
    requires ReadListed(t2, one) == Got(more, rest)
    ensures ReadListed(t, one) == Got([first] + more, rest)
  {
    hide Opens, Past;
  }

  lemma SeparatedEnds(rest: Str)
    requires Separated(rest)
    ensures Ended(rest)
  {}

  // ---------- projections and orderings ----------

  lemma FieldItemReads(name: Str, rest: Str)
    requires PlainName(name) && Separated(rest)
    ensures ReadItem(name + rest) == Got(Field(name), rest)
  {
    hide PlainName;
    SeparatedEnds(rest);
    NameReads(name, rest);
    NotAWindow(name, rest);
  }

  /** A field may be named `string`; a window is told by the two colons after it. */
  lemma NotAWindow(name: Str, rest: Str)
    requires PlainName(name) && Separated(rest)
    ensures !Opens(name + rest, "string::lines(")
  {
    var t := name + rest;
    assert t[|name|] == rest[0] && forall i :: 0 <= i < |name| ==> t[i] == name[i];
    if Opens(t, "string::lines(") { ColonsAfterString(t); }
  }

  lemma ColonsAfterString(t: Str)
    requires Opens(t, "string::lines(")
    ensures |t| > 6 && t[6] == 0x3a && forall i :: 0 <= i < 6 ==> IsNameByte(t[i])
  {
    assert forall i :: 0 <= i < 7 ==> t[i] == "string::lines("[i] as int % 256;
  }

  lemma WindowReads(name: Str, start: UInt64, count: UInt64, rest: Str)
    requires PlainName(name) && Separated(rest)
    ensures ReadItem(Lines3(name, start, count) + rest) == Got(Lines(name, start, count), rest)
  {
    hide Ascii, Itoa, PlainName, Opens, Skip, ReadName, ReadNumber, Past;
    var t7 := name + rest;
    var t6 := Ascii(") AS ") + t7;
    var t5 := Itoa(count) + t6;
    var t4 := Ascii(", ") + t5;
    var t3 := Itoa(start) + t4;
    var t2 := Ascii(", ") + t3;
    var t1 := name + t2;
    WindowText(name, start, count, rest);
    OpensWith("string::lines(", t1);
    CommaSeparates(t3);
    SeparatedEnds(t2);
    NameReads(name, t2);
    Skips(", ", t3);
    CommaSeparates(t5);
    SeparatedEnds(t4);
    ItoaReads(start, t4);
    Skips(", ", t5);
    ClosingCall(t7);
    ItoaReads(count, t6);
    Skips(") AS ", t7);
    SeparatedEnds(rest);
    NameReads(name, rest);
  }

  lemma ClosingCall(rest: Str)
    ensures Ended(Ascii(") AS ") + rest)
  {
    assert (Ascii(") AS ") + rest)[0] == ')' as int % 256;
  }

  lemma WindowText(name: Str, start: UInt64, count: UInt64, rest: Str)
    ensures Lines3(name, start, count) + rest
         == Ascii("string::lines(") + (name + (Ascii(", ") + (Itoa(start) + (Ascii(", ") + (Itoa(count)
            + (Ascii(") AS ") + (name + rest)))))))
  {
    hide Ascii, Itoa;
    Regroup8(
      Ascii("string::lines("), name, Ascii(", "), Itoa(start), Ascii(", "), Itoa(count), Ascii(") AS "), name, rest);
  }

  lemma Regroup8(a: Str, b: Str, c: Str, d: Str, e: Str, f: Str, g: Str, h: Str, i: Str)
    ensures a + b + c + d + e + f + g + h + i == a + (b + (c + (d + (e + (f + (g + (h + i)))))))
  {
    var left := a + b + c + d;
    assert left == a + (b + (c + d));
    Regroup(left, e, f, g, h, i);
    var right := e + (f + (g + (h + i)));
    assert left + right == a + (b + (c + (d + right)));
  }

  lemma ItemReads(item: Item)
    requires PlainName(item.name)
    ensures ReadsAs(ReadItem, ItemText(item), item)
  {
    hide ReadItem, PlainName, Lines3, Separated;
    forall rest: Str | Separated(rest) ensures ReadItem(ItemText(item) + rest) == Got(item, rest) {
      match item
      case Field(name) => FieldItemReads(name, rest);
      case Lines(name, start, count) => WindowReads(name, start, count, rest);
    }
  }

  lemma ItemsRead(items: seq<Item>, rest: Str)
    requires forall i :: 0 <= i < |items| ==> PlainName(items[i].name)
    requires Opens(rest, " FROM ")
    ensures ReadItems(ItemsText(items) + rest) == Got(items, rest)
  {
    hide ReadListed, ReadItem, Listed, ItemText;
    assert rest[0] == 0x20;
    if items == [] {
      OpensWith("*", rest);
    } else {
      forall i | 0 <= i < |items| ensures ReadsAs(ReadItem, ItemParts(items)[i], items[i]) {
        ItemReads(items[i]);
      }
      ListReads(ItemParts(items), items, rest, ReadItem);
      NoStar(items, rest);
    }
  }

  lemma NoStar(items: seq<Item>, rest: Str)
    requires items != [] && PlainName(items[0].name)
    ensures !Opens(ItemsText(items) + rest, "*")
  {
    var part := ItemText(items[0]);
    assert (ItemsText(items) + rest)[0] == part[0];
    assert items[0].Lines? ==> part[0] == 's' as int % 256;
  }

  lemma OrderingReads(o: Ordering)
    requires PlainName(o.field) && Direction(o.direction).Some?
    ensures ReadsAs(ReadOrdering, OrderText(o), o)
  {
    forall rest: Str | Separated(rest) ensures ReadOrdering(OrderText(o) + rest) == Got(o, rest) {
      OneOrderingReads(o, rest);
    }
  }

  lemma OneOrderingReads(o: Ordering, rest: Str)
    requires PlainName(o.field) && Direction(o.direction).Some?
    ensures ReadOrdering(OrderText(o) + rest) == Got(o, rest)
  {
    hide PlainName, Ascii, ReadOrdering, OrderText;
    var word := if o.direction == 0 then " ASC" else " DESC";
    OrderWords(o, word);
    Assoc(o.field, Ascii(word), rest);
    if o.direction == 0 { AscendingReads(o.field, rest); } else { DescendingReads(o.field, rest); }
  }

  lemma AscendingReads(field: Str, rest: Str)
    requires PlainName(field)
    ensures ReadOrdering(field + (Ascii(" ASC") + rest)) == Got(Ordering(field, 0), rest)
  {
    hide PlainName, Ascii, Opens, ReadName;
    SpaceEnds(" ASC", rest);
    NameReads(field, Ascii(" ASC") + rest);
    OpensWith(" ASC", rest);
  }

  lemma DescendingReads(field: Str, rest: Str)
    requires PlainName(field)
    ensures ReadOrdering(field + (Ascii(" DESC") + rest)) == Got(Ordering(field, 1), rest)
  {
    hide PlainName, Ascii, Opens, ReadName;
    SpaceEnds(" DESC", rest);
    NameReads(field, Ascii(" DESC") + rest);
    OpensWith(" DESC", rest);
    Apart(" DESC", rest, " ASC", 1);
  }

  lemma OrderWords(o: Ordering, word: string)
    requires Direction(o.direction).Some? && word == if o.direction == 0 then " ASC" else " DESC"
    ensures OrderText(o) == o.field + Ascii(word)
  {
    Assoc(o.field, Ascii(" "), Ascii(Direction(o.direction).value));
    assert Ascii(" ") + Ascii(Direction(o.direction).value) == Ascii(word);
  }

  // ---------- fields ----------

  lemma FieldReads(name: Str, sep: string, k: nat, ps: Parameters)
    requires PlainName(name) && (sep == ": $" || sep == " = $") && Reference(k) in ps
    ensures ReadsAs(FieldReader(sep, ps), FieldPart(name, sep, k), (name, ps[Reference(k)]))
  {
    hide ReadField, FieldPart, Reference, Separated, PlainName;
    forall rest: Str | Separated(rest)
      ensures ReadField(FieldPart(name, sep, k) + rest, sep, ps) == Got((name, ps[Reference(k)]), rest)
    {
      OneFieldReads(name, sep, k, ps, rest);
    }
  }

  lemma OneFieldReads(name: Str, sep: string, k: nat, ps: Parameters, rest: Str)
    requires PlainName(name) && (sep == ": $" || sep == " = $") && Reference(k) in ps && Separated(rest)
    ensures ReadField(FieldPart(name, sep, k) + rest, sep, ps) == Got((name, ps[Reference(k)]), rest)
  {
    hide Reference, PlainName, Ascii, ReadReference, ReadName, Skip;
    var t2 := Reference(k) + rest;
    var t1 := Ascii(sep) + t2;
    assert FieldPart(name, sep, k) + rest == name + t1;
    SeparatorEnds(sep, t2);
    NameReads(name, t1);
    Skips(sep, t2);
    SeparatedEnds(rest);
    ReferenceReads(k, rest, ps);
  }

  lemma SeparatorEnds(sep: string, rest: Str)
    requires sep == ": $" || sep == " = $"
    ensures Ended(Ascii(sep) + rest)
  {
    assert (Ascii(sep) + rest)[0] == sep[0] as int % 256;
  }

  ghost function Pairs(names: seq<Str>, fields: map<Str, Value>): seq<(Str, Value)>
    requires forall i :: 0 <= i < |names| ==> names[i] in fields
  {
    seq(|names|, i requires 0 <= i < |names| => (names[i], fields[names[i]]))
  }

  lemma {:induction false} FieldsOfPairs(names: seq<Str>, fields: map<Str, Value>)
    requires forall i :: 0 <= i < |names| ==> names[i] in fields
    ensures forall n :: n in FieldsOf(Pairs(names, fields)) <==> n in names
    ensures forall n :: n in FieldsOf(Pairs(names, fields)) ==> FieldsOf(Pairs(names, fields))[n] == fields[n]
  {
    if names != [] {
      assert Pairs(names, fields)[1..] == Pairs(names[1..], fields);
      FieldsOfPairs(names[1..], fields);
    }
  }

  lemma PartReads(fields: map<Str, Value>, sep: string, n: nat, ps: Parameters, i: nat)
    requires PlainNames(fields) && i < |fields| && (sep == ": $" || sep == " = $")
    requires Holds(ps, n, FieldValues(fields))
    ensures var names := Sorted(fields.Keys);
            i < |FieldParts(names, sep, n)|
            && ReadsAs(FieldReader(sep, ps), FieldParts(names, sep, n)[i], Pairs(names, fields)[i])
  {
    hide Reference, FieldReader, FieldPart, Sorted, PlainName, ReadsAs;
    var names := Sorted(fields.Keys);
    assert |names| == |fields.Keys| == |fields|;
    assert FieldValues(fields)[i] == fields[names[i]];
    assert Reference(n + i) in ps && ps[Reference(n + i)] == fields[names[i]];
    FieldReads(names[i], sep, n + i, ps);
  }

  lemma FieldsRead(fields: map<Str, Value>, sep: string, n: nat, rest: Str, ps: Parameters)
    requires PlainNames(fields) && |fields| > 0 && (sep == ": $" || sep == " = $")
    requires Holds(ps, n, FieldValues(fields))
    requires Separated(rest) && !Opens(rest, ", ")
    ensures ReadFields(Listed(FieldParts(Sorted(fields.Keys), sep, n)) + rest, sep, ps) == Got(fields, rest)
  {
    hide Reference, ReadListed, Listed, FieldReader, FieldPart, Separated, Opens, Sorted, PlainName, ReadsAs, FieldsOf;
    var names := Sorted(fields.Keys);
    var parts, pairs := FieldParts(names, sep, n), Pairs(names, fields);
    var one := FieldReader(sep, ps);
    forall i | 0 <= i < |parts| ensures ReadsAs(one, parts[i], pairs[i]) {
      PartReads(fields, sep, n, ps, i);
    }
    ListReads(parts, pairs, rest, one);
    FieldsOfPairs(names, fields);
    assert FieldsOf(pairs) == fields;
  }

  // ---------- clauses ----------

  const CLAUSES: seq<string> := [" WHERE ", " ORDER BY ", " START ", " LIMIT ", " STALENESS ", " ANSWERED BY ", ";"]

  /** The text goes on with clause k or a later one. */
  ghost predicate From(t: Str, k: nat) {
    exists j :: k <= j < |CLAUSES| && Opens(t, CLAUSES[j])
  }

  lemma Clause(k: nat, rest: Str)
    requires k < |CLAUSES|
    ensures From(Ascii(CLAUSES[k]) + rest, k)
  {
    OpensWith(CLAUSES[k], rest);
  }

  lemma Earlier(t: Str, k: nat)
    requires From(t, k + 1)
    ensures From(t, k)
  {}

  /** No clause begins as another does, so each is told from those that may follow it. */
  lemma LaterIsNot(t: Str, k: nat)
    requires From(t, k + 1) && k + 1 < |CLAUSES|
    ensures !Opens(t, CLAUSES[k]) && Separated(t) && !Opens(t, ", ")
  {
    hide Opens;
    var j :| k + 1 <= j < |CLAUSES| && Opens(t, CLAUSES[j]);
    var rest := Past(t, CLAUSES[j]);
    Apart(CLAUSES[j], rest, CLAUSES[k], if j == 6 then 0 else if k == 2 && j == 4 then 4 else 1);
    Apart(CLAUSES[j], rest, ", ", 0);
    assert t[0] == CLAUSES[j][0] as int % 256;
  }

  lemma WhereReads(f: Filter, rest: Str, ps: Parameters)
    requires f == NoFilter || FilterFault(f).Nothing?
    requires Holds(ps, 0, FilterValues(f)) && From(rest, 1)
    ensures ReadWhere(WhereText(f) + rest, ps) == Got(f, rest) && From(WhereText(f) + rest, 0)
  {
    hide Ascii, Opens, ReadFilter, FilterText, Holds, Separated, From;
    LaterIsNot(rest, 0);
    if f == NoFilter {
      Earlier(rest, 0);
      assert WhereText(f) + rest == rest;
    } else {
      var t1 := FilterText(f, 0) + rest;
      assert WhereText(f) + rest == Ascii(" WHERE ") + t1;
      Clause(0, t1);
      OpensWith(" WHERE ", t1);
      SeparatedEnds(rest);
      FilterReads(f, 0, rest, ps);
    }
  }

  lemma OrderByReads(order: seq<Ordering>, rest: Str)
    requires forall i :: 0 <= i < |order| ==> PlainName(order[i].field) && Direction(order[i].direction).Some?
    requires From(rest, 2)
    ensures ReadOrderBy(OrderByText(order) + rest) == Got(order, rest) && From(OrderByText(order) + rest, 1)
  {
    hide Ascii, Opens, ReadListed, Listed, ReadOrdering, OrderText, Separated, From, PlainName, Direction;
    LaterIsNot(rest, 1);
    if order == [] {
      Earlier(rest, 1);
      assert OrderByText(order) + rest == rest;
    } else {
      var parts := OrderParts(order);
      var t1 := Listed(parts) + rest;
      assert OrderByText(order) + rest == Ascii(" ORDER BY ") + t1;
      Clause(1, t1);
      OpensWith(" ORDER BY ", t1);
      forall i | 0 <= i < |order| ensures ReadsAs(ReadOrdering, parts[i], order[i]) {
        OrderingReads(order[i]);
      }
      ListReads(parts, order, rest, ReadOrdering);
    }
  }

  lemma CountReads(k: nat, n: Option<UInt64>, rest: Str)
    requires k == 2 || k == 3
    requires From(rest, k + 1)
    ensures ReadCount(CountText(CLAUSES[k], n) + rest, CLAUSES[k]) == Got(n, rest)
    ensures From(CountText(CLAUSES[k], n) + rest, k)
  {
    hide Ascii, Opens, Separated, From, ReadNumber, Itoa;
    LaterIsNot(rest, k);
    if n.Nothing? {
      Earlier(rest, k);
      assert CountText(CLAUSES[k], n) + rest == rest;
    } else {
      var t1 := Itoa(n.value) + rest;
      assert CountText(CLAUSES[k], n) + rest == Ascii(CLAUSES[k]) + t1;
      Clause(k, t1);
      OpensWith(CLAUSES[k], t1);
      SeparatedEnds(rest);
      ItoaReads(n.value, rest);
    }
  }

  lemma WordReads(k: nat, what: Str, rest: Str)
    requires k == 4 || k == 5
    requires AllNameBytes(what) && From(rest, k + 1)
    ensures ReadWord(WordText(CLAUSES[k], what) + rest, CLAUSES[k]) == Got(what, rest)
    ensures From(WordText(CLAUSES[k], what) + rest, k)
  {
    hide Ascii, Opens, Separated, From, AllNameBytes;
    LaterIsNot(rest, k);
    if what == [] {
      Earlier(rest, k);
      assert WordText(CLAUSES[k], what) + rest == rest;
    } else {
      var t1 := what + rest;
      assert WordText(CLAUSES[k], what) + rest == Ascii(CLAUSES[k]) + t1;
      Clause(k, t1);
      OpensWith(CLAUSES[k], t1);
      SeparatedEnds(rest);
      RunReads(what, rest);
    }
  }

  /** A span is digits and unit letters, so it ends where its run of name bytes does. */
  lemma {:induction false} SpanIsOneWord(t: Str)
    requires Spans.IsSpan(t)
    ensures AllNameBytes(t)
    decreases |t|
  {
    var piece, after := Spans.Cut(t);
    UnitIsOneWord(piece.unit);
    if after != [] { SpanIsOneWord(after); }
  }

  lemma UnitIsOneWord(unit: string)
    requires unit in Spans.UNITS
    ensures AllNameBytes(Ascii(unit))
  {}

  lemma AnswererIsOneWord(who: Str)
    requires who == [] || who == ANY || who == LEADER
    ensures AllNameBytes(who)
  {
    hide Ascii, AllNameBytes;
    NothingIsOneWord();
    WordBytes("ANY");
    WordBytes("LEADER");
  }

  lemma WordBytes(s: string)
    requires forall i :: 0 <= i < |s| ==> IsNameByte(s[i] as int % 256)
    ensures AllNameBytes(Ascii(s))
  {}

  // ---------- whole statements ----------

  lemma FromEnds(t: Str)
    requires From(t, 0)
    ensures Ended(t)
  {
    var j :| 0 <= j < |CLAUSES| && Opens(t, CLAUSES[j]);
    assert t[0] == CLAUSES[j][0] as int % 256;
  }

  function FromAnswerer(q: Query): Str {
    WordText(" ANSWERED BY ", q.answeredBy) + Ascii(";")
  }

  function FromStaleness(q: Query): Str {
    WordText(" STALENESS ", q.staleness) + FromAnswerer(q)
  }

  function FromLimit(q: Query): Str {
    CountText(" LIMIT ", q.limit) + FromStaleness(q)
  }

  function FromStart(q: Query): Str {
    CountText(" START ", q.start) + FromLimit(q)
  }

  function Tail(q: Query): Str
    requires SelectFault(q).Nothing?
  {
    NoOrderFault(q.order);
    WhereText(q.filter) + (OrderByText(q.order) + FromStart(q))
  }

  lemma SelectRegroups(q: Query)
    requires SelectFault(q).Nothing?
    ensures SelectText(q) == Ascii("SELECT ") + (ItemsText(q.items) + (Ascii(" FROM ") + (q.table + Tail(q))))
  {
    hide Ascii, ItemsText, WhereText, OrderByText, CountText, WordText;
    NoOrderFault(q.order);
    var head := Ascii("SELECT ") + ItemsText(q.items) + Ascii(" FROM ") + q.table;
    var start := head + WhereText(q.filter);
    Regroup(start, OrderByText(q.order), CountText(" START ", q.start), CountText(" LIMIT ", q.limit),
      WordText(" STALENESS ", q.staleness), WordText(" ANSWERED BY ", q.answeredBy) + Ascii(";"));
    assert SelectText(q) == start + OrderByText(q.order) + CountText(" START ", q.start) + CountText(" LIMIT ", q.limit)
      + WordText(" STALENESS ", q.staleness) + (WordText(" ANSWERED BY ", q.answeredBy) + Ascii(";"));
    assert SelectText(q) == head + Tail(q);
    Regroup3(Ascii("SELECT "), ItemsText(q.items), Ascii(" FROM ") + q.table, Tail(q));
  }

  lemma TailReads(q: Query, ps: Parameters)
    requires SelectFault(q).Nothing? && LegalQuery(q) && Holds(ps, 0, FilterValues(q.filter))
    ensures From(Tail(q), 0)
    ensures ReadTail(Tail(q), ps, q.table, q.items) == Got(q, Ascii(";"))
  {
    hide Ascii, WhereText, OrderByText, FromStart, FromLimit, FromStaleness, FromAnswerer, From, ReadWhere, ReadOrderBy,
      ReadCount, ReadWord, Holds, PlainName, FilterValues, FilterFault;
    NoOrderFault(q.order);
    LastClausesRead(q);
    OrderByReads(q.order, FromStart(q));
    WhereReads(q.filter, OrderByText(q.order) + FromStart(q), ps);
  }

  lemma LastClausesRead(q: Query)
    requires LegalQuery(q)
    ensures From(FromStart(q), 2)
    ensures ReadCount(FromStart(q), " START ") == Got(q.start, FromLimit(q))
    ensures ReadCount(FromLimit(q), " LIMIT ") == Got(q.limit, FromStaleness(q))
    ensures ReadWord(FromStaleness(q), " STALENESS ") == Got(q.staleness, FromAnswerer(q))
    ensures ReadWord(FromAnswerer(q), " ANSWERED BY ") == Got(q.answeredBy, Ascii(";"))
  {
    hide Ascii, CountText, WordText, From, ReadCount, ReadWord, PlainName, AllNameBytes, Spans.IsSpan, Opens;
    assert Ascii(";") == Ascii(";") + [];
    Clause(6, []);
    AnswererIsOneWord(q.answeredBy);
    WordReads(5, q.answeredBy, Ascii(";"));
    if q.staleness != [] { SpanIsOneWord(q.staleness); } else { NothingIsOneWord(); }
    WordReads(4, q.staleness, FromAnswerer(q));
    CountReads(3, q.limit, FromStaleness(q));
    CountReads(2, q.start, FromLimit(q));
  }

  lemma NothingIsOneWord()
    ensures AllNameBytes([])
  {}

  lemma SelectReads(q: Query, ps: Parameters)
    requires SelectFault(q).Nothing? && LegalQuery(q) && Holds(ps, 0, FilterValues(q.filter))
    ensures ReadStatement(SelectText(q), ps) == Some(Select(q))
  {
    hide Ascii, ItemsText, Tail, From, Opens, ReadItems, ReadName, Skip, ReadTail, Holds, PlainName, SelectText;
    SelectRegroups(q);
    TailReads(q, ps);
    FromEnds(Tail(q));
    var t2 := q.table + Tail(q);
    var t1 := Ascii(" FROM ") + t2;
    var t0 := ItemsText(q.items) + t1;
    OpensWith("SELECT ", t0);
    OpensWith(" FROM ", t2);
    ItemsRead(q.items, t1);
    Skips(" FROM ", t2);
    NameReads(q.table, Tail(q));
  }

  lemma ObjectReads(fields: map<Str, Value>, n: nat, rest: Str, ps: Parameters)
    requires PlainNames(fields) && |fields| > 0 && Holds(ps, n, FieldValues(fields))
    ensures ReadObject(ObjectText(fields, n) + rest, ps) == Got(fields, rest)
  {
    hide Ascii, Listed, FieldParts, Sorted, ReadFields, Skip, Opens, Separated, Holds, FieldValues;
    var t2 := Ascii(" }") + rest;
    var t1 := Listed(FieldParts(Sorted(fields.Keys), ": $", n)) + t2;
    assert ObjectText(fields, n) + rest == Ascii("{ ") + t1;
    Skips("{ ", t1);
    BraceSeparates(rest);
    FieldsRead(fields, ": $", n, t2, ps);
    Skips(" }", rest);
  }

  lemma BraceSeparates(rest: Str)
    ensures Separated(Ascii(" }") + rest) && !Opens(Ascii(" }") + rest, ", ")
  {
    assert (Ascii(" }") + rest)[0] == ' ' as int % 256;
    Apart(" }", rest, ", ", 0);
  }

  /** A record's identity, and what comes after it. */
  lemma IdentityReads(k: nat, word: string, rest: Str, ps: Parameters)
    requires (word == " = " || word == " SET " || word == ";") && Reference(k) in ps
    ensures ReadReference(Reference(k) + (Ascii(word) + rest), ps) == Got(ps[Reference(k)], Ascii(word) + rest)
  {
    hide Reference;
    assert (Ascii(word) + rest)[0] == word[0] as int % 256;
    ReferenceReads(k, Ascii(word) + rest, ps);
  }

  lemma TableReads(table: Str, word: string, rest: Str)
    requires PlainName(table) && (word == ":$" || word == " = ")
    ensures ReadName(table + (Ascii(word) + rest)) == Got(table, Ascii(word) + rest)
  {
    hide PlainName;
    assert (Ascii(word) + rest)[0] == word[0] as int % 256;
    NameReads(table, Ascii(word) + rest);
  }

  lemma CreateRecordReads(table: Str, id: Value, fields: map<Str, Value>, ps: Parameters)
    requires PlainName(table) && PlainNames(fields) && |fields| > 0 && Holds(ps, 0, [id] + FieldValues(fields))
    ensures ReadStatement(Script(CreateRecord(table, id, fields)), ps) == Some(CreateRecord(table, id, fields))
  {
    hide Ascii, ObjectText, ReadName, ReadReference, ReadObject, Skip, Opens, Reference, PlainName, FieldValues;
    HoldsParts(ps, 0, [id], FieldValues(fields));
    var t4 := ObjectText(fields, 1) + Ascii(";");
    var t3 := Ascii(" = ") + t4;
    var t2 := Reference(0) + t3;
    var t1 := Ascii(":$") + t2;
    var t0 := table + t1;
    assert Script(CreateRecord(table, id, fields)) == Ascii("CREATE ") + t0 by {
      Regroup(Ascii("CREATE ") + table, Ascii(":$"), Reference(0), Ascii(" = "), ObjectText(fields, 1), Ascii(";"));
    }
    CreateOpens(t0);
    TableReads(table, ":$", t2);
    OpensWith(":$", t2);
    IdentityReads(0, " = ", t4, ps);
    Skips(" = ", t4);
    ObjectReads(fields, 1, Ascii(";"), ps);
  }

  lemma CreateOpens(rest: Str)
    ensures var t := Ascii("CREATE ") + rest; !Opens(t, "SELECT ") && Opens(t, "CREATE ") && Past(t, "CREATE ") == rest
  {
    Apart("CREATE ", rest, "SELECT ", 0);
    OpensWith("CREATE ", rest);
  }

  lemma CreateInTableReads(table: Str, fields: map<Str, Value>, ps: Parameters)
    requires PlainName(table) && PlainNames(fields) && |fields| > 0 && Holds(ps, 0, FieldValues(fields))
    ensures ReadStatement(Script(CreateInTable(table, fields)), ps) == Some(CreateInTable(table, fields))
  {
    hide Ascii, ObjectText, ReadName, ReadReference, ReadObject, Skip, Opens, Reference, PlainName, FieldValues, Holds;
    var t2 := ObjectText(fields, 0) + Ascii(";");
    var t1 := Ascii(" = ") + t2;
    var t0 := table + t1;
    assert Script(CreateInTable(table, fields)) == Ascii("CREATE ") + t0;
    CreateOpens(t0);
    TableReads(table, " = ", t2);
    Apart(" = ", t2, ":$", 0);
    Skips(" = ", t2);
    ObjectReads(fields, 0, Ascii(";"), ps);
  }

  lemma UpdateText(table: Str, id: Value, fields: map<Str, Value>, parts: Str)
    requires |fields| > 0 && parts == Listed(FieldParts(Sorted(fields.Keys), " = $", 1))
    ensures Script(UpdateRecord(table, id, fields))
         == Ascii("UPDATE ") + (table + (Ascii(":$") + (Reference(0) + (Ascii(" SET ") + (parts + Ascii(";"))))))
  {
    hide Ascii, Listed, FieldParts, Sorted, Reference;
    Regroup(Ascii("UPDATE ") + table, Ascii(":$"), Reference(0), Ascii(" SET "), parts, Ascii(";"));
    Assoc(Ascii("UPDATE "), table, Ascii(":$") + (Reference(0) + (Ascii(" SET ") + (parts + Ascii(";")))));
  }

  lemma UpdateReads(table: Str, id: Value, fields: map<Str, Value>, ps: Parameters)
    requires PlainName(table) && PlainNames(fields) && |fields| > 0 && Holds(ps, 0, [id] + FieldValues(fields))
    ensures ReadStatement(Script(UpdateRecord(table, id, fields)), ps) == Some(UpdateRecord(table, id, fields))
  {
    hide Ascii, Listed, FieldParts, Sorted, ReadName, ReadReference, ReadFields, Skip, Opens, Reference, PlainName,
      FieldValues, Script;
    HoldsParts(ps, 0, [id], FieldValues(fields));
    var parts := Listed(FieldParts(Sorted(fields.Keys), " = $", 1));
    var t4 := parts + Ascii(";");
    var t3 := Ascii(" SET ") + t4;
    var t2 := Reference(0) + t3;
    var t1 := Ascii(":$") + t2;
    var t0 := table + t1;
    assert Script(UpdateRecord(table, id, fields)) == Ascii("UPDATE ") + t0 by { UpdateText(table, id, fields, parts); }
    Apart("UPDATE ", t0, "SELECT ", 0);
    Apart("UPDATE ", t0, "CREATE ", 0);
    OpensWith("UPDATE ", t0);
    TableReads(table, ":$", t2);
    Skips(":$", t2);
    IdentityReads(0, " SET ", t4, ps);
    Skips(" SET ", t4);
    SemicolonSeparates();
    FieldsRead(fields, " = $", 1, Ascii(";"), ps);
  }

  lemma SemicolonSeparates()
    ensures Separated(Ascii(";")) && !Opens(Ascii(";"), ", ")
  {
    assert Ascii(";")[0] == ';' as int % 256;
  }

  lemma DeleteReads(table: Str, id: Value, ps: Parameters)
    requires PlainName(table) && Holds(ps, 0, [id])
    ensures ReadStatement(Script(DeleteRecord(table, id)), ps) == Some(DeleteRecord(table, id))
  {
    hide Ascii, ReadName, ReadReference, Skip, Opens, Reference, PlainName;
    var t2 := Reference(0) + (Ascii(";") + []);
    var t1 := Ascii(":$") + t2;
    var t0 := table + t1;
    assert Ascii(";") + [] == Ascii(";");
    assert Script(DeleteRecord(table, id)) == Ascii("DELETE ") + t0;
    Apart("DELETE ", t0, "SELECT ", 0);
    Apart("DELETE ", t0, "CREATE ", 0);
    Apart("DELETE ", t0, "UPDATE ", 0);
    OpensWith("DELETE ", t0);
    TableReads(table, ":$", t2);
    Skips(":$", t2);
    IdentityReads(0, ";", [], ps);
  }

  /**
   Whatever a builder renders, its script and parameters are the script and parameters of that statement
   and of no other: the table, the items and windows, the exact tree of ANDs and ORs with each value in
   its place, the orderings, and each clause.
   */
  lemma StatementReads(s: Statement)
    requires Legal(s) && Faults(s).Nothing?
    ensures ReadStatement(Render(s).script, Render(s).parameters) == Some(s)
  {
    hide ReadStatement, Script, Reference, PlainName, PlainNames, LegalQuery, SelectFault, FilterValues, FieldValues;
    BindingsAre(BoundValues(s));
    var ps := Render(s).parameters;
    assert Holds(ps, 0, BoundValues(s));
    match s
    case Select(q) => SelectScript(q); SelectReads(q, ps);
    case CreateRecord(table, id, fields) => CreateRecordReads(table, id, fields, ps);
    case CreateInTable(table, fields) => CreateInTableReads(table, fields, ps);
    case UpdateRecord(table, id, fields) => UpdateReads(table, id, fields, ps);
    case DeleteRecord(table, id) => DeleteReads(table, id, ps);
  }

  lemma SelectScript(q: Query)
    requires SelectFault(q).Nothing?
    ensures Script(Select(q)) == SelectText(q)
  {
    hide SelectText;
  }

  lemma RenderingsAreUnique(s: Statement, t: Statement)
    requires Legal(s) && Legal(t) && Faults(s).Nothing? && Faults(t).Nothing?
    requires Render(s) == Render(t)
    ensures s == t
  {
    hide ReadStatement, Script, Legal, Faults;
    StatementReads(s);
    StatementReads(t);
  }
}
