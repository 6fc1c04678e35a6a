/** What every rendered script is like: its one semicolon, its references in order, and no caller's value in it. */
module ScriptLaws {
  import opened Words
  import opened Values
  import opened Texts
  import opened Statements
  import L = StatementLaws
  import Spans

  /** The name after each dollar sign, in the order of the text. */
  function Marks(t: Str): seq<Str> {
    if t == [] then []
    else if t[0] == 0x24 then [t[1..][..Run(t[1..])]] + Marks(t[1..])
    else Marks(t[1..])
  }

  predicate NoSemicolon(t: Str) {
    forall i :: 0 <= i < |t| ==> t[i] != 0x3b
  }

  predicate Harmless(t: Str) {
    NoSemicolon(t) && forall i :: 0 <= i < |t| ==> t[i] != 0x24
  }

  predicate HarmlessWord(s: string) {
    forall i :: 0 <= i < |s| ==> s[i] as int % 256 != 0x3b && s[i] as int % 256 != 0x24
  }

  lemma Literal(s: string)
    requires HarmlessWord(s)
    ensures Harmless(Ascii(s))
  {}

  lemma NamesAreHarmless(t: Str)
    requires AllNameBytes(t)
    ensures Harmless(t)
  {}

  lemma BothHarmless(a: Str, b: Str)
    requires Harmless(a) && Harmless(b)
    ensures Harmless(a + b)
  {}

  lemma {:induction false} MarksSkip(a: Str, rest: Str)
    requires Harmless(a)
    ensures Marks(a + rest) == Marks(rest)
    decreases |a|
  {
    if a == [] {
      assert a + rest == rest;
    } else {
      assert (a + rest)[0] == a[0] && (a + rest)[1..] == a[1..] + rest;
      MarksSkip(a[1..], rest);
    }
  }

  lemma MarkedReference(k: nat, rest: Str)
    requires Ended(rest)
    ensures Marks([0x24] + Reference(k) + rest) == [Reference(k)] + Marks(rest)
  {
    hide Reference;
    var t := [0x24] + Reference(k) + rest;
    L.ReferenceIsName(k);
    assert t[1..] == Reference(k) + rest;
    RunReads(Reference(k), rest);
    NamesAreHarmless(Reference(k));
    MarksSkip(Reference(k), rest);
  }

  /** Text without a semicolon that makes these references, whatever ends it. */
  ghost predicate Makes(t: Str, marks: seq<Str>) {
    NoSemicolon(t) && forall rest: Str :: Ended(rest) ==> Marks(t + rest) == marks + Marks(rest)
  }

  lemma HarmlessMakesNothing(t: Str)
    requires Harmless(t)
    ensures Makes(t, [])
  {
    hide Marks;
    forall rest: Str | Ended(rest) ensures Marks(t + rest) == [] + Marks(rest) { MarksSkip(t, rest); }
  }

  lemma ReferenceMakesOne(k: nat)
    ensures Makes([0x24] + Reference(k), [Reference(k)])
  {
    hide Marks, Reference;
    L.ReferenceIsName(k);
    forall rest: Str | Ended(rest) ensures Marks([0x24] + Reference(k) + rest) == [Reference(k)] + Marks(rest) {
      MarkedReference(k, rest);
    }
  }

  lemma AfterHarmless(a: Str, b: Str, marks: seq<Str>)
    requires Harmless(a) && Makes(b, marks)
    ensures Makes(a + b, marks)
  {
    hide Marks;
    forall rest: Str | Ended(rest) ensures Marks(a + b + rest) == marks + Marks(rest) {
      Assoc(a, b, rest);
      MarksSkip(a, b + rest);
    }
  }

  lemma Together(a: Str, ma: seq<Str>, b: Str, mb: seq<Str>)
    requires Makes(a, ma) && Makes(b, mb) && b != [] && !IsNameByte(b[0])
    ensures Makes(a + b, ma + mb)
  {
    hide Marks, IsNameByte;
    forall rest: Str | Ended(rest) ensures Marks(a + b + rest) == ma + mb + Marks(rest) {
      Assoc(a, b, rest);
      assert (b + rest)[0] == b[0];
      assert ma + (mb + Marks(rest)) == ma + mb + Marks(rest);
    }
  }

  lemma ReferencesJoin(n: nat, a: nat, b: nat)
    ensures References(n, a + b) == References(n, a) + References(n + a, b)
  {
    hide Reference;
  }

  // ---------- filters ----------

  lemma SymbolIsHarmless(op: int)
    requires Symbol(op).Some?
    ensures HarmlessWord(Symbol(op).value)
  {}

  lemma {:induction false} FilterMakes(f: Filter, n: nat)
    requires FilterFault(f).Nothing?
    ensures Makes(FilterText(f, n), References(n, |FilterValues(f)|))
    decreases f
  {
    hide Reference, Ascii, Makes;
    match f
    case Comparison(field, op, _) =>
      var head := field + Ascii(" ") + Ascii(Symbol(op).value) + Ascii(" ");
      assert FilterText(f, n) == head + ([0x24] + Reference(n)) by { Dollar(field, op, n); }
      NamesAreHarmless(field);
      SymbolIsHarmless(op);
      Literal(" ");
      Literal(Symbol(op).value);
      ReferenceMakesOne(n);
      AfterHarmless(head, [0x24] + Reference(n), [Reference(n)]);
      assert References(n, 1) == [Reference(n)];
    case And(l, r) => JunctionMakes(f, l, " AND ", r, n);
    case Or(l, r) => JunctionMakes(f, l, " OR ", r, n);
  }

  lemma Dollar(field: Str, op: int, n: nat)
    requires Symbol(op).Some?
    ensures field + Ascii(" ") + Ascii(Symbol(op).value) + Ascii(" $") + Reference(n)
         == field + Ascii(" ") + Ascii(Symbol(op).value) + Ascii(" ") + ([0x24] + Reference(n))
  {
    hide Reference;
    assert Ascii(" $") == Ascii(" ") + [0x24];
  }

  lemma {:induction false} JunctionMakes(f: Filter, l: Filter, word: string, r: Filter, n: nat)
    requires f == And(l, r) || f == Or(l, r)
    requires FilterFault(l).Nothing? && FilterFault(r).Nothing? && (word == " AND " || word == " OR ")
    ensures Makes(
      Ascii("(") + FilterText(l, n) + Ascii(word) + FilterText(r, n + |FilterValues(l)|) + Ascii(")"),
      References(n, |FilterValues(l) + FilterValues(r)|))
    decreases f, 0
  {
    hide FilterText, Makes, Reference;
    var m := n + |FilterValues(l)|;
    var ml, mr := References(n, |FilterValues(l)|), References(m, |FilterValues(r)|);
    FilterMakes(l, n);
    FilterMakes(r, m);
    Literal("(");
    Literal(word);
    Literal(")");
    AfterHarmless(Ascii("("), FilterText(l, n), ml);
    AfterHarmless(Ascii(word), FilterText(r, m), mr);
    assert (Ascii(word) + FilterText(r, m))[0] == ' ' as int % 256;
    Together(Ascii("(") + FilterText(l, n), ml, Ascii(word) + FilterText(r, m), mr);
    HarmlessMakesNothing(Ascii(")"));
    assert Ascii(")")[0] == ')' as int % 256;
    Together(Ascii("(") + FilterText(l, n) + (Ascii(word) + FilterText(r, m)), ml + mr, Ascii(")"), []);
    Assoc(Ascii("(") + FilterText(l, n), Ascii(word), FilterText(r, m));
    ReferencesJoin(n, |FilterValues(l)|, |FilterValues(r)|);
    assert ml + mr + [] == ml + mr;
  }

  // ---------- fields ----------

  lemma PartMakes(name: Str, sep: string, k: nat)
    requires PlainName(name) && (sep == ": $" || sep == " = $")
    ensures Makes(FieldPart(name, sep, k), [Reference(k)])
  {
    hide Reference, Makes, Ascii;
    var head := if sep == ": $" then ": " else " = ";
    assert Ascii(sep) == Ascii(head) + [0x24] by { assert sep == head + "$"; DollarWord(head); }
    assert FieldPart(name, sep, k) == name + Ascii(head) + ([0x24] + Reference(k));
    NamesAreHarmless(name);
    Literal(head);
    ReferenceMakesOne(k);
    AfterHarmless(name + Ascii(head), [0x24] + Reference(k), [Reference(k)]);
  }

  lemma DollarWord(head: string)
    ensures Ascii(head + "$") == Ascii(head) + [0x24]
  {}

  lemma {:induction false} MoreMake(names: seq<Str>, sep: string, n: nat)
    requires (forall i :: 0 <= i < |names| ==> PlainName(names[i])) && (sep == ": $" || sep == " = $")
    ensures Makes(More(FieldParts(names, sep, n)), References(n, |names|))
    ensures names != [] ==> Ended(More(FieldParts(names, sep, n)))
    decreases |names|
  {
    hide Reference, Makes, PlainName, FieldPart;
    var parts := FieldParts(names, sep, n);
    if names == [] {
      HarmlessMakesNothing([]);
      assert References(n, 0) == [] && parts == [];
    } else {
      PartMakes(names[0], sep, n);
      Literal(", ");
      AfterHarmless(Ascii(", "), parts[0], [Reference(n)]);
      MoreMake(names[1..], sep, n + 1);
      assert parts[1..] == FieldParts(names[1..], sep, n + 1);
      ReferencesJoin(n, 1, |names| - 1);
      assert References(n, 1) == [Reference(n)];
      assert (Ascii(", ") + parts[0])[0] == ',' as int % 256;
      if |names| == 1 {
        assert More(parts) == Ascii(", ") + parts[0] + [];
        assert Ascii(", ") + parts[0] + [] == Ascii(", ") + parts[0];
        assert References(n, 1) + References(n + 1, 0) == References(n, 1);
      } else {
        MoreStarts(parts[1..]);
        Together(Ascii(", ") + parts[0], [Reference(n)], More(parts[1..]), References(n + 1, |names| - 1));
      }
    }
  }

  lemma MoreStarts(parts: seq<Str>)
    requires parts != []
    ensures More(parts) != [] && !IsNameByte(More(parts)[0])
  {
    assert (Ascii(", ") + parts[0] + More(parts[1..]))[0] == ',' as int % 256;
  }

  lemma ListMakes(names: seq<Str>, sep: string, n: nat)
    requires names != [] && (forall i :: 0 <= i < |names| ==> PlainName(names[i])) && (sep == ": $" || sep == " = $")
    ensures Makes(Listed(FieldParts(names, sep, n)), References(n, |names|))
  {
    hide Reference, Makes, PlainName, FieldPart, More;
    var parts := FieldParts(names, sep, n);
    PartMakes(names[0], sep, n);
    MoreMake(names[1..], sep, n + 1);
    assert parts[1..] == FieldParts(names[1..], sep, n + 1);
    ReferencesJoin(n, 1, |names| - 1);
    assert References(n, 1) == [Reference(n)];
    if |names| == 1 {
      assert More(parts[1..]) == [] by { assert parts[1..] == []; MoreOfNothing(); }
      assert parts[0] + [] == parts[0];
    } else {
      MoreStarts(parts[1..]);
      Together(parts[0], [Reference(n)], More(parts[1..]), References(n + 1, |names| - 1));
    }
  }

  // ---------- whole scripts ----------

  /** A script: harmless text but for its references, and then the semicolon. */
  ghost predicate Proper(script: Str, marks: seq<Str>) {
    exists text: Str :: script == text + Ascii(";") && Makes(text, marks)
  }

  lemma ProperReads(script: Str, marks: seq<Str>)
    requires Proper(script, marks)
    ensures Marks(script) == marks
    ensures script != [] && script[|script| - 1] == 0x3b
    ensures forall i :: 0 <= i < |script| - 1 ==> script[i] != 0x3b
  {
    hide Marks;
    var text: Str :| script == text + Ascii(";") && Makes(text, marks);
    assert Ascii(";") == [0x3b];
    assert Ended(Ascii(";"));
    NoMarksInSemicolon();
    assert marks + [] == marks;
    assert forall i :: 0 <= i < |text| ==> script[i] == text[i];
  }

  lemma NoMarksInSemicolon()
    ensures Marks([0x3b]) == []
  {}

  lemma ItemsAreHarmless(items: seq<Item>)
    requires forall i :: 0 <= i < |items| ==> PlainName(items[i].name)
    ensures Harmless(ItemsText(items))
  {
    hide Harmless, PlainName, ItemText, Listed;
    if items == [] {
      Literal("*");
    } else {
      forall i | 0 <= i < |items| ensures Harmless(ItemParts(items)[i]) { ItemIsHarmless(items[i]); }
      ListIsHarmless(ItemParts(items));
    }
  }

  lemma ItemIsHarmless(item: Item)
    requires PlainName(item.name)
    ensures Harmless(ItemText(item))
  {
    hide Harmless, Ascii, Itoa;
    NamesAreHarmless(item.name);
    if item.Lines? {
      NumberReads(item.start);
      NumberReads(item.count);
      NamesAreHarmless(Itoa(item.start));
      NamesAreHarmless(Itoa(item.count));
      Literal("string::lines(");
      Literal(", ");
      Literal(") AS ");
      var t1 := Ascii("string::lines(") + item.name;
      BothHarmless(Ascii("string::lines("), item.name);
      BothHarmless(t1, Ascii(", "));
      BothHarmless(t1 + Ascii(", "), Itoa(item.start));
      var t2 := t1 + Ascii(", ") + Itoa(item.start);
      BothHarmless(t2, Ascii(", "));
      BothHarmless(t2 + Ascii(", "), Itoa(item.count));
      var t3 := t2 + Ascii(", ") + Itoa(item.count);
      BothHarmless(t3, Ascii(") AS "));
      BothHarmless(t3 + Ascii(") AS "), item.name);
    }
  }

  lemma {:induction false} MoreIsHarmless(parts: seq<Str>)
    requires forall i :: 0 <= i < |parts| ==> Harmless(parts[i])
    ensures Harmless(More(parts))
    decreases |parts|
  {
    hide Harmless, Ascii;
    if parts == [] {
      NothingIsHarmless();
    } else {
      Literal(", ");
      BothHarmless(Ascii(", "), parts[0]);
      MoreIsHarmless(parts[1..]);
      BothHarmless(Ascii(", ") + parts[0], More(parts[1..]));
    }
  }

  lemma NothingIsHarmless()
    ensures Harmless([])
  {}

  lemma ListIsHarmless(parts: seq<Str>)
    requires forall i :: 0 <= i < |parts| ==> Harmless(parts[i])
    ensures Harmless(Listed(parts))
  {
    hide Harmless, More;
    if parts == [] {
      NothingIsHarmless();
    } else {
      MoreIsHarmless(parts[1..]);
      BothHarmless(parts[0], More(parts[1..]));
    }
  }

  lemma OrderIsHarmless(order: seq<Ordering>)
    requires forall i :: 0 <= i < |order| ==> PlainName(order[i].field) && Direction(order[i].direction).Some?
    ensures Harmless(OrderByText(order)) && (OrderByText(order) == [] || OrderByText(order)[0] == 0x20)
  {
    hide Harmless, PlainName, Direction, Listed, OrderText;
    if order == [] {
      NothingIsHarmless();
    } else {
      forall i | 0 <= i < |order| ensures Harmless(OrderParts(order)[i]) { OneOrderIsHarmless(order[i]); }
      ListIsHarmless(OrderParts(order));
      Literal(" ORDER BY ");
      BothHarmless(Ascii(" ORDER BY "), Listed(OrderParts(order)));
    }
  }

  lemma OneOrderIsHarmless(o: Ordering)
    requires PlainName(o.field) && Direction(o.direction).Some?
    ensures Harmless(OrderText(o))
  {
    hide Harmless, Ascii;
    NamesAreHarmless(o.field);
    Literal(" ");
    Literal(Direction(o.direction).value);
    BothHarmless(o.field, Ascii(" "));
    BothHarmless(o.field + Ascii(" "), Ascii(Direction(o.direction).value));
  }

  lemma CountIsHarmless(word: string, n: Option<UInt64>)
    requires HarmlessWord(word) && |word| > 0 && word[0] == ' '
    ensures Harmless(CountText(word, n)) && (CountText(word, n) == [] || CountText(word, n)[0] == 0x20)
  {
    hide Harmless, Itoa;
    if n.Some? {
      NumberReads(n.value);
      NamesAreHarmless(Itoa(n.value));
      Literal(word);
      BothHarmless(Ascii(word), Itoa(n.value));
    } else {
      NothingIsHarmless();
    }
  }

  lemma WordIsHarmless(word: string, what: Str)
    requires HarmlessWord(word) && |word| > 0 && word[0] == ' ' && AllNameBytes(what)
    ensures Harmless(WordText(word, what)) && (WordText(word, what) == [] || WordText(word, what)[0] == 0x20)
  {
    hide Harmless;
    if what != [] {
      NamesAreHarmless(what);
      Literal(word);
      BothHarmless(Ascii(word), what);
    } else {
      NothingIsHarmless();
    }
  }

  /** Text that is harmless and ends what stands before it. */
  predicate Clauses(t: Str) {
    Harmless(t) && (t == [] || t[0] == 0x20)
  }

  lemma BothClauses(a: Str, b: Str)
    requires Clauses(a) && Clauses(b)
    ensures Clauses(a + b)
  {
    BothHarmless(a, b);
  }

  ghost function AfterWhere(q: Query): Str
    requires SelectFault(q).Nothing?
  {
    NoOrderFault(q.order);
    OrderByText(q.order) + (CountText(" START ", q.start) + (CountText(" LIMIT ", q.limit)
    + (WordText(" STALENESS ", q.staleness) + WordText(" ANSWERED BY ", q.answeredBy))))
  }

  lemma AfterWhereIsHarmless(q: Query)
    requires SelectFault(q).Nothing? && LegalQuery(q)
    ensures Clauses(AfterWhere(q))
  {
    hide Harmless, PlainName, OrderByText, CountText, WordText, Spans.IsSpan, AllNameBytes, Direction, Clauses;
    NoOrderFault(q.order);
    OrderIsHarmless(q.order);
    CountIsHarmless(" START ", q.start);
    CountIsHarmless(" LIMIT ", q.limit);
    if q.staleness != [] { L.SpanIsOneWord(q.staleness); } else { L.NothingIsOneWord(); }
    L.AnswererIsOneWord(q.answeredBy);
    WordIsHarmless(" STALENESS ", q.staleness);
    WordIsHarmless(" ANSWERED BY ", q.answeredBy);
    var t5 := WordText(" STALENESS ", q.staleness) + WordText(" ANSWERED BY ", q.answeredBy);
    BothClauses(WordText(" STALENESS ", q.staleness), WordText(" ANSWERED BY ", q.answeredBy));
    BothClauses(CountText(" LIMIT ", q.limit), t5);
    BothClauses(CountText(" START ", q.start), CountText(" LIMIT ", q.limit) + t5);
    BothClauses(OrderByText(q.order), CountText(" START ", q.start) + (CountText(" LIMIT ", q.limit) + t5));
  }

  lemma SelectParts(q: Query)
    requires SelectFault(q).Nothing?
    ensures Script(Select(q))
         == Ascii("SELECT ") + ItemsText(q.items) + Ascii(" FROM ") + q.table + WhereText(q.filter) + AfterWhere(q)
            + Ascii(";")
  {
    hide Ascii, ItemsText, WhereText, OrderByText, CountText, WordText;
    NoOrderFault(q.order);
    var start := Ascii("SELECT ") + ItemsText(q.items) + Ascii(" FROM ") + q.table + WhereText(q.filter);
    L.Regroup(start, OrderByText(q.order), CountText(" START ", q.start), CountText(" LIMIT ", q.limit),
      WordText(" STALENESS ", q.staleness), WordText(" ANSWERED BY ", q.answeredBy));
  }

  lemma HeadIsHarmless(q: Query)
    requires LegalQuery(q)
    ensures Harmless(Ascii("SELECT ") + ItemsText(q.items) + Ascii(" FROM ") + q.table)
  {
    hide Harmless, PlainName, ItemsText, Ascii, Spans.IsSpan;
    ItemsAreHarmless(q.items);
    NameBytes(q.table);
    NamesAreHarmless(q.table);
    Literal("SELECT ");
    Literal(" FROM ");
    var h1 := Ascii("SELECT ") + ItemsText(q.items);
    BothHarmless(Ascii("SELECT "), ItemsText(q.items));
    BothHarmless(h1, Ascii(" FROM "));
    BothHarmless(h1 + Ascii(" FROM "), q.table);
  }

  lemma SelectIsProper(q: Query)
    requires SelectFault(q).Nothing? && LegalQuery(q)
    ensures Proper(Script(Select(q)), References(0, |FilterValues(q.filter)|))
  {
    hide Harmless, Makes, LegalQuery, ItemsText, FilterText, AfterWhere, Ascii, Script, References;
    SelectParts(q);
    HeadIsHarmless(q);
    AfterWhereIsHarmless(q);
    var head := Ascii("SELECT ") + ItemsText(q.items) + Ascii(" FROM ") + q.table;
    var marks := References(0, |FilterValues(q.filter)|);
    WhereMakes(q.filter);
    AfterHarmless(head, WhereText(q.filter), marks);
    var text := head + WhereText(q.filter) + AfterWhere(q);
    HarmlessMakesNothing(AfterWhere(q));
    assert marks + [] == marks;
    if AfterWhere(q) == [] {
      assert text == head + WhereText(q.filter);
    } else {
      Together(head + WhereText(q.filter), marks, AfterWhere(q), []);
    }
    assert Script(Select(q)) == text + Ascii(";");
  }

  lemma WhereMakes(f: Filter)
    requires f == NoFilter || FilterFault(f).Nothing?
    ensures Makes(WhereText(f), References(0, |FilterValues(f)|))
  {
    hide Harmless, Makes, FilterText, Ascii;
    if f == NoFilter {
      NothingIsHarmless();
      HarmlessMakesNothing([]);
      assert References(0, 0) == [];
    } else {
      FilterMakes(f, 0);
      Literal(" WHERE ");
      AfterHarmless(Ascii(" WHERE "), FilterText(f, 0), References(0, |FilterValues(f)|));
    }
  }

  lemma IdentityMakes(verb: string, table: Str)
    requires HarmlessWord(verb) && PlainName(table)
    ensures Makes(Ascii(verb) + table + Ascii(":$") + Reference(0), References(0, 1))
  {
    hide Harmless, Makes, Reference, HarmlessWord, PlainName, Ascii;
    Literal(verb);
    assert PlainName(table) ==> AllNameBytes(table) by { NameBytes(table); }
    NamesAreHarmless(table);
    assert HarmlessWord(":") by { Colon(); }
    Literal(":");
    BothHarmless(Ascii(verb), table);
    BothHarmless(Ascii(verb) + table, Ascii(":"));
    ReferenceMakesOne(0);
    DollarWord(":");
    assert ":" + "$" == ":$";
    assert Ascii(verb) + table + Ascii(":$") + Reference(0)
        == Ascii(verb) + table + Ascii(":") + ([0x24] + Reference(0));
    AfterHarmless(Ascii(verb) + table + Ascii(":"), [0x24] + Reference(0), [Reference(0)]);
    assert References(0, 1) == [Reference(0)];
  }

  lemma NameBytes(name: Str)
    requires PlainName(name)
    ensures AllNameBytes(name)
  {}

  lemma Colon()
    ensures HarmlessWord(":")
  {}

  lemma ObjectMakes(fields: map<Str, Value>, n: nat)
    requires PlainNames(fields) && |fields| > 0
    ensures Makes(ObjectText(fields, n), References(n, |fields|))
  {
    hide Harmless, Makes, Reference, Listed, FieldParts, PlainName, Ascii, Sorted;
    var names := Sorted(fields.Keys);
    ListMakes(names, ": $", n);
    Literal("{ ");
    Literal(" }");
    AfterHarmless(Ascii("{ "), Listed(FieldParts(names, ": $", n)), References(n, |fields|));
    HarmlessMakesNothing(Ascii(" }"));
    BraceFirst();
    Together(Ascii("{ ") + Listed(FieldParts(names, ": $", n)), References(n, |fields|), Ascii(" }"), []);
    assert References(n, |fields|) + [] == References(n, |fields|);
  }

  lemma BraceFirst()
    ensures Ascii(" }") != [] && !IsNameByte(Ascii(" }")[0])
  {}

  /** An identity, a word between, and the rest of the statement. */
  lemma WriteIsProper(script: Str, verb: string, table: Str, word: string, rest: Str, count: nat)
    requires PlainName(table) && HarmlessWord(verb) && (word == " = " || word == " SET ")
    requires script == Ascii(verb) + table + Ascii(":$") + Reference(0) + Ascii(word) + rest + Ascii(";")
    requires Makes(rest, References(1, count))
    ensures Proper(script, References(0, 1 + count))
  {
    hide Harmless, Makes, Reference, PlainName;
    IdentityMakes(verb, table);
    Literal(word);
    AfterHarmless(Ascii(word), rest, References(1, count));
    var head := Ascii(verb) + table + Ascii(":$") + Reference(0);
    Together(head, References(0, 1), Ascii(word) + rest, References(1, count));
    ReferencesJoin(0, 1, count);
    assert script == head + (Ascii(word) + rest) + Ascii(";");
  }

  /** The script of any statement that renders ends with its one semicolon; its references are p0, p1 ... in order. */
  lemma ScriptIsProper(s: Statement)
    requires Legal(s) && Faults(s).Nothing?
    ensures Marks(Script(s)) == References(0, |BoundValues(s)|)
    ensures Script(s) != [] && Script(s)[|Script(s)| - 1] == 0x3b
    ensures forall i :: 0 <= i < |Script(s)| - 1 ==> Script(s)[i] != 0x3b
  {
    hide Marks, Makes, Reference, PlainName, Ascii, SelectText, LegalQuery, FilterValues, Listed, FieldParts,
      ObjectText, Sorted, SelectFault, Proper;
    ProperScript(s);
    ProperReads(Script(s), References(0, |BoundValues(s)|));
  }

  /** How many values a statement binds. */
  function BoundCount(s: Statement): nat {
    match s
    case Select(q) => |FilterValues(q.filter)|
    case CreateRecord(_, _, fields) => 1 + |fields|
    case CreateInTable(_, fields) => |fields|
    case UpdateRecord(_, _, fields) => 1 + |fields|
    case DeleteRecord(_, _) => 1
  }

  lemma BoundCounts(s: Statement)
    ensures |BoundValues(s)| == BoundCount(s)
  {
    hide FilterValues, Sorted;
  }

  lemma ProperScript(s: Statement)
    requires Legal(s) && Faults(s).Nothing?
    ensures Proper(Script(s), References(0, |BoundValues(s)|))
  {
    hide Reference, PlainName, PlainNames, Script, LegalQuery, FilterValues, SelectFault, References, Proper,
      BoundValues, Makes, ObjectText;
    BoundCounts(s);
    match s
    case Select(q) => SelectIsProper(q);
    case CreateRecord(table, id, fields) => CreateIsProper(table, id, fields);
    case CreateInTable(table, fields) =>
      ObjectMakes(fields, 0);
      InTableIsProper(table, fields);
    case UpdateRecord(table, id, fields) => UpdateIsProper(table, id, fields);
    case DeleteRecord(table, id) => DeleteIsProper(table, id);
  }

  lemma CreateIsProper(table: Str, id: Value, fields: map<Str, Value>)
    requires PlainName(table) && PlainNames(fields) && |fields| > 0
    ensures Proper(Script(CreateRecord(table, id, fields)), References(0, 1 + |fields|))
  {
    hide Makes, Reference, PlainName, Ascii, ObjectText, References, Proper;
    ObjectMakes(fields, 1);
    Verbs();
    WriteIsProper(Script(CreateRecord(table, id, fields)), "CREATE ", table, " = ", ObjectText(fields, 1), |fields|);
  }

  lemma UpdateIsProper(table: Str, id: Value, fields: map<Str, Value>)
    requires PlainName(table) && PlainNames(fields) && |fields| > 0
    ensures Proper(Script(UpdateRecord(table, id, fields)), References(0, 1 + |fields|))
  {
    hide Makes, Reference, PlainName, Ascii, Listed, FieldParts, Sorted, References, Proper;
    AssignmentsMake(fields);
    Verbs();
    var rest := Listed(FieldParts(Sorted(fields.Keys), " = $", 1));
    WriteIsProper(Script(UpdateRecord(table, id, fields)), "UPDATE ", table, " SET ", rest, |fields|);
  }

  lemma DeleteIsProper(table: Str, id: Value)
    requires PlainName(table)
    ensures Proper(Script(DeleteRecord(table, id)), References(0, 1))
  {
    hide Makes, Reference, PlainName, Ascii, References;
    Verbs();
    IdentityMakes("DELETE ", table);
  }

  lemma Verbs()
    ensures HarmlessWord("CREATE ") && HarmlessWord("UPDATE ") && HarmlessWord("DELETE ")
  {}

  lemma AssignmentsMake(fields: map<Str, Value>)
    requires PlainNames(fields) && |fields| > 0
    ensures Makes(Listed(FieldParts(Sorted(fields.Keys), " = $", 1)), References(1, |fields|))
  {
    hide Makes, Listed, FieldParts, References, PlainName, Sorted;
    ListMakes(Sorted(fields.Keys), " = $", 1);
  }

  lemma InTableIsProper(table: Str, fields: map<Str, Value>)
    requires PlainName(table) && |fields| > 0 && Makes(ObjectText(fields, 0), References(0, |fields|))
    ensures Proper(Script(CreateInTable(table, fields)), References(0, |fields|))
  {
    hide Makes, ObjectText, References, Harmless, Ascii;
    Literal("CREATE ");
    Literal(" = ");
    NamesAreHarmless(table);
    BothHarmless(Ascii("CREATE "), table);
    BothHarmless(Ascii("CREATE ") + table, Ascii(" = "));
    AfterHarmless(Ascii("CREATE ") + table + Ascii(" = "), ObjectText(fields, 0), References(0, |fields|));
  }

  // ---------- values and text ----------

  function ErasedFilter(f: Filter): Filter {
    match f
    case NoFilter => NoFilter
    case Comparison(field, op, _) => Comparison(field, op, None)
    case And(l, r) => And(ErasedFilter(l), ErasedFilter(r))
    case Or(l, r) => Or(ErasedFilter(l), ErasedFilter(r))
  }

  function ErasedFields(fields: map<Str, Value>): (erased: map<Str, Value>)
    ensures erased.Keys == fields.Keys && |erased| == |fields|
  {
    var erased := map n | n in fields :: None;
    assert erased.Keys == fields.Keys;
    assert |erased| == |erased.Keys| && |fields| == |fields.Keys|;
    erased
  }

  /** The same statement with every value the caller gave replaced by NONE. */
  function Erased(s: Statement): Statement {
    match s
    case Select(q) => Select(q.(filter := ErasedFilter(q.filter)))
    case CreateRecord(table, _, fields) => CreateRecord(table, None, ErasedFields(fields))
    case CreateInTable(table, fields) => CreateInTable(table, ErasedFields(fields))
    case UpdateRecord(table, _, fields) => UpdateRecord(table, None, ErasedFields(fields))
    case DeleteRecord(table, _) => DeleteRecord(table, None)
  }

  lemma {:induction false} ErasedFilterText(f: Filter, n: nat)
    ensures FilterFault(ErasedFilter(f)) == FilterFault(f)
    ensures |FilterValues(ErasedFilter(f))| == |FilterValues(f)|
    ensures FilterFault(f).Nothing? ==> FilterText(ErasedFilter(f), n) == FilterText(f, n)
    decreases f
  {
    hide Ascii, Reference, PlainName;
    match f
    case NoFilter =>
    case Comparison(_, _, _) =>
    case And(l, r) =>
      ErasedFilterText(l, n);
      ErasedFilterText(r, n + |FilterValues(l)|);
    case Or(l, r) =>
      ErasedFilterText(l, n);
      ErasedFilterText(r, n + |FilterValues(l)|);
  }

  /** No value the caller gave reaches the text: it is the text of the statement without them. */
  lemma TextIgnoresValues(s: Statement)
    ensures Faults(Erased(s)) == Faults(s)
    ensures Faults(s).Nothing? ==> Script(Erased(s)) == Script(s)
  {
    hide Ascii, Reference, FilterText, ItemsText, OrderByText, CountText, WordText, OrderFault, Listed, FieldParts,
      Sorted, FilterFault, FilterValues;
    if s.Select? {
      ErasedFilterText(s.query.filter, 0);
      NoOrderFault(s.query.order);
    }
  }

  // ---------- what a filter and an ordering are refused for ----------

  /** The comparisons of a filter in the order of the text, and the operands that are not there. */
  function Leaves(f: Filter): seq<Filter> {
    match f
    case And(l, r) => Leaves(l) + Leaves(r)
    case Or(l, r) => Leaves(l) + Leaves(r)
    case _ => [f]
  }

  predicate Sound(leaf: Filter) {
    leaf.Comparison? && PlainName(leaf.field) && 0 <= leaf.op <= 5
  }

  /** The name is judged before the operator. */
  predicate FaultOf(fault: Fault, leaf: Filter) {
    match leaf
    case Comparison(field, op, _) =>
      if !PlainName(field) then fault == NotAName("a field", field) else fault == NotAnOperator(op)
    case _ => fault == NilFilter
  }

  /** k is the first place where something is not as it should be, or the length when everything is. */
  ghost predicate FirstBad<T(!new)>(xs: seq<T>, good: T -> bool, k: nat) {
    k <= |xs| && (forall j :: 0 <= j < k ==> good(xs[j])) && (k < |xs| ==> !good(xs[k]))
  }

  /** A filter is refused for its first faulty comparison, in the order of the text. */
  lemma {:induction false} FilterFaultIsFirst(f: Filter, k: nat)
    requires FirstBad(Leaves(f), Sound, k)
    ensures FilterFault(f).Some? <==> k < |Leaves(f)|
    ensures k < |Leaves(f)| ==> FaultOf(FilterFault(f).value, Leaves(f)[k])
    decreases f, 1
  {
    hide PlainName;
    match f
    case And(l, r) => JunctionFault(f, l, r, k);
    case Or(l, r) => JunctionFault(f, l, r, k);
    case _ => LeafFault(f, k);
  }

  lemma LeafFault(f: Filter, k: nat)
    requires (f.Comparison? || f.NoFilter?) && FirstBad([f], Sound, k)
    ensures FilterFault(f).Some? <==> k < 1
    ensures k < 1 ==> FaultOf(FilterFault(f).value, f)
  {
    hide PlainName;
    assert k == 1 ==> Sound([f][0]);
  }

  lemma FirstBadJoins<T(!new)>(xs: seq<T>, ys: seq<T>, good: T -> bool, k: nat)
    requires FirstBad(xs + ys, good, k)
    ensures k < |xs| ==> FirstBad(xs, good, k)
    ensures k >= |xs| ==> FirstBad(xs, good, |xs|) && FirstBad(ys, good, k - |xs|)
  {
    var both := xs + ys;
    forall j | 0 <= j < k && j < |xs| ensures good(xs[j]) { assert good(both[j]); }
    forall j | 0 <= j < k - |xs| ensures good(ys[j]) { assert good(both[|xs| + j]); }
  }

  lemma {:induction false} JunctionFault(f: Filter, l: Filter, r: Filter, k: nat)
    requires (f == And(l, r) || f == Or(l, r)) && FirstBad(Leaves(l) + Leaves(r), Sound, k)
    ensures FilterFault(f).Some? <==> k < |Leaves(f)|
    ensures k < |Leaves(f)| ==> FaultOf(FilterFault(f).value, Leaves(f)[k])
    decreases f, 0
  {
    hide PlainName, FaultOf, Sound, FirstBad;
    var n := |Leaves(l)|;
    FirstBadJoins(Leaves(l), Leaves(r), Sound, k);
    if k < n {
      FilterFaultIsFirst(l, k);
    } else {
      FilterFaultIsFirst(l, n);
      FilterFaultIsFirst(r, k - n);
    }
  }

  predicate Directed(o: Ordering) {
    o.direction == 0 || o.direction == 1
  }

  lemma {:induction false} OrderFaultIsFirst(order: seq<Ordering>, k: nat)
    requires FirstBad(order, Directed, k)
    ensures OrderFault(order) == if k < |order| then Some(NotADirection(order[k].direction)) else Nothing
  {
    if order != [] && k > 0 {
      assert forall j :: 0 <= j < |order[1..]| ==> order[1..][j] == order[j + 1];
      OrderFaultIsFirst(order[1..], k - 1);
    }
  }

  /** A query is refused for its filter before its orderings, and for nothing else once it is built. */
  lemma SelectFaultIs(q: Query, k: nat, m: nat)
    requires FirstBad(Leaves(q.filter), Sound, k) && FirstBad(q.order, Directed, m)
    ensures var bad := q.filter != NoFilter && k < |Leaves(q.filter)|;
            && (bad ==> SelectFault(q).Some? && FaultOf(SelectFault(q).value, Leaves(q.filter)[k]))
            && (!bad && m < |q.order| ==> SelectFault(q) == Some(NotADirection(q.order[m].direction)))
            && (!bad && m == |q.order| ==> SelectFault(q) == Nothing)
  {
    hide Sound, FaultOf, FirstBad, Leaves;
    FilterFaultIsFirst(q.filter, k);
    OrderFaultIsFirst(q.order, m);
  }
}
