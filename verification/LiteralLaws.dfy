/** An event literal reads back to the event. */
module LiteralLaws {
  import opened Words
  import opened Values
  import opened Texts
  import opened Literals
  import D = Decimals
  import Q = Quoting
  import Utf8
  import Uuids

  /** What may follow a literal: nothing that a number could go on with. */
  predicate Ends(rest: Str) {
    rest == [] || !IsNumberByte(rest[0])
  }

  // ---------- numbers ----------

  lemma NumberRunReads(a: Str, rest: Str)
    requires AllNumberBytes(a) && Ends(rest)
    ensures NumberRun(a + rest) == |a| && (a + rest)[..|a|] == a && (a + rest)[|a|..] == rest
  {
    var t := a + rest;
    assert forall i :: 0 <= i < |a| ==> t[i] == a[i];
    assert rest != [] ==> t[|a|] == rest[0];
  }

  /** No word or bracket begins as a number does. */
  lemma NumbersAreNotWords(t: Str)
    requires StartsNumber(t)
    ensures !Opens(t, "NULL") && !Opens(t, "true") && !Opens(t, "false") && !Opens(t, "dec ")
    ensures !Opens(t, "datetime '") && !Opens(t, "uuid '") && !Opens(t, "'")
  {}

  lemma IntegerReads(n: int, rest: Str)
    requires Ends(rest)
    ensures ReadFlat(IntegerText(n) + rest) == Got(Whole(n), rest)
    ensures StartsNumber(IntegerText(n))
  {
    hide Itoa, Opens, NumberRun, NumberOf;
    var t := IntegerText(n);
    NumberReads(D.Magnitude(n));
    assert AllNumberBytes(t) && !Pointed(t) && StartsNumber(t) && StartsNumber(t + rest);
    NumberRunReads(t, rest);
    NumbersAreNotWords(t + rest);
    D.SignedReads(n, Itoa(D.Magnitude(n)));
  }

  lemma FloatReads(lib: Library, bits: UInt64, rest: Str)
    requires Lexical(lib) && Finite(bits) && Ends(rest)
    ensures ReadFlat(FloatText(lib, bits) + rest) == Got(Floating(FloatText(lib, bits)), rest)
    ensures StartsNumber(FloatText(lib, bits))
  {
    hide Opens, NumberRun;
    var t := FloatText(lib, bits);
    FloatShape(lib, bits);
    assert StartsNumber(t + rest);
    NumberRunReads(t, rest);
    NumbersAreNotWords(t + rest);
  }

  lemma FloatShape(lib: Library, bits: UInt64)
    requires Lexical(lib) && Finite(bits)
    ensures var t := FloatText(lib, bits); AllNumberBytes(t) && Pointed(t) && StartsNumber(t)
  {
    assert Ascii(".0")[0] == 0x2e && Ascii(".0")[1] == 0x30;
    if !Pointed(lib.float(bits)) { assert FloatText(lib, bits)[|lib.float(bits)|] == 0x2e; }
  }

  lemma DecimalBytes(m: Option<int>, scale: nat)
    ensures AllNumberBytes(D.DecimalText(m, scale))
  {
    hide Itoa;
  }

  lemma DecimalLiteralReads(m: Option<int>, scale: UInt32, rest: Str)
    requires Ends(rest)
    ensures ReadFlat(Ascii("dec ") + D.DecimalText(m, scale) + rest)
         == Got(Exact(if m.Some? then m.value else 0, scale), rest)
  {
    hide Opens, NumberRun, D.DecimalText, D.ReadDecimal, Ascii;
    var t := D.DecimalText(m, scale);
    Assoc(Ascii("dec "), t, rest);
    DecOpens(t + rest);
    DecimalBytes(m, scale);
    NumberRunReads(t, rest);
    D.DecimalReads(m, scale);
  }

  lemma DecOpens(rest: Str)
    ensures var t := Ascii("dec ") + rest;
            !Opens(t, "NULL") && !Opens(t, "true") && !Opens(t, "false") && Opens(t, "dec ") && Past(t, "dec ") == rest
  {
    Apart("dec ", rest, "NULL", 0);
    Apart("dec ", rest, "true", 0);
    Apart("dec ", rest, "false", 0);
    OpensWith("dec ", rest);
  }

  // ---------- tokens ----------

  lemma {:induction false} TokenReads(token: Str, rest: Str)
    requires Q.QUOTE !in token
    ensures ReadToken(token + [Q.QUOTE] + rest) == Got(token, rest)
    decreases |token|
  {
    var t := token + [Q.QUOTE] + rest;
    if token == [] {
      assert t[0] == Q.QUOTE && t[1..] == rest;
    } else {
      assert t[0] == token[0] && t[1..] == token[1..] + [Q.QUOTE] + rest;
      TokenReads(token[1..], rest);
      assert [token[0]] + token[1..] == token;
    }
  }

  lemma MomentHasNoQuote(lib: Library, seconds: Int64, nanos: UInt32)
    requires Lexical(lib) && InYears(seconds)
    ensures Q.QUOTE !in MomentText(lib, seconds, nanos)
  {
    hide Nine;
    assert Ascii("Z") == ['Z' as int] && Ascii(".") == ['.' as int];
  }

  lemma QuoteMark()
    ensures Ascii("'") == [Q.QUOTE]
  {}

  lemma MomentReads(lib: Library, seconds: Int64, nanos: UInt32, rest: Str)
    requires Lexical(lib) && InYears(seconds)
    ensures ReadFlat(Ascii("datetime '") + MomentText(lib, seconds, nanos) + Ascii("'") + rest)
         == Got(Moment(MomentText(lib, seconds, nanos)), rest)
  {
    hide Opens, MomentText, Ascii, ReadToken;
    var token := MomentText(lib, seconds, nanos);
    QuoteMark();
    var tail := token + [Q.QUOTE] + rest;
    assert Ascii("datetime '") + token + Ascii("'") + rest == Ascii("datetime '") + tail;
    DatetimeOpens(tail);
    MomentHasNoQuote(lib, seconds, nanos);
    TokenReads(token, rest);
  }

  lemma DatetimeOpens(rest: Str)
    ensures var t := Ascii("datetime '") + rest;
            && !Opens(t, "NULL") && !Opens(t, "true") && !Opens(t, "false") && !Opens(t, "dec ")
            && Opens(t, "datetime '") && Past(t, "datetime '") == rest
  {
    Apart("datetime '", rest, "NULL", 0);
    Apart("datetime '", rest, "true", 0);
    Apart("datetime '", rest, "false", 0);
    Apart("datetime '", rest, "dec ", 1);
    OpensWith("datetime '", rest);
  }

  lemma {:induction false} HexHasNoQuote(bytes: Str)
    ensures Q.QUOTE !in Uuids.Hex(bytes)
  {
    if bytes != [] { HexHasNoQuote(bytes[1..]); }
  }

  lemma UuidHasNoQuote(u: Sixteen)
    ensures Q.QUOTE !in Uuids.UuidText(u)
  {
    hide Uuids.Hex;
    HexHasNoQuote(u);
  }

  lemma IdReads(u: Sixteen, rest: Str)
    ensures ReadFlat(Ascii("uuid '") + Uuids.UuidText(u) + Ascii("'") + rest) == Got(Id(u), rest)
  {
    hide Opens, Uuids.UuidText, Uuids.ReadUuid, Ascii, ReadToken;
    var token := Uuids.UuidText(u);
    QuoteMark();
    var tail := token + [Q.QUOTE] + rest;
    assert Ascii("uuid '") + token + Ascii("'") + rest == Ascii("uuid '") + tail;
    UuidOpens(tail);
    UuidHasNoQuote(u);
    TokenReads(token, rest);
    Uuids.UuidReads(u);
  }

  lemma UuidOpens(rest: Str)
    ensures var t := Ascii("uuid '") + rest;
            && !Opens(t, "NULL") && !Opens(t, "true") && !Opens(t, "false") && !Opens(t, "dec ")
               && !Opens(t, "datetime '")
            && Opens(t, "uuid '") && Past(t, "uuid '") == rest
  {
    Apart("uuid '", rest, "NULL", 0);
    Apart("uuid '", rest, "true", 0);
    Apart("uuid '", rest, "false", 0);
    Apart("uuid '", rest, "dec ", 0);
    Apart("uuid '", rest, "datetime '", 0);
    OpensWith("uuid '", rest);
  }

  lemma TextReads(text: Str, rest: Str)
    ensures ReadFlat(Q.Quoted(text) + rest) == Got(Words(Q.Repaired(text)), rest)
  {
    hide Q.Repaired, Q.Escaped, Q.ReadQuoted, Opens;
    Q.QuotedReads(text, rest);
    var t := Q.Quoted(text) + rest;
    assert t[0] == Q.QUOTE;
    QuoteOpens(t);
  }

  /** A text that begins with a quote begins with no word. */
  lemma QuoteOpens(t: Str)
    requires t != [] && t[0] == Q.QUOTE
    ensures Opens(t, "'")
    ensures !Opens(t, "NULL") && !Opens(t, "true") && !Opens(t, "false")
    ensures !Opens(t, "dec ") && !Opens(t, "datetime '") && !Opens(t, "uuid '")
  {}

  lemma WordReads(v: Value, rest: Str, lib: Library)
    requires v.Null? || v.Bool?
    ensures ReadFlat(FlatText(lib, v) + rest) == Got(FlatMeaning(lib, v), rest)
  {
    hide Opens, Ascii;
    OpensWith("NULL", rest);
    OpensWith("true", rest);
    OpensWith("false", rest);
    Apart("true", rest, "NULL", 0);
    Apart("false", rest, "NULL", 0);
    Apart("false", rest, "true", 0);
  }

  predicate Flat(v: Value) {
    !v.Array? && !v.Object?
  }

  lemma FlatReads(lib: Library, v: Value, rest: Str)
    requires Flat(v) && Speakable(v) && Lexical(lib) && Ends(rest)
    ensures ReadFlat(FlatText(lib, v) + rest) == Got(Heard(lib, v), rest)
  {
    hide ReadFlat, FloatText, IntegerText, D.DecimalText, Q.Quoted, MomentText, Uuids.UuidText, Ascii, Lexical,
      Q.Repaired;
    match v
    case Integer(n) => IntegerReads(n, rest);
    case Float(bits) => FloatReads(lib, bits, rest);
    case Decimal(m, scale) => DecimalLiteralReads(m, scale, rest);
    case Text(t) => TextReads(t, rest);
    case Datetime(seconds, nanos) => MomentReads(lib, seconds, nanos, rest);
    case Uuid(u) => IdReads(u, rest);
    case _ => WordReads(v, rest, lib);
  }

  /** How a literal begins: never with a closing bracket, and with an opening one only if it is a list or an object. */
  predicate Begins(t: Str, flat: bool) {
    t != [] && t[0] != 0x5d && (flat ==> t[0] != 0x5b && t[0] != 0x7b)
  }

  lemma LiteralBegins(lib: Library, v: Value)
    requires Speakable(v) && Lexical(lib)
    ensures Begins(LiteralText(lib, v), Flat(v))
  {
    hide LiteralText, FlatText, FloatText, IntegerText, Lexical, ReadFlat;
    match v
    case Integer(n) =>
      IntegerReads(n, []);
      assert LiteralText(lib, v) == IntegerText(n) by { NumberIsText(lib, v); }
    case Float(bits) =>
      FloatReads(lib, bits, []);
      assert LiteralText(lib, v) == FloatText(lib, bits) by { NumberIsText(lib, v); }
    case _ =>
      if Flat(v) { WordBegins(lib, v); } else { ListBegins(lib, v); }
  }

  lemma NumberIsText(lib: Library, v: Value)
    requires v.Integer? || v.Float?
    ensures LiteralText(lib, v) == if v.Integer? then IntegerText(v.number) else FloatText(lib, v.bits)
  {
    hide FloatText, IntegerText;
  }

  lemma WordBegins(lib: Library, v: Value)
    requires Flat(v) && Speakable(v) && !v.Integer? && !v.Float?
    ensures Begins(LiteralText(lib, v), true)
  {
    hide D.DecimalText, MomentText, Uuids.UuidText, Q.Escaped;
  }

  lemma ListBegins(lib: Library, v: Value)
    requires !Flat(v)
    ensures Begins(LiteralText(lib, v), false)
  {
    hide ItemsText, FieldsText, Sorted, Present;
  }

  lemma FlatIsNoList(t: Str)
    requires Begins(t, true)
    ensures ReadEvent(t) == ReadFlat(t)
  {
    hide ReadFlat;
    assert !Opens(t, "[]") && !Opens(t, "[") && !Opens(t, "{}") && !Opens(t, "{ ");
  }

  // ---------- lists and objects ----------

  ghost function HeardItems(lib: Library, items: seq<Value>): seq<Event> {
    seq(|items|, i requires 0 <= i < |items| => Heard(lib, items[i]))
  }

  lemma {:induction false} LiteralReads(lib: Library, v: Value, rest: Str)
    requires Speakable(v) && Lexical(lib) && Ends(rest)
    ensures ReadEvent(LiteralText(lib, v) + rest) == Got(Heard(lib, v), rest)
    decreases v, 1
  {
    hide ReadFlat, FlatText, FlatMeaning, ItemsText, FieldsText, Lexical, Ends, ReadItems, ReadFields, HeardFields,
      Ascii, ReadEvent, Present, Sorted, Q.Repaired;
    if v.Array? {
      ArrayReads(lib, v, rest);
    } else if v.Object? {
      ObjectReads(lib, v, rest);
    } else {
      FlatReads(lib, v, rest);
      LiteralBegins(lib, v);
      BeginsStill(LiteralText(lib, v), rest);
      FlatIsNoList(LiteralText(lib, v) + rest);
    }
  }

  lemma BeginsStill(t: Str, rest: Str)
    requires Begins(t, true)
    ensures Begins(t + rest, true)
  {}

  lemma {:induction false} ArrayReads(lib: Library, v: Value, rest: Str)
    requires v.Array? && Speakable(v) && Lexical(lib)
    ensures ReadEvent(LiteralText(lib, v) + rest) == Got(Heard(lib, v), rest)
    decreases v, 0
  {
    hide ItemsText, Lexical, ReadItems, Ascii, ReadEvent, FlatText, FlatMeaning, Opens;
    var items := v.items;
    var tail := Ascii("]") + rest;
    assert LiteralText(lib, v) + rest == Ascii("[") + (ItemsText(lib, items, true) + tail);
    if items == [] {
      NoItems(lib, rest);
      assert HeardItems(lib, items) == [];
    } else {
      BracketEnds(rest);
      ItemsRead(lib, items, tail);
      ItemsBegin(lib, items, tail);
      ListStep(ItemsText(lib, items, true) + tail, HeardItems(lib, items), rest);
    }
  }

  lemma NoItems(lib: Library, rest: Str)
    ensures ReadEvent(Ascii("[") + (ItemsText(lib, [], true) + (Ascii("]") + rest))) == Got(List([]), rest)
  {
    hide ReadItems, ReadFields, ReadFlat;
    assert Ascii("[") + (ItemsText(lib, [], true) + (Ascii("]") + rest)) == Ascii("[]") + rest;
    OpensWith("[]", rest);
  }

  lemma BracketEnds(rest: Str)
    ensures Ends(Ascii("]") + rest) && !Opens(Ascii("]") + rest, ", ")
  {
    assert (Ascii("]") + rest)[0] == ']' as int;
  }

  lemma ItemsBegin(lib: Library, items: seq<Value>, tail: Str)
    requires items != [] && Speakable(items[0]) && Lexical(lib)
    ensures !Opens(ItemsText(lib, items, true) + tail, "]")
  {
    hide LiteralText, Lexical;
    LiteralBegins(lib, items[0]);
    assert (ItemsText(lib, items, true) + tail)[0] == LiteralText(lib, items[0])[0];
  }

  lemma ListStep(t: Str, items: seq<Event>, rest: Str)
    requires ReadItems(t) == Got(items, Ascii("]") + rest) && !Opens(t, "]")
    ensures ReadEvent(Ascii("[") + t) == Got(List(items), rest)
  {
    hide ReadItems, ReadFields, ReadFlat, Ascii;
    OpensWith("[", t);
    Skips("]", rest);
    NotClosed(t);
  }

  lemma NotClosed(t: Str)
    requires !Opens(t, "]")
    ensures !Opens(Ascii("[") + t, "[]")
  {
    assert t != [] ==> (Ascii("[") + t)[1] == t[0];
  }

  lemma {:induction false} ItemsRead(lib: Library, items: seq<Value>, rest: Str)
    requires items != [] && (forall i :: 0 <= i < |items| ==> Speakable(items[i])) && Lexical(lib)
    requires Ends(rest) && !Opens(rest, ", ")
    ensures ReadItems(ItemsText(lib, items, true) + rest) == Got(HeardItems(lib, items), rest)
    decreases items
  {
    hide LiteralText, Heard, Lexical, Ascii, ReadEvent, Speakable, Ends, Opens;
    var more := items[1..];
    var t1 := ItemsText(lib, more, false) + rest;
    assert ItemsText(lib, items, true) + rest == LiteralText(lib, items[0]) + t1 by {
      assert Comma(true) + LiteralText(lib, items[0]) == LiteralText(lib, items[0]);
    }
    if more == [] {
      assert t1 == rest;
      LiteralReads(lib, items[0], t1);
      assert HeardItems(lib, items) == [Heard(lib, items[0])];
    } else {
      var t2 := ItemsText(lib, more, true) + rest;
      assert t1 == Ascii(", ") + t2 by { MoreItems(lib, more, rest); }
      CommaEnds(t2);
      LiteralReads(lib, items[0], t1);
      ItemsRead(lib, more, rest);
      OpensWith(", ", t2);
      assert HeardItems(lib, items) == [Heard(lib, items[0])] + HeardItems(lib, more);
    }
  }

  lemma MoreItems(lib: Library, items: seq<Value>, rest: Str)
    requires items != []
    ensures ItemsText(lib, items, false) + rest == Ascii(", ") + (ItemsText(lib, items, true) + rest)
  {
    hide LiteralText, Ascii;
    assert Comma(true) + LiteralText(lib, items[0]) == LiteralText(lib, items[0]);
    assert ItemsText(lib, items, false) == Ascii(", ") + LiteralText(lib, items[0]) + ItemsText(lib, items[1..], false);
    assert ItemsText(lib, items, true) == LiteralText(lib, items[0]) + ItemsText(lib, items[1..], false);
  }

  lemma CommaEnds(rest: Str)
    ensures Ends(Ascii(", ") + rest)
  {
    assert (Ascii(", ") + rest)[0] == ',' as int;
  }

  lemma {:induction false} ObjectReads(lib: Library, v: Value, rest: Str)
    requires v.Object? && Speakable(v) && Lexical(lib)
    ensures ReadEvent(LiteralText(lib, v) + rest) == Got(Heard(lib, v), rest)
    decreases v, 0
  {
    hide FieldsText, Lexical, ReadFields, Ascii, ReadEvent, FlatText, FlatMeaning, Opens, HeardFields, Sorted;
    var names := Sorted(Present(v.fields));
    if Present(v.fields) == {} {
      assert names == [];
      NoFields(rest);
      assert HeardFields(lib, names, v) == map[] by { NothingHeard(lib, names, v); }
    } else {
      var tail := Ascii(" }") + rest;
      assert LiteralText(lib, v) + rest == Ascii("{ ") + (FieldsText(lib, names, v, true) + tail);
      BraceEnds(rest);
      assert names != [];
      assert forall n :: n in names ==> n in v.fields && Speakable(v.fields[n]);
      FieldsRead(lib, names, v, tail);
      ObjectStep(FieldsText(lib, names, v, true) + tail, HeardFields(lib, names, v), rest);
    }
  }

  lemma NothingHeard(lib: Library, names: seq<Str>, v: Value)
    requires v.Object? && names == []
    ensures HeardFields(lib, names, v) == map[]
  {}

  lemma NoFields(rest: Str)
    ensures ReadEvent(Ascii("{}") + rest) == Got(Fields(map[]), rest)
  {
    hide ReadItems, ReadFields, ReadFlat;
    OpensWith("{}", rest);
    Apart("{}", rest, "[]", 0);
    Apart("{}", rest, "[", 0);
  }

  lemma BraceEnds(rest: Str)
    ensures Ends(Ascii(" }") + rest) && !Opens(Ascii(" }") + rest, ", ")
  {
    assert (Ascii(" }") + rest)[0] == ' ' as int;
  }

  lemma ObjectStep(t: Str, fields: map<Str, Event>, rest: Str)
    requires ReadFields(t) == Got(fields, Ascii(" }") + rest)
    ensures ReadEvent(Ascii("{ ") + t) == Got(Fields(fields), rest)
  {
    hide ReadItems, ReadFields, ReadFlat, Ascii, Opens;
    OpensWith("{ ", t);
    Skips(" }", rest);
    Apart("{ ", t, "[]", 0);
    Apart("{ ", t, "[", 0);
    Apart("{ ", t, "{}", 1);
  }

  lemma {:induction false} FieldsRead(lib: Library, names: seq<Str>, v: Value, rest: Str)
    requires v.Object? && names != [] && Lexical(lib)
    requires forall n :: n in names ==> n in v.fields && Speakable(v.fields[n])
    requires Ends(rest) && !Opens(rest, ", ")
    ensures ReadFields(FieldsText(lib, names, v, true) + rest) == Got(HeardFields(lib, names, v), rest)
    decreases v, 0, |names|
  {
    hide LiteralText, Heard, Lexical, Ascii, ReadEvent, Speakable, Ends, Opens, Q.Quoted, Q.Repaired, Q.ReadQuoted,
      Skip;
    var name, more := names[0], names[1..];
    var value := v.fields[name];
    var t3 := FieldsText(lib, more, v, false) + rest;
    var t2 := LiteralText(lib, value) + t3;
    var t1 := Ascii(": ") + t2;
    assert FieldsText(lib, names, v, true) + rest == Q.Quoted(name) + t1 by { FirstField(lib, names, v, rest); }
    Q.QuotedReads(name, t1);
    Skips(": ", t2);
    if more == [] {
      assert t3 == rest;
      LiteralReads(lib, value, t3);
      assert HeardFields(lib, names, v) == map[Q.Repaired(name) := Heard(lib, value)] by { OneHeard(lib, names, v); }
    } else {
      var t4 := FieldsText(lib, more, v, true) + rest;
      assert t3 == Ascii(", ") + t4 by { MoreFields(lib, more, v, rest); }
      CommaEnds(t4);
      LiteralReads(lib, value, t3);
      FieldsRead(lib, more, v, rest);
      OpensWith(", ", t4);
    }
  }

  lemma OneHeard(lib: Library, names: seq<Str>, v: Value)
    requires v.Object? && |names| == 1 && names[0] in v.fields
    ensures HeardFields(lib, names, v) == map[Q.Repaired(names[0]) := Heard(lib, v.fields[names[0]])]
  {
    hide Heard, Q.Repaired;
    assert HeardFields(lib, names[1..], v) == map[];
  }

  lemma FirstField(lib: Library, names: seq<Str>, v: Value, rest: Str)
    requires v.Object? && names != [] && forall n :: n in names ==> n in v.fields
    ensures FieldsText(lib, names, v, true) + rest
         == Q.Quoted(names[0])
            + (Ascii(": ") + (LiteralText(lib, v.fields[names[0]]) + (FieldsText(lib, names[1..], v, false) + rest)))
  {
    hide LiteralText, Ascii, Q.Quoted;
    var q, l, more := Q.Quoted(names[0]), LiteralText(lib, v.fields[names[0]]), FieldsText(lib, names[1..], v, false);
    assert Comma(true) + q == q;
    assert FieldsText(lib, names, v, true) == q + Ascii(": ") + l + more;
    Four(q, Ascii(": "), l, more, rest);
  }

  lemma Four(a: Str, b: Str, c: Str, d: Str, e: Str)
    ensures a + b + c + d + e == a + (b + (c + (d + e)))
  {}

  lemma MoreFields(lib: Library, names: seq<Str>, v: Value, rest: Str)
    requires v.Object? && names != [] && forall n :: n in names ==> n in v.fields
    ensures FieldsText(lib, names, v, false) + rest == Ascii(", ") + (FieldsText(lib, names, v, true) + rest)
  {
    hide LiteralText, Ascii, Q.Quoted;
    var q, l, more := Q.Quoted(names[0]), LiteralText(lib, v.fields[names[0]]), FieldsText(lib, names[1..], v, false);
    assert Comma(true) + q == q;
    assert FieldsText(lib, names, v, true) == q + Ascii(": ") + l + more;
    assert FieldsText(lib, names, v, false) == Ascii(", ") + q + Ascii(": ") + l + more;
    Four(q, Ascii(": "), l, more, rest);
    Four(Ascii(", ") + q, Ascii(": "), l, more, rest);
    Assoc(Ascii(", "), q, Ascii(": ") + (l + (more + rest)));
  }

  // ---------- the event itself ----------

  /** Every text left in the event, names of fields included, is well-formed UTF-8. */
  predicate AllUtf8(v: Value)
    decreases v
  {
    match v
    case Text(t) => Utf8.Valid(t)
    case Array(items) => forall i :: 0 <= i < |items| ==> AllUtf8(items[i])
    case Object(fields) => forall n :: n in fields && !fields[n].None? ==> Utf8.Valid(n) && AllUtf8(fields[n])
    case _ => true
  }

  /** Every text of an event is well-formed UTF-8. */
  predicate WellSpoken(e: Event)
    decreases e
  {
    match e
    case Words(t) => Utf8.Valid(t)
    case List(items) => forall i :: 0 <= i < |items| ==> WellSpoken(items[i])
    case Fields(fields) => forall n :: n in fields ==> Utf8.Valid(n) && WellSpoken(fields[n])
    case _ => true
  }

  lemma {:induction false} HeardIsWellSpoken(lib: Library, v: Value)
    ensures WellSpoken(Heard(lib, v))
    decreases v, 1
  {
    hide Q.Repaired, Utf8.Valid, Sorted;
    match v
    case Text(t) => Q.RepairedIsValid(t);
    case Array(items) => forall i | 0 <= i < |items| { HeardIsWellSpoken(lib, items[i]); }
    case Object(fields) => FieldsAreWellSpoken(lib, Sorted(Present(fields)), v);
    case _ =>
  }

  lemma {:induction false} FieldsAreWellSpoken(lib: Library, names: seq<Str>, v: Value)
    requires v.Object? && forall n :: n in names ==> n in v.fields
    ensures forall n :: n in HeardFields(lib, names, v) ==> Utf8.Valid(n) && WellSpoken(HeardFields(lib, names, v)[n])
    decreases v, 0, |names|
  {
    hide Q.Repaired, Utf8.Valid, Heard, WellSpoken;
    if names != [] {
      FieldsAreWellSpoken(lib, names[1..], v);
      Q.RepairedIsValid(names[0]);
      HeardIsWellSpoken(lib, v.fields[names[0]]);
    }
  }

  lemma {:induction false} MeaningIsAsSpoken(lib: Library, v: Value)
    ensures WellSpoken(Meaning(lib, v)) <==> AllUtf8(v)
    decreases v
  {
    hide Utf8.Valid, FloatText, MomentText;
    if v.Array? {
      forall i | 0 <= i < |v.items| { MeaningIsAsSpoken(lib, v.items[i]); }
      ItemsAsSpoken(lib, v.items);
    } else if v.Object? {
      forall n | n in v.fields && !v.fields[n].None? { MeaningIsAsSpoken(lib, v.fields[n]); }
      FieldsAsSpoken(lib, v.fields);
    }
  }

  lemma ItemsAsSpoken(lib: Library, items: seq<Value>)
    requires forall i :: 0 <= i < |items| ==> (WellSpoken(Meaning(lib, items[i])) <==> AllUtf8(items[i]))
    ensures WellSpoken(Meaning(lib, Array(items))) <==> AllUtf8(Array(items))
  {
    hide Utf8.Valid, FlatMeaning;
    var e := Meaning(lib, Array(items));
    assert |e.items| == |items| && forall i :: 0 <= i < |items| ==> e.items[i] == Meaning(lib, items[i]);
  }

  lemma FieldsAsSpoken(lib: Library, fields: map<Str, Value>)
    requires forall n :: n in fields && !fields[n].None? ==>
               (WellSpoken(Meaning(lib, fields[n])) <==> AllUtf8(fields[n]))
    ensures WellSpoken(Meaning(lib, Object(fields))) <==> AllUtf8(Object(fields))
  {
    hide Utf8.Valid, FlatMeaning;
    var e := Meaning(lib, Object(fields));
    assert forall n :: n in e.fields <==> n in fields && !fields[n].None?;
    assert forall n :: n in e.fields ==> e.fields[n] == Meaning(lib, fields[n]);
  }

  lemma {:induction false} HeardIsMeaning(lib: Library, v: Value)
    requires AllUtf8(v)
    ensures Heard(lib, v) == Meaning(lib, v)
    decreases v, 1
  {
    hide Q.Repaired, Utf8.Valid, Sorted, FlatMeaning;
    match v
    case Text(t) => Q.RepairedIsSame(t); TextMeaning(lib, v);
    case Array(items) =>
      forall i | 0 <= i < |items| ensures Heard(lib, items[i]) == Meaning(lib, items[i]) {
        HeardIsMeaning(lib, items[i]);
      }
    case Object(fields) =>
      var names := Sorted(Present(fields));
      FieldsAreMeant(lib, names, v);
      assert HeardFields(lib, names, v) == Meaning(lib, v).fields;
    case _ =>
  }

  lemma TextMeaning(lib: Library, v: Value)
    requires v.Text?
    ensures Meaning(lib, v) == Words(v.text)
  {}

  lemma {:induction false} FieldsAreMeant(lib: Library, names: seq<Str>, v: Value)
    requires v.Object? && AllUtf8(v) && forall n :: n in names ==> n in v.fields && !v.fields[n].None?
    ensures forall n :: n in HeardFields(lib, names, v) <==> n in names
    ensures forall n :: n in names ==> HeardFields(lib, names, v)[n] == Meaning(lib, v.fields[n])
    decreases v, 0, |names|
  {
    hide Q.Repaired, Utf8.Valid, Heard, Meaning;
    if names != [] {
      var name := names[0];
      FieldsAreMeant(lib, names[1..], v);
      Q.RepairedIsSame(name);
      HeardIsMeaning(lib, v.fields[name]);
    }
  }

  /**
   Reading back the literal of any event gives the event with every None field removed at every depth,
   exactly when its texts are UTF-8; a text that is not comes back with U+FFFD for each bad byte.
   */
  lemma EventReadsBack(lib: Library, v: Value)
    requires Speakable(v) && Lexical(lib)
    ensures ReadEvent(LiteralText(lib, v)) == Got(Heard(lib, v), [])
    ensures ReadEvent(LiteralText(lib, v)) == Got(Meaning(lib, v), []) <==> AllUtf8(v)
  {
    hide ReadEvent, LiteralText, Heard, Meaning, Lexical, Speakable, AllUtf8, WellSpoken;
    LiteralReads(lib, v, []);
    assert LiteralText(lib, v) + [] == LiteralText(lib, v);
    HeardIsWellSpoken(lib, v);
    MeaningIsAsSpoken(lib, v);
    if AllUtf8(v) { HeardIsMeaning(lib, v); }
  }

  // ---------- a whole batch ----------

  predicate SpeakableBatch(events: seq<Value>) {
    forall i :: 0 <= i < |events| ==> events[i].Object? && Speakable(events[i])
  }

  /** A batch is the literal of the list of its events. */
  lemma BatchReadsBack(lib: Library, events: seq<Value>)
    requires SpeakableBatch(events) && Lexical(lib)
    ensures ReadEvent(Ascii("[") + ItemsText(lib, events, true) + Ascii("]")) == Got(List(HeardItems(lib, events)), [])
    ensures (forall i :: 0 <= i < |events| ==> AllUtf8(events[i])) ==>
              HeardItems(lib, events) == seq(|events|, i requires 0 <= i < |events| => Meaning(lib, events[i]))
  {
    hide ReadEvent, ItemsText, Heard, Lexical, AllUtf8, Meaning, Ascii;
    var v := Array(events);
    LiteralReads(lib, v, []);
    BatchText(lib, events);
    assert LiteralText(lib, v) + [] == LiteralText(lib, v);
    if forall i :: 0 <= i < |events| ==> AllUtf8(events[i]) {
      forall i | 0 <= i < |events| ensures Heard(lib, events[i]) == Meaning(lib, events[i]) {
        HeardIsMeaning(lib, events[i]);
      }
    }
  }

  lemma BatchText(lib: Library, events: seq<Value>)
    ensures LiteralText(lib, Array(events)) == Ascii("[") + ItemsText(lib, events, true) + Ascii("]")
    ensures Heard(lib, Array(events)) == List(HeardItems(lib, events))
  {
    hide ItemsText, Ascii;
  }
}
