/** Writing event literals as the client does it: one builder, loops over items and sorted names (httpseries.go). */
module LiteralWriting {
  import opened Words
  import opened Values
  import opened Texts
  import opened Literals
  import D = Decimals
  import Q = Quoting
  import Uuids

  /** False for a value an event cannot carry. */
  method WriteLiteral(lib: Library, v: Value, out: Builder) returns (ok: bool)
    modifies out
    ensures ok <==> Speakable(v)
    ensures ok ==> out.text == old(out.text) + LiteralText(lib, v)
    decreases v, 2
  {
    hide ItemsText, FieldsText, Ascii, Sorted, FlatText;
    match v
    case Array(items) =>
      ghost var was := out.text;
      out.Say("[");
      ok := WriteItems(lib, items, out);
      if ok {
        out.Say("]");
        Outer(was, Ascii("["), ItemsText(lib, items, true), Ascii("]"));
      }
    case Object(fields) => ok := WriteObject(lib, v, out);
    case _ => ok := WriteFlat(lib, v, out);
  }

  lemma Outer(t: Str, a: Str, b: Str, c: Str)
    ensures t + a + b + c == t + (a + b + c)
  {}

  method WriteFlat(lib: Library, v: Value, out: Builder) returns (ok: bool)
    requires !v.Array? && !v.Object?
    modifies out
    ensures ok <==> Speakable(v)
    ensures ok ==> out.text == old(out.text) + FlatText(lib, v)
  {
    hide Ascii, D.DecimalText, Q.Quoted, Uuids.UuidText, Itoa, Nine;
    ok := true;
    ghost var was := out.text;
    match v
    case Null => out.Say("NULL");
    case Bool(truth) => out.Say(if truth then "true" else "false");
    case Integer(n) => out.Put(IntegerText(n));
    case Float(bits) =>
      if !Finite(bits) { return false; }
      var text := lib.float(bits);
      if !(0x2e in text || 0x65 in text) { text := text + Ascii(".0"); }
      out.Put(text);
    case Decimal(m, scale) =>
      out.Put(Ascii("dec ") + D.DecimalText(m, scale));
    case Text(t) => Q.WriteQuoted(t, out);
    case Datetime(seconds, nanos) =>
      if seconds < -62167219200 || seconds > 253402300799 { return false; }
      WriteMoment(lib, seconds, nanos, out);
    case Uuid(u) =>
      out.Put(Ascii("uuid '") + Uuids.UuidText(u) + Ascii("'"));
    case _ => ok := false;
  }

  method WriteMoment(lib: Library, seconds: Int64, nanos: UInt32, out: Builder)
    modifies out
    ensures out.text == old(out.text) + (Ascii("datetime '") + MomentText(lib, seconds, nanos) + Ascii("'"))
  {
    hide Ascii, Nine;
    ghost var was := out.text;
    out.Put(Ascii("datetime '") + lib.moment(seconds));
    if nanos > 0 { out.Put(Ascii(".") + Nine(nanos)); }
    out.Say("Z'");
    assert Ascii("Z'") == Ascii("Z") + Ascii("'") by { ZQuote(); }
    ghost var fraction := if nanos > 0 then Ascii(".") + Nine(nanos) else [];
    assert out.text == was + (Ascii("datetime '") + lib.moment(seconds)) + fraction + (Ascii("Z") + Ascii("'"));
    Moments(was, Ascii("datetime '"), lib.moment(seconds), fraction, Ascii("Z"), Ascii("'"));
  }

  lemma Moments(t: Str, a: Str, b: Str, c: Str, d: Str, e: Str)
    ensures t + (a + b) + c + (d + e) == t + (a + (b + c + d) + e)
  {}

  lemma ZQuote()
    ensures Ascii("Z'") == Ascii("Z") + Ascii("'")
  {}

  method WriteItems(lib: Library, items: seq<Value>, out: Builder) returns (ok: bool)
    modifies out
    ensures ok <==> forall i :: 0 <= i < |items| ==> Speakable(items[i])
    ensures ok ==> out.text == old(out.text) + ItemsText(lib, items, true)
    decreases items, 1
  {
    hide LiteralText, Speakable, Ascii;
    for i := 0 to |items|
      invariant forall j :: 0 <= j < i ==> Speakable(items[j])
      invariant out.text + ItemsText(lib, items[i..], i == 0) == old(out.text) + ItemsText(lib, items, true)
    {
      OneItem(lib, items, i, out.text);
      if items[i].None? {
        AbsenceIsUnspeakable(items[i]);
        return false;
      }
      if i > 0 { out.Say(", "); }
      ok := WriteLiteral(lib, items[i], out);
      if !ok { return; }
    }
    NoMoreItems(lib, items);
    ok := true;
  }

  lemma AbsenceIsUnspeakable(v: Value)
    requires v.None?
    ensures !Speakable(v)
  {}

  lemma NoMoreItems(lib: Library, items: seq<Value>)
    ensures ItemsText(lib, items[|items|..], items == []) == []
    ensures ItemsText(lib, items[|items|..], |items| == 0) == []
  {}

  lemma OneItem(lib: Library, items: seq<Value>, i: nat, t: Str)
    requires i < |items|
    ensures t + ItemsText(lib, items[i..], i == 0)
         == t + (if i > 0 then Ascii(", ") else []) + LiteralText(lib, items[i]) + ItemsText(lib, items[i + 1..], false)
  {
    hide LiteralText, Ascii;
    assert items[i..][1..] == items[i + 1..];
  }

  method WriteObject(lib: Library, v: Value, out: Builder) returns (ok: bool)
    requires v.Object?
    modifies out
    ensures ok <==> Speakable(v)
    ensures ok ==> out.text == old(out.text) + LiteralText(lib, v)
    decreases v, 1
  {
    hide FieldsText, Ascii, FlatText, Sorted;
    var present := Present(v.fields);
    var names := SortNames(present);
    assert forall n :: n in v.fields && !v.fields[n].None? <==> n in names;
    if |names| == 0 {
      out.Say("{}");
      assert present == {};
      return true;
    }
    ghost var was := out.text;
    out.Say("{ ");
    ok := WriteFields(lib, names, v, out);
    if ok {
      out.Say(" }");
      Outer(was, Ascii("{ "), FieldsText(lib, names, v, true), Ascii(" }"));
      assert present != {};
    }
  }

  method WriteFields(lib: Library, names: seq<Str>, v: Value, out: Builder) returns (ok: bool)
    requires v.Object? && forall n :: n in names ==> n in v.fields
    modifies out
    ensures ok <==> forall n :: n in names ==> Speakable(v.fields[n])
    ensures ok ==> out.text == old(out.text) + FieldsText(lib, names, v, true)
    decreases v, 0
  {
    hide LiteralText, Speakable, Ascii, Q.Quoted, FieldsText;
    assert names[0..] == names;
    for i := 0 to |names|
      invariant forall j :: 0 <= j < i ==> Speakable(v.fields[names[j]])
      invariant out.text + FieldsText(lib, names[i..], v, i == 0) == old(out.text) + FieldsText(lib, names, v, true)
    {
      OneField(lib, names, v, i, out.text);
      if i > 0 { out.Say(", "); }
      Q.WriteQuoted(names[i], out);
      out.Say(": ");
      assert names[i] in names;
      ok := WriteLiteral(lib, v.fields[names[i]], out);
      if !ok { return; }
    }
    NoMoreFields(lib, names, v);
    ok := true;
  }

  lemma NoMoreFields(lib: Library, names: seq<Str>, v: Value)
    requires v.Object?
    ensures FieldsText(lib, names[|names|..], v, |names| == 0) == []
  {}

  lemma OneField(lib: Library, names: seq<Str>, v: Value, i: nat, t: Str)
    requires v.Object? && i < |names| && forall n :: n in names ==> n in v.fields
    ensures t + FieldsText(lib, names[i..], v, i == 0)
         == t + (if i > 0 then Ascii(", ")
                   else []) + Q.Quoted(names[i]) + Ascii(": ") + LiteralText(lib, v.fields[names[i]])
            + FieldsText(lib, names[i + 1..], v, false)
  {
    hide LiteralText, Ascii, Q.Quoted;
    assert names[i..][1..] == names[i + 1..];
    assert names[i..][0] == names[i];
    var c, q, l := Comma(i == 0), Q.Quoted(names[i]), LiteralText(lib, v.fields[names[i]]);
    var more := FieldsText(lib, names[i + 1..], v, false);
    assert FieldsText(lib, names[i..], v, i == 0) == c + q + Ascii(": ") + l + more;
    Five(t, c, q, Ascii(": "), l, more);
  }

  lemma Five(t: Str, a: Str, b: Str, c: Str, d: Str, e: Str)
    ensures t + (a + b + c + d + e) == t + a + b + c + d + e
  {}

  /** eventBatch: nothing is written unless every event is an object an event can be. */
  method Batch(lib: Library, events: seq<Value>) returns (text: Option<Str>)
    ensures text.Some? <==> forall i :: 0 <= i < |events| ==> events[i].Object? && Speakable(events[i])
    ensures text.Some? ==> text.value == Ascii("[") + ItemsText(lib, events, true) + Ascii("]")
  {
    hide LiteralText, Speakable, Ascii, ItemsText;
    var out := new Builder();
    out.Say("[");
    ghost var start := out.text;
    assert start == Ascii("[");
    for i := 0 to |events|
      invariant forall j :: 0 <= j < i ==> events[j].Object? && Speakable(events[j])
      invariant out.text + ItemsText(lib, events[i..], i == 0) == start + ItemsText(lib, events, true)
    {
      OneItem(lib, events, i, out.text);
      if !events[i].Object? { return Nothing; }
      if i > 0 { out.Say(", "); }
      var ok := WriteLiteral(lib, events[i], out);
      if !ok { return Nothing; }
    }
    NoMoreItems(lib, events);
    assert out.text == Ascii("[") + ItemsText(lib, events, true);
    out.Say("]");
    text := Some(out.text);
  }
}
