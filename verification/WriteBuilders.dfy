/** CREATE, UPDATE and DELETE as callers build them (write.go, statement.go). */
module WriteBuilders {
  import opened Words
  import opened Values
  import opened Texts
  import opened Statements
  import opened Builders
  import L = StatementLaws
  import R = StatementReading

  /** The first refusal and the fields set so far. */
  datatype FieldDraft = FieldDraft(error: Option<Fault>, fields: map<Str, Value>)

  function Put(d: FieldDraft, name: Str, value: Value): FieldDraft {
    if PlainName(name) then d.(fields := d.fields[name := value])
    else d.(error := First(d.error, NameFault("a field", name)))
  }

  function Puts(d: FieldDraft, sets: seq<(Str, Value)>): FieldDraft
    decreases |sets|
  {
    if sets == [] then d else Puts(Put(d, sets[0].0, sets[0].1), sets[1..])
  }

  /** What the last Set call for a name gave it. */
  function LastSet(sets: seq<(Str, Value)>, name: Str): Option<Value>
    decreases |sets|
  {
    if sets == [] then Nothing
    else
      var later := LastSet(sets[1..], name);
      if later.Some? then later else if sets[0].0 == name then Some(sets[0].1) else Nothing
  }

  function FirstBadName(sets: seq<(Str, Value)>): Option<Fault>
    decreases |sets|
  {
    if sets == [] then Nothing else First(NameFault("a field", sets[0].0), FirstBadName(sets[1..]))
  }

  /** After any Set calls: the first bad name is the refusal, and every good name has the value it was last given. */
  lemma {:induction false} PutsTell(d: FieldDraft, sets: seq<(Str, Value)>)
    ensures Puts(d, sets).error == First(d.error, FirstBadName(sets))
    ensures PlainNames(d.fields) ==> PlainNames(Puts(d, sets).fields)
    ensures forall name ::
              name in Puts(d, sets).fields <==> (PlainName(name) && LastSet(sets, name).Some?) || name in d.fields
    ensures forall name :: PlainName(name) && LastSet(sets, name).Some? ==>
              Puts(d, sets).fields[name] == LastSet(sets, name).value
    ensures forall name :: name in d.fields && !(PlainName(name) && LastSet(sets, name).Some?) ==>
              Puts(d, sets).fields[name] == d.fields[name]
    decreases |sets|
  {
    hide PlainName;
    if sets != [] { PutsTell(Put(d, sets[0].0, sets[0].1), sets[1..]); }
  }

  /** Set calls that leave every name the same last value leave the same fields, in whatever order they were made. */
  lemma OrderDoesNotMatter(d: FieldDraft, xs: seq<(Str, Value)>, ys: seq<(Str, Value)>)
    requires FirstBadName(xs) == FirstBadName(ys)
    requires forall name :: LastSet(xs, name) == LastSet(ys, name)
    ensures Puts(d, xs) == Puts(d, ys)
  {
    hide PlainName, LastSet, FirstBadName, Puts;
    PutsTell(d, xs);
    PutsTell(d, ys);
    var a, b := Puts(d, xs).fields, Puts(d, ys).fields;
    forall name ensures (name in a <==> name in b) && (name in a ==> a[name] == b[name]) {
      if PlainName(name) && LastSet(xs, name).Some? {
        assert LastSet(ys, name) == LastSet(xs, name);
      }
    }
    assert a == b;
  }

  ghost function WriteOutcome(error: Option<Fault>, s: Statement): Outcome {
    if error.Some? then Refused(error.value)
    else if Faults(s).Some? then Refused(Faults(s).value)
    else Done(Render(s))
  }

  // ---------- shared builder state ----------

  class WriteFields {
    var error: Option<Fault>
    var fieldSet: map<Str, Value>

    constructor (fault: Option<Fault>)
      ensures State() == FieldDraft(fault, map[])
    {
      error, fieldSet := fault, map[];
    }

    ghost function State(): FieldDraft
      reads this
    {
      FieldDraft(error, fieldSet)
    }

    method Fail(fault: Option<Fault>)
      modifies this`error
      ensures error == First(old(error), fault)
    {
      if error.Nothing? && fault.Some? { error := fault; }
    }

    method Set(name: Str, value: Value)
      modifies this
      ensures State() == Put(old(State()), name, value)
    {
      var plain := IsPlain(name);
      if !plain {
        Fail(Some(NotAName("a field", name)));
        return;
      }
      fieldSet := fieldSet[name := value];
    }
  }

  /** Each name, the separator and a fresh reference, in ascending order of the names. */
  method WriteAssignments(b: Binder, out: Builder, fields: map<Str, Value>, sep: string)
    requires b.Valid()
    modifies b, out
    ensures b.Valid() && b.values == old(b.values) + FieldValues(fields)
    ensures out.text == old(out.text) + Listed(FieldParts(Sorted(fields.Keys), sep, |old(b.values)|))
  {
    hide Ascii, Listed, Reference, Bindings, Sorted, FieldPart, FieldParts, FieldValues;
    var names := SortNames(fields.Keys);
    ghost var n := |b.values|;
    ghost var parts, values := FieldParts(names, sep, n), FieldValues(fields);
    PartCount(fields, names, sep, n);
    assert Listed(parts[..0]) == [] by { assert parts[..0] == []; ListOfNothing(); }
    for i := 0 to |names|
      invariant b.Valid() && b.values == old(b.values) + values[..i]
      invariant out.text == old(out.text) + Listed(parts[..i])
    {
      PartAt(fields, names, sep, n, i);
      WriteAssignment(b, out, i, names[i], sep, fields[names[i]]);
      OneMore(parts, i);
      OneMore(values, i);
      ListedSnoc(parts[..i], parts[i]);
    }
    assert parts[..|names|] == parts && values[..|names|] == values;
  }

  /** One name and the reference its value is bound under. */
  method WriteAssignment(b: Binder, out: Builder, i: nat, name: Str, sep: string, value: Value)
    requires b.Valid()
    modifies b, out
    ensures b.Valid() && b.values == old(b.values) + [value]
    ensures out.text == old(out.text) + ((if i > 0 then Ascii(", ") else []) + FieldPart(name, sep, |old(b.values)|))
  {
    hide Ascii, Reference, Bindings, FieldPart;
    ghost var t, n := out.text, |b.values|;
    Separate(out, i);
    out.Put(name);
    out.Say(sep);
    var reference := b.Bind(value);
    out.Put(reference);
    PartWords(t, i, name, sep, n);
  }

  lemma OneMore<T>(xs: seq<T>, i: nat)
    requires i < |xs|
    ensures xs[..i + 1] == xs[..i] + [xs[i]]
  {}

  lemma PartCount(fields: map<Str, Value>, names: seq<Str>, sep: string, n: nat)
    requires names == Sorted(fields.Keys)
    ensures |FieldParts(names, sep, n)| == |names| == |FieldValues(fields)|
  {
    hide Sorted;
  }

  lemma PartAt(fields: map<Str, Value>, names: seq<Str>, sep: string, n: nat, i: nat)
    requires names == Sorted(fields.Keys) && i < |names|
    ensures names[i] in fields
    ensures |FieldParts(names, sep, n)| == |names| && FieldParts(names, sep, n)[i] == FieldPart(names[i], sep, n + i)
    ensures |FieldValues(fields)| == |names| && FieldValues(fields)[i] == fields[names[i]]
  {
    hide Sorted;
  }

  lemma PartWords(t: Str, i: nat, name: Str, sep: string, k: nat)
    ensures t + (if i > 0 then Ascii(", ") else []) + name + Ascii(sep) + Reference(k)
         == t + ((if i > 0 then Ascii(", ") else []) + FieldPart(name, sep, k))
  {
    hide Ascii, Reference;
  }

  method RenderObject(b: Binder, out: Builder, fields: map<Str, Value>)
    requires b.Valid()
    modifies b, out
    ensures b.Valid() && b.values == old(b.values) + FieldValues(fields)
    ensures out.text == old(out.text) + ObjectText(fields, |old(b.values)|)
  {
    hide Ascii, Listed, FieldParts, Bindings, Sorted, FieldValues;
    out.Say("{ ");
    WriteAssignments(b, out, fields, ": $");
    out.Say(" }");
  }

  // ---------- the four statements ----------

  class CreateRecordStatement {
    const fields: WriteFields
    const table: Str
    const id: Value

    constructor (table: Str, id: Value)
      ensures fresh(fields) && fields.State() == FieldDraft(NameFault("a table", table), map[])
      ensures this.table == table && this.id == id
    {
      this.table, this.id := table, id;
      var plain := IsPlain(table);
      fields := new WriteFields(if plain then Nothing else Some(NotAName("a table", table)));
    }

    method Set(name: Str, value: Value)
      modifies fields
      ensures fields.State() == Put(old(fields.State()), name, value)
    {
      fields.Set(name, value);
    }

    method RenderCreate() returns (outcome: Outcome)
      ensures outcome == WriteOutcome(fields.error, CreateRecord(table, id, fields.fieldSet))
    {
      hide Ascii, Reference, ObjectText, Bindings, FieldValues, Script;
      if fields.error.Some? { return Refused(fields.error.value); }
      if |fields.fieldSet| == 0 { return Refused(Incomplete); }
      var b := new Binder();
      var out := new Builder();
      out.Say("CREATE ");
      out.Put(table);
      out.Say(":$");
      var reference := b.Bind(id);
      assert b.values == [id];
      out.Put(reference);
      out.Say(" = ");
      RenderObject(b, out, fields.fieldSet);
      out.Say(";");
      CreateScript(table, id, fields.fieldSet);
      outcome := Done(Rendered(out.text, b.parameters));
    }
  }

  lemma CreateScript(table: Str, id: Value, fields: map<Str, Value>)
    requires |fields| > 0
    ensures Script(CreateRecord(table, id, fields))
         == [] + Ascii("CREATE ") + table + Ascii(":$") + Reference(0) + Ascii(" = ") + ObjectText(fields, 1)
            + Ascii(";")
  {
    hide Ascii, Reference, ObjectText;
    assert [] + Ascii("CREATE ") == Ascii("CREATE ");
  }

  class CreateInTableStatement {
    const fields: WriteFields
    const table: Str

    constructor (table: Str)
      ensures fresh(fields) && fields.State() == FieldDraft(NameFault("a table", table), map[])
      ensures this.table == table
    {
      this.table := table;
      var plain := IsPlain(table);
      fields := new WriteFields(if plain then Nothing else Some(NotAName("a table", table)));
    }

    method Set(name: Str, value: Value)
      modifies fields
      ensures fields.State() == Put(old(fields.State()), name, value)
    {
      fields.Set(name, value);
    }

    method RenderCreate() returns (outcome: Outcome)
      ensures outcome == WriteOutcome(fields.error, CreateInTable(table, fields.fieldSet))
    {
      hide Ascii, Reference, ObjectText, Bindings, FieldValues, Script;
      if fields.error.Some? { return Refused(fields.error.value); }
      if |fields.fieldSet| == 0 { return Refused(Incomplete); }
      var b := new Binder();
      var out := new Builder();
      out.Say("CREATE ");
      out.Put(table);
      out.Say(" = ");
      RenderObject(b, out, fields.fieldSet);
      assert [] + FieldValues(fields.fieldSet) == FieldValues(fields.fieldSet);
      out.Say(";");
      CreateInTableScript(table, fields.fieldSet);
      outcome := Done(Rendered(out.text, b.parameters));
    }
  }

  lemma CreateInTableScript(table: Str, fields: map<Str, Value>)
    requires |fields| > 0
    ensures Script(CreateInTable(table, fields))
         == [] + Ascii("CREATE ") + table + Ascii(" = ") + ObjectText(fields, 0) + Ascii(";")
  {
    hide Ascii, Reference, ObjectText;
    assert [] + Ascii("CREATE ") == Ascii("CREATE ");
  }

  class UpdateRecordStatement {
    const fields: WriteFields
    const table: Str
    const id: Value

    constructor (table: Str, id: Value)
      ensures fresh(fields) && fields.State() == FieldDraft(NameFault("a table", table), map[])
      ensures this.table == table && this.id == id
    {
      this.table, this.id := table, id;
      var plain := IsPlain(table);
      fields := new WriteFields(if plain then Nothing else Some(NotAName("a table", table)));
    }

    method Set(name: Str, value: Value)
      modifies fields
      ensures fields.State() == Put(old(fields.State()), name, value)
    {
      fields.Set(name, value);
    }

    method RenderUpdate() returns (outcome: Outcome)
      ensures outcome == WriteOutcome(fields.error, UpdateRecord(table, id, fields.fieldSet))
    {
      hide Ascii, Reference, Listed, FieldParts, Sorted, Bindings, FieldValues, Script;
      if fields.error.Some? { return Refused(fields.error.value); }
      if |fields.fieldSet| == 0 { return Refused(Incomplete); }
      var b := new Binder();
      var out := new Builder();
      out.Say("UPDATE ");
      out.Put(table);
      out.Say(":$");
      var reference := b.Bind(id);
      assert b.values == [id];
      out.Put(reference);
      out.Say(" SET ");
      WriteAssignments(b, out, fields.fieldSet, " = $");
      out.Say(";");
      UpdateScript(table, id, fields.fieldSet);
      outcome := Done(Rendered(out.text, b.parameters));
    }
  }

  lemma UpdateScript(table: Str, id: Value, fields: map<Str, Value>)
    requires |fields| > 0
    ensures Script(UpdateRecord(table, id, fields))
         == [] + Ascii("UPDATE ") + table + Ascii(":$") + Reference(0) + Ascii(" SET ")
            + Listed(FieldParts(Sorted(fields.Keys), " = $", 1)) + Ascii(";")
  {
    hide Ascii, Reference, Listed, FieldParts, Sorted;
    assert [] + Ascii("UPDATE ") == Ascii("UPDATE ");
  }

  class DeleteRecordStatement {
    const error: Option<Fault>
    const table: Str
    const id: Value

    constructor (table: Str, id: Value)
      ensures error == NameFault("a table", table) && this.table == table && this.id == id
    {
      this.table, this.id := table, id;
      var plain := IsPlain(table);
      error := if plain then Nothing else Some(NotAName("a table", table));
    }

    method RenderDelete() returns (outcome: Outcome)
      ensures outcome == WriteOutcome(error, DeleteRecord(table, id))
    {
      hide Ascii, Reference, Bindings, Script;
      if error.Some? { return Refused(error.value); }
      var b := new Binder();
      var out := new Builder();
      out.Say("DELETE ");
      out.Put(table);
      out.Say(":$");
      var reference := b.Bind(id);
      assert b.values == [id];
      out.Put(reference);
      out.Say(";");
      DeleteScript(table, id);
      outcome := Done(Rendered(out.text, b.parameters));
    }
  }

  lemma DeleteScript(table: Str, id: Value)
    ensures Script(DeleteRecord(table, id)) == [] + Ascii("DELETE ") + table + Ascii(":$") + Reference(0) + Ascii(";")
  {
    hide Ascii, Reference;
    assert [] + Ascii("DELETE ") == Ascii("DELETE ");
  }

  /** What was built from a good table name by good Set calls is legal, so what it renders reads back. */
  lemma WritesAreLegal(table: Str, id: Value, sets: seq<(Str, Value)>)
    ensures var d := Puts(FieldDraft(NameFault("a table", table), map[]), sets);
            d.error.Nothing? ==>
              && Legal(CreateRecord(table, id, d.fields)) && Legal(CreateInTable(table, d.fields))
              && Legal(UpdateRecord(table, id, d.fields)) && Legal(DeleteRecord(table, id))
  {
    hide PlainName, Puts, FirstBadName, LastSet;
    PutsTell(FieldDraft(NameFault("a table", table), map[]), sets);
  }

  /** Over every run of Set calls: what is rendered reads back to the last value each field was given. */
  lemma EveryWriteReadsBack(s: Statement, sets: seq<(Str, Value)>)
    requires s.CreateRecord? || s.CreateInTable? || s.UpdateRecord?
    requires s.fields == Puts(FieldDraft(NameFault("a table", s.table), map[]), sets).fields
    ensures var error := Puts(FieldDraft(NameFault("a table", s.table), map[]), sets).error;
            var outcome := WriteOutcome(error, s);
            outcome.Done? ==> R.ReadStatement(outcome.rendered.script, outcome.rendered.parameters) == Some(s)
  {
    hide Puts, R.ReadStatement, PlainName, PlainNames, Render;
    WritesAreLegal(s.table, None, sets);
    var error := Puts(FieldDraft(NameFault("a table", s.table), map[]), sets).error;
    if WriteOutcome(error, s).Done? { L.StatementReads(s); }
  }
}
