/** The statement builders as callers meet them: fields updated in place, and a Render proved against its text. */
module Builders {
  import opened Words
  import opened Values
  import opened Texts
  import opened Statements
  import L = StatementLaws
  import R = StatementReading
  import Spans

  datatype Outcome = Done(rendered: Rendered) | Refused(fault: Fault)

  // ---------- binding and filters ----------

  class Binder {
    var parameters: map<Str, Value>
    ghost var values: seq<Value>

    constructor ()
      ensures Valid() && values == []
    {
      parameters := map[];
      values := [];
    }

    /** The map holds the values bound so far under p0, p1, ... */
    ghost predicate Valid()
      reads this
    {
      parameters == Bindings(values)
    }

    method Bind(value: Value) returns (reference: Str)
      requires Valid()
      modifies this
      ensures Valid() && values == old(values) + [value]
      ensures reference == Reference(|old(values)|)
    {
      L.BindingsAre(values);
      reference := Ascii("p") + Itoa(|parameters|);
      parameters := parameters[reference := value];
      values := values + [value];
      assert values[..|values| - 1] == old(values);
    }
  }

  method RenderFilter(f: Filter, b: Binder, out: Builder) returns (fault: Option<Fault>)
    requires b.Valid()
    modifies b, out
    ensures b.Valid()
    ensures fault == FilterFault(f)
    ensures fault.Nothing? ==> b.values == old(b.values) + FilterValues(f)
    ensures fault.Nothing? ==> out.text == old(out.text) + FilterText(f, |old(b.values)|)
    decreases f
  {
    hide Ascii, Reference, PlainName, Bindings;
    match f
    case NoFilter => fault := Some(NilFilter);
    case Comparison(field, op, value) => fault := RenderComparison(f, b, out);
    case And(l, r) => fault := RenderJunction(f, l, " AND ", r, b, out);
    case Or(l, r) => fault := RenderJunction(f, l, " OR ", r, b, out);
  }

  method RenderComparison(f: Filter, b: Binder, out: Builder) returns (fault: Option<Fault>)
    requires f.Comparison? && b.Valid()
    modifies b, out
    ensures b.Valid()
    ensures fault == FilterFault(f)
    ensures fault.Nothing? ==> b.values == old(b.values) + FilterValues(f)
    ensures fault.Nothing? ==> out.text == old(out.text) + FilterText(f, |old(b.values)|)
  {
    hide Ascii, Reference, PlainName, Bindings, FilterText, Symbol;
    var plain := IsPlain(f.field);
    if !plain { return Some(NotAName("a field", f.field)); }
    var symbol := Symbol(f.op);
    if symbol.Nothing? { return Some(NotAnOperator(f.op)); }
    ghost var start, n := out.text, |b.values|;
    out.Put(f.field);
    out.Say(" ");
    out.Say(symbol.value);
    out.Say(" $");
    var reference := b.Bind(f.value);
    out.Put(reference);
    ComparisonWords(start, f, n);
    fault := Nothing;
  }

  lemma ComparisonWords(t: Str, f: Filter, n: nat)
    requires f.Comparison? && FilterFault(f).Nothing?
    ensures t + f.field + Ascii(" ") + Ascii(Symbol(f.op).value) + Ascii(" $") + Reference(n) == t + FilterText(f, n)
  {
    hide Ascii, Reference, Symbol;
    var space, symbol, dollar := Ascii(" "), Ascii(Symbol(f.op).value), Ascii(" $");
    L.Regroup(t, f.field, space, symbol, dollar, Reference(n));
    L.Regroup([], f.field, space, symbol, dollar, Reference(n));
  }

  method RenderJunction(f: Filter, l: Filter, word: string, r: Filter, b: Binder, out: Builder)
    returns (fault: Option<Fault>)
    requires (f == And(l, r) && word == " AND ") || (f == Or(l, r) && word == " OR ")
    requires b.Valid()
    modifies b, out
    ensures b.Valid()
    ensures fault == FilterFault(f)
    ensures fault.Nothing? ==> b.values == old(b.values) + FilterValues(f)
    ensures fault.Nothing? ==> out.text == old(out.text) + FilterText(f, |old(b.values)|)
    decreases f, 0
  {
    hide Ascii, Reference, PlainName, Bindings, FilterText;
    ghost var start, n := out.text, |b.values|;
    out.Say("(");
    fault := RenderFilter(l, b, out);
    if fault.Some? { return; }
    out.Say(word);
    fault := RenderFilter(r, b, out);
    if fault.Some? { return; }
    out.Say(")");
    var m := n + |FilterValues(l)|;
    L.Regroup(start, Ascii("("), FilterText(l, n), Ascii(word), FilterText(r, m), Ascii(")"));
    L.JunctionText(f, l, word, r, n, []);
    assert FilterText(f, n) + [] == FilterText(f, n) && Ascii(")") + [] == Ascii(")");
    assert old(b.values) + FilterValues(l) + FilterValues(r) == old(b.values) + (FilterValues(l) + FilterValues(r));
  }

  // ---------- lists, written from the left ----------

  lemma {:induction false} MoreSnoc(parts: seq<Str>, part: Str)
    ensures More(parts + [part]) == More(parts) + (Ascii(", ") + part)
    decreases |parts|
  {
    hide Ascii;
    if parts == [] {
      assert [part][1..] == [];
      assert More([part]) == Ascii(", ") + part + [];
    } else {
      assert (parts + [part])[1..] == parts[1..] + [part];
      MoreSnoc(parts[1..], part);
      Assoc(Ascii(", ") + parts[0], More(parts[1..]), Ascii(", ") + part);
    }
  }

  lemma ListedSnoc(parts: seq<Str>, part: Str)
    ensures Listed(parts + [part]) == Listed(parts) + ((if parts == [] then [] else Ascii(", ")) + part)
  {
    hide Ascii, More;
    if parts == [] {
      assert More([part][1..]) == [] by { assert [part][1..] == []; MoreOfNothing(); }
    } else {
      assert (parts + [part])[1..] == parts[1..] + [part];
      MoreSnoc(parts[1..], part);
      Assoc(parts[0], More(parts[1..]), Ascii(", ") + part);
    }
  }

  method Separate(out: Builder, i: nat)
    modifies out
    ensures out.text == old(out.text) + if i > 0 then Ascii(", ") else []
  {
    if i > 0 { out.Say(", "); }
  }

  // ---------- SELECT ----------

  /** A select under construction: the first refusal, and the clauses so far. */
  datatype Draft = Draft(error: Option<Fault>, query: Query)

  datatype Step =
    | AddField(name: Str)
    | AddLines(name: Str, start: UInt64, count: UInt64)
    | SetWhere(filter: Filter)
    | AddOrder(field: Str, direction: int)
    | SetStart(n: UInt64)
    | SetLimit(n: UInt64)
    | SetStaleness(bound: Str)
    | SetAnswerer(who: Str)

  function NameFault(what: string, name: Str): Option<Fault> {
    if PlainName(name) then Nothing else Some(NotAName(what, name))
  }

  /** Why a step is refused, when it is. */
  ghost function Refusal(step: Step): Option<Fault> {
    match step
    case AddField(name) => NameFault("a field", name)
    case AddLines(name, _, _) => NameFault("a field", name)
    case AddOrder(field, _) => NameFault("a field", field)
    case SetStaleness(bound) => if Spans.IsSpan(bound) then Nothing else Some(NotASpan(bound))
    case SetAnswerer(who) => if who == ANY || who == LEADER then Nothing else Some(NotAnAnswerer(who))
    case _ => Nothing
  }

  /** The first fault wins. */
  function First(a: Option<Fault>, b: Option<Fault>): Option<Fault> {
    if a.Some? then a else b
  }

  ghost function Stepped(d: Draft, step: Step): Draft {
    var q := d.query;
    var q' := match step
      case AddField(name) => q.(items := q.items + [Field(name)])
      case AddLines(name, start, count) => q.(items := q.items + [Lines(name, start, count)])
      case SetWhere(filter) => q.(filter := filter)
      case AddOrder(field, direction) => q.(order := q.order + [Ordering(field, direction)])
      case SetStart(n) => q.(start := Some(n))
      case SetLimit(n) => q.(limit := Some(n))
      case SetStaleness(bound) => if Refusal(step).Some? then q else q.(staleness := bound)
      case SetAnswerer(who) => if Refusal(step).Some? then q else q.(answeredBy := who);
    Draft(First(d.error, Refusal(step)), q')
  }

  ghost function AllSteps(d: Draft, steps: seq<Step>): Draft
    decreases |steps|
  {
    if steps == [] then d else AllSteps(Stepped(d, steps[0]), steps[1..])
  }

  ghost function FirstRefusal(steps: seq<Step>): Option<Fault> {
    if steps == [] then Nothing else First(Refusal(steps[0]), FirstRefusal(steps[1..]))
  }

  function Begun(table: Str): Draft {
    Draft(NameFault("a table", table), Query(table, [], NoFilter, [], Nothing, Nothing, [], []))
  }

  ghost predicate Sound(d: Draft) {
    d.error.Nothing? ==> LegalQuery(d.query)
  }

  lemma StepKeepsSound(d: Draft, step: Step)
    requires Sound(d)
    ensures Sound(Stepped(d, step))
  {
    hide PlainName, Spans.IsSpan;
  }

  /** Whatever a caller asks for, in whatever order, the refusal kept is the first; without one the query is legal. */
  lemma {:induction false} FirstRefusalWins(d: Draft, steps: seq<Step>)
    requires Sound(d)
    ensures AllSteps(d, steps).error == First(d.error, FirstRefusal(steps))
    ensures Sound(AllSteps(d, steps))
    decreases |steps|
  {
    hide Refusal, Sound;
    if steps != [] {
      StepKeepsSound(d, steps[0]);
      FirstRefusalWins(Stepped(d, steps[0]), steps[1..]);
    }
  }

  ghost function SelectOutcome(d: Draft): Outcome {
    if d.error.Some? then Refused(d.error.value)
    else if SelectFault(d.query).Some? then Refused(SelectFault(d.query).value)
    else Done(Render(Select(d.query)))
  }

  lemma FilterRefuses(d: Draft)
    requires d.error.Nothing? && d.query.filter != NoFilter && FilterFault(d.query.filter).Some?
    ensures SelectOutcome(d) == Refused(FilterFault(d.query.filter).value)
  {}

  lemma OrderRefuses(d: Draft)
    requires d.error.Nothing? && (d.query.filter == NoFilter || FilterFault(d.query.filter).Nothing?)
    requires OrderFault(d.query.order).Some?
    ensures SelectOutcome(d) == Refused(OrderFault(d.query.order).value)
  {}

  lemma SelectRenders(d: Draft, script: Str, parameters: map<Str, Value>)
    requires d.error.Nothing? && SelectFault(d.query).Nothing?
    requires script == SelectText(d.query) && parameters == Bindings(FilterValues(d.query.filter))
    ensures SelectOutcome(d) == Done(Rendered(script, parameters))
  {
    hide SelectText, Bindings, FilterValues;
    L.SelectScript(d.query);
  }

  // ---------- what a caller asked for ----------

  /** The last of what these steps give, if any gives anything. */
  ghost function Last<T>(steps: seq<Step>, given: Step -> Option<T>): Option<T> {
    if steps == [] then Nothing
    else
      var last := |steps| - 1;
      if given(steps[last]).Some? then given(steps[last]) else Last(steps[..last], given)
  }

  /** All that these steps give, in the order of the steps. */
  ghost function Collected<T>(steps: seq<Step>, given: Step -> Option<T>): seq<T> {
    if steps == [] then []
    else
      var last := |steps| - 1;
      Collected(steps[..last], given) + if given(steps[last]).Some? then [given(steps[last]).value] else []
  }

  function OrEmpty(t: Option<Str>): Str {
    if t.Some? then t.value else []
  }

  ghost function ItemGiven(step: Step): Option<Item> {
    if step.AddField? then Some(Field(step.name))
    else if step.AddLines? then Some(Lines(step.name, step.start, step.count))
    else Nothing
  }

  ghost function FilterGiven(step: Step): Option<Filter> {
    if step.SetWhere? then Some(step.filter) else Nothing
  }

  ghost function OrderingGiven(step: Step): Option<Ordering> {
    if step.AddOrder? then Some(Ordering(step.field, step.direction)) else Nothing
  }

  ghost function StartGiven(step: Step): Option<UInt64> {
    if step.SetStart? then Some(step.n) else Nothing
  }

  ghost function LimitGiven(step: Step): Option<UInt64> {
    if step.SetLimit? then Some(step.n) else Nothing
  }

  ghost function BoundGiven(step: Step): Option<Str> {
    if step.SetStaleness? && Spans.IsSpan(step.bound) then Some(step.bound) else Nothing
  }

  ghost function AnswererGiven(step: Step): Option<Str> {
    if step.SetAnswerer? && (step.who == Ascii("ANY") || step.who == Ascii("LEADER")) then Some(step.who) else Nothing
  }

  /** Items and orderings as they were called for, and of everything else the last that was accepted. */
  ghost function Asked(table: Str, steps: seq<Step>): Query {
    var filter := Last(steps, FilterGiven);
    Query(table, Collected(steps, ItemGiven), if filter.Some? then filter.value else NoFilter,
          Collected(steps, OrderingGiven), Last(steps, StartGiven), Last(steps, LimitGiven),
          OrEmpty(Last(steps, BoundGiven)), OrEmpty(Last(steps, AnswererGiven)))
  }

  lemma {:induction false} StepsSnoc(d: Draft, steps: seq<Step>, step: Step)
    ensures AllSteps(d, steps + [step]) == Stepped(AllSteps(d, steps), step)
    decreases |steps|
  {
    hide Stepped;
    if steps == [] {
      assert [step][1..] == [];
      assert AllSteps(Stepped(d, step), []) == Stepped(d, step);
    } else {
      assert (steps + [step])[1..] == steps[1..] + [step];
      StepsSnoc(Stepped(d, steps[0]), steps[1..], step);
    }
  }

  lemma AskedNothing(table: Str)
    ensures Asked(table, []) == Query(table, [], NoFilter, [], Nothing, Nothing, [], [])
  {}

  lemma AskedMore(table: Str, steps: seq<Step>, step: Step, d: Draft)
    requires d.query == Asked(table, steps)
    ensures Stepped(d, step).query == Asked(table, steps + [step])
  {
    hide Spans.IsSpan, PlainName;
    assert (steps + [step])[..|steps|] == steps;
  }

  /** What any calls leave to be rendered is what they asked for. */
  lemma {:induction false} StepsTell(table: Str, steps: seq<Step>)
    ensures AllSteps(Begun(table), steps).query == Asked(table, steps)
    decreases |steps|
  {
    hide Stepped, Asked;
    if steps == [] {
      AskedNothing(table);
    } else {
      var last := |steps| - 1;
      assert steps == steps[..last] + [steps[last]];
      StepsTell(table, steps[..last]);
      StepsSnoc(Begun(table), steps[..last], steps[last]);
      AskedMore(table, steps[..last], steps[last], AllSteps(Begun(table), steps[..last]));
    }
  }

  /** Over every run of builder calls: what is rendered reads back to exactly what was asked for. */
  lemma EverySelectReadsBack(table: Str, steps: seq<Step>)
    ensures var outcome := SelectOutcome(AllSteps(Begun(table), steps));
            outcome.Done? ==>
              R.ReadStatement(outcome.rendered.script, outcome.rendered.parameters) == Some(Select(Asked(table, steps)))
  {
    hide AllSteps, R.ReadStatement, LegalQuery, SelectFault, Render, Asked;
    BegunIsSound(table);
    FirstRefusalWins(Begun(table), steps);
    StepsTell(table, steps);
    var d := AllSteps(Begun(table), steps);
    if SelectOutcome(d).Done? { L.StatementReads(Select(d.query)); }
  }

  /** A step that is not refused: names are names, a span is one, and an answerer is one of the two. */
  ghost predicate Fits(step: Step) {
    && (step.AddField? || step.AddLines? ==> PlainName(step.name))
    && (step.AddOrder? ==> PlainName(step.field))
    && (step.SetStaleness? ==> Spans.IsSpan(step.bound))
    && (step.SetAnswerer? ==> step.who == Ascii("ANY") || step.who == Ascii("LEADER"))
  }

  /** What a step that does not fit is refused for. */
  ghost predicate Blames(fault: Fault, step: Step) {
    && (step.AddField? || step.AddLines? ==> fault == NotAName("a field", step.name))
    && (step.AddOrder? ==> fault == NotAName("a field", step.field))
    && (step.SetStaleness? ==> fault == NotASpan(step.bound))
    && (step.SetAnswerer? ==> fault == NotAnAnswerer(step.who))
  }

  lemma RefusalBlames(step: Step)
    ensures Refusal(step).Nothing? <==> Fits(step)
    ensures Refusal(step).Some? ==> Blames(Refusal(step).value, step)
  {
    hide PlainName, Spans.IsSpan;
  }

  lemma {:induction false} FirstRefusalIs(steps: seq<Step>, k: nat)
    requires k <= |steps| && forall j :: 0 <= j < k ==> Fits(steps[j])
    requires k < |steps| ==> !Fits(steps[k])
    ensures FirstRefusal(steps).Some? <==> k < |steps|
    ensures k < |steps| ==> Blames(FirstRefusal(steps).value, steps[k])
  {
    hide Refusal, Fits, Blames;
    if steps != [] {
      RefusalBlames(steps[0]);
      if k > 0 { FirstRefusalIs(steps[1..], k - 1); }
    }
  }

  /** Of a bad table and every step that does not fit, the first is what the statement is refused for. */
  lemma EveryRefusalIsTheFirst(table: Str, steps: seq<Step>, k: nat)
    requires k <= |steps| && (forall j :: 0 <= j < k ==> Fits(steps[j])) && (k < |steps| ==> !Fits(steps[k]))
    ensures var outcome := SelectOutcome(AllSteps(Begun(table), steps));
            && (!PlainName(table) ==> outcome == Refused(NotAName("a table", table)))
            && (PlainName(table) && k < |steps| ==> outcome.Refused? && Blames(outcome.fault, steps[k]))
            && (outcome.Done? <==>
                  PlainName(table) && k == |steps| && SelectFault(Asked(table, steps)).Nothing?)
  {
    hide AllSteps, FirstRefusal, Fits, Blames, SelectFault, PlainName, Asked, Render;
    BegunIsSound(table);
    FirstRefusalWins(Begun(table), steps);
    FirstRefusalIs(steps, k);
    StepsTell(table, steps);
  }

  lemma BegunIsSound(table: Str)
    ensures Sound(Begun(table))
  {
    hide PlainName;
  }

  class SelectStatement {
    var error: Option<Fault>
    const table: Str
    var items: seq<Item>
    var filter: Filter
    var order: seq<Ordering>
    var start: UInt64
    var limit: UInt64
    var hasFrom: bool
    var hasCap: bool
    var staleness: Str
    var answeredBy: Str

    ghost function State(): Draft
      reads this
    {
      Draft(error, Query(table, items, filter, order, if hasFrom then Some(start) else Nothing,
                         if hasCap then Some(limit) else Nothing, staleness, answeredBy))
    }

    constructor (table: Str)
      ensures State() == Begun(table)
    {
      this.table := table;
      items, filter, order := [], NoFilter, [];
      start, limit, hasFrom, hasCap := 0, 0, false, false;
      staleness, answeredBy, error := [], [], Nothing;
      new;
      var plain := IsPlain(table);
      Fail(if plain then Nothing else Some(NotAName("a table", table)));
    }

    method Fail(fault: Option<Fault>)
      modifies this`error
      ensures error == First(old(error), fault)
    {
      if error.Nothing? && fault.Some? { error := fault; }
    }

    method CheckField(name: Str)
      modifies this`error
      ensures error == First(old(error), NameFault("a field", name))
    {
      var plain := IsPlain(name);
      Fail(if plain then Nothing else Some(NotAName("a field", name)));
    }

    method AddField(name: Str)
      modifies this
      ensures State() == Stepped(old(State()), Step.AddField(name))
    {
      CheckField(name);
      items := items + [Field(name)];
    }

    method AddLines(name: Str, from: UInt64, count: UInt64)
      modifies this
      ensures State() == Stepped(old(State()), Step.AddLines(name, from, count))
    {
      CheckField(name);
      items := items + [Lines(name, from, count)];
    }

    method Where(f: Filter)
      modifies this
      ensures State() == Stepped(old(State()), SetWhere(f))
    {
      filter := f;
    }

    method OrderBy(field: Str, direction: int)
      modifies this
      ensures State() == Stepped(old(State()), AddOrder(field, direction))
    {
      CheckField(field);
      order := order + [Ordering(field, direction)];
    }

    method Start(n: UInt64)
      modifies this
      ensures State() == Stepped(old(State()), SetStart(n))
    {
      start, hasFrom := n, true;
    }

    method Limit(n: UInt64)
      modifies this
      ensures State() == Stepped(old(State()), SetLimit(n))
    {
      limit, hasCap := n, true;
    }

    method Staleness(bound: Str)
      modifies this
      ensures State() == Stepped(old(State()), SetStaleness(bound))
    {
      hide Spans.IsSpan;
      var ok := Spans.CheckSpan(bound);
      if !ok {
        Fail(Some(NotASpan(bound)));
        return;
      }
      staleness := bound;
    }

    method AnsweredBy(who: Str)
      modifies this
      ensures State() == Stepped(old(State()), SetAnswerer(who))
    {
      if who != ANY && who != LEADER {
        Fail(Some(NotAnAnswerer(who)));
        return;
      }
      answeredBy := who;
    }

    method RenderSelect() returns (outcome: Outcome)
      ensures outcome == SelectOutcome(State())
    {
      hide Ascii, ItemsText, WhereText, OrderByText, CountText, WordText, FilterFault, FilterValues, OrderFault,
        Bindings, Script;
      if error.Some? { return Refused(error.value); }
      hide SelectOutcome;
      ghost var d, q := State(), State().query;
      var b := new Binder();
      var out := new Builder();
      out.Say("SELECT ");
      WriteItems(out);
      out.Say(" FROM ");
      out.Put(table);
      if filter != NoFilter {
        var fault := WriteWhere(b, out);
        if fault.Some? {
          FilterRefuses(d);
          return Refused(fault.value);
        }
      }
      NoValues();
      WhereOfNothing();
      var fault := WriteOrder(out);
      if fault.Some? {
        OrderRefuses(d);
        return Refused(fault.value);
      }
      NoOrderFault(order);
      assert out.text
          == Ascii("SELECT ") + ItemsText(items) + Ascii(" FROM ") + table + WhereText(filter) + OrderByText(order);
      SayCount(out, " START ", hasFrom, start);
      SayCount(out, " LIMIT ", hasCap, limit);
      SayWord(out, " STALENESS ", staleness);
      SayWord(out, " ANSWERED BY ", answeredBy);
      out.Say(";");
      SelectRenders(d, out.text, b.parameters);
      outcome := Done(Rendered(out.text, b.parameters));
    }

    method WriteItems(out: Builder)
      modifies out
      ensures out.text == old(out.text) + ItemsText(items)
    {
      hide Ascii, Listed, ItemText;
      if |items| == 0 { out.Say("*"); }
      ghost var parts := ItemParts(items);
      assert |items| > 0 ==> Listed(parts[..0]) == [] by { assert parts[..0] == []; ListOfNothing(); }
      for i := 0 to |items|
        invariant |items| > 0 ==> out.text == old(out.text) + Listed(parts[..i])
        invariant |items| == 0 ==> out.text == old(out.text) + Ascii("*")
      {
        ghost var t := out.text;
        Separate(out, i);
        WriteItem(out, items[i]);
        assert parts[..i + 1] == parts[..i] + [parts[i]];
        ListedSnoc(parts[..i], parts[i]);
        assert out.text == t + ((if i > 0 then Ascii(", ") else []) + parts[i]);
      }
      assert parts[..|items|] == parts;
    }

    method WriteWhere(b: Binder, out: Builder) returns (fault: Option<Fault>)
      requires filter != NoFilter && b.Valid() && b.values == []
      modifies b, out
      ensures fault == FilterFault(filter)
      ensures fault.Nothing? ==>
                out.text == old(out.text) + WhereText(filter) && b.parameters == Bindings(FilterValues(filter))
    {
      hide Ascii, FilterText, FilterValues, FilterFault, Bindings;
      out.Say(" WHERE ");
      fault := RenderFilter(filter, b, out);
      assert [] + FilterValues(filter) == FilterValues(filter);
    }

    method WriteOrder(out: Builder) returns (fault: Option<Fault>)
      modifies out
      ensures fault == OrderFault(order)
      ensures fault.Nothing? ==> (forall i :: 0 <= i < |order| ==> Direction(order[i].direction).Some?)
      ensures fault.Nothing? ==> out.text == old(out.text) + OrderByText(order)
    {
      hide Ascii, Listed, OrderText, Direction;
      if |order| == 0 {
        NoOrderFault(order);
        return Nothing;
      }
      out.Say(" ORDER BY ");
      ghost var start := out.text;
      assert Listed(OrderParts(order[..0])) == [] by { assert OrderParts(order[..0]) == []; ListOfNothing(); }
      for i := 0 to |order|
        invariant forall j :: 0 <= j < i ==> Direction(order[j].direction).Some?
        invariant OrderFault(order[i..]) == OrderFault(order)
        invariant out.text == start + Listed(OrderParts(order[..i]))
      {
        fault := WriteOrdering(out, i, order[i]);
        if fault.Some? { return; }
        assert order[i..][1..] == order[i + 1..];
        assert order[..i + 1] == order[..i] + [order[i]];
        assert OrderParts(order[..i + 1]) == OrderParts(order[..i]) + [OrderText(order[i])];
        ListedSnoc(OrderParts(order[..i]), OrderText(order[i]));
      }
      assert order[..|order|] == order;
      fault := Nothing;
    }
  }

  method WriteOrdering(out: Builder, i: nat, o: Ordering) returns (fault: Option<Fault>)
    modifies out
    ensures fault == if Direction(o.direction).Nothing? then Some(NotADirection(o.direction)) else Nothing
    ensures fault.Nothing? ==> out.text == old(out.text) + ((if i > 0 then Ascii(", ") else []) + OrderText(o))
  {
    hide Ascii, OrderText, Direction;
    ghost var t := out.text;
    Separate(out, i);
    var word := Direction(o.direction);
    if word.Nothing? { return Some(NotADirection(o.direction)); }
    out.Put(o.field);
    out.Say(" ");
    out.Say(word.value);
    OrderWords(t, i, o);
    fault := Nothing;
  }

  lemma OrderWords(t: Str, i: nat, o: Ordering)
    requires Direction(o.direction).Some?
    ensures t + (if i > 0 then Ascii(", ") else []) + o.field + Ascii(" ") + Ascii(Direction(o.direction).value)
         == t + ((if i > 0 then Ascii(", ") else []) + OrderText(o))
  {
    hide Ascii;
  }

  lemma ListOfNothing()
    ensures Listed([]) == []
  {}

  lemma NoValues()
    ensures FilterValues(NoFilter) == [] && Bindings([]) == map[]
  {}

  lemma WhereOfNothing()
    ensures WhereText(NoFilter) == []
  {}

  method SayCount(out: Builder, word: string, given: bool, n: UInt64)
    modifies out
    ensures out.text == old(out.text) + CountText(word, if given then Some(n) else Nothing)
  {
    hide Ascii, Itoa;
    if given {
      out.Say(word);
      out.Put(Itoa(n));
    }
  }

  method SayWord(out: Builder, word: string, what: Str)
    modifies out
    ensures out.text == old(out.text) + WordText(word, what)
  {
    hide Ascii;
    if what != [] {
      out.Say(word);
      out.Put(what);
    }
  }

  method WriteItem(out: Builder, item: Item)
    modifies out
    ensures out.text == old(out.text) + ItemText(item)
  {
    hide Ascii, Itoa;
    match item
    case Field(name) => out.Put(name);
    case Lines(name, start, count) => out.Put(Lines3(name, start, count));
  }
}
