/** Reading an answer as the client does it (outcome.go), proved against the readings. */
module AnswerReading {
  import opened Words
  import opened Values
  import opened Decoding
  import opened Outcomes
  import opened Reading

  method GetAnswer(body: Str) returns (outcomes: Option<seq<Outcome>>)
    ensures outcomes == ReadAnswer(body)
  {
    hide ReadOutcome, ReadU32, ReadLengthed, ReadMany;
    var r := new Reader(body);
    assert r.Rest() == body;
    var count := r.GetU32();
    if count.Nothing? { return Nothing; }
    ghost var whole := ReadMany(r.Rest(), count.value, ReadEntry);
    var found: seq<Outcome> := [];
    var i := 0;
    while i < count.value
      invariant 0 <= i <= count.value && r.Valid()
      invariant Continues(whole, found, ReadMany(r.Rest(), count.value - i, ReadEntry))
    {
      ManyGoesOn(whole, found, r.Rest(), count.value - i, ReadEntry);
      ghost var before := r.Rest();
      var slice := r.GetLengthed();
      if slice.Nothing? { return Nothing; }
      if |slice.value| < 1 {
        EmptyIsNoOutcome();
        return Nothing;
      }
      var outcome := GetOutcome(slice.value);
      if outcome.Nothing? { return Nothing; }
      assert ReadEntry(before) == Parsed(outcome.value, r.Rest(), true);
      found := found + [outcome.value];
      i := i + 1;
    }
    ManyEnds(whole, found, r.Rest(), ReadEntry);
    outcomes := Some(found);
  }

  lemma EmptyIsNoOutcome()
    ensures ReadOutcome([]).Nothing?
  {}

  method GetOutcome(slice: Str) returns (outcome: Option<Outcome>)
    ensures outcome == ReadOutcome(slice)
  {
    hide ReadRecords, ReadValueOutcome, ReadCounted, ReadU64, ReadText;
    var r := new Reader(slice);
    assert r.Rest() == slice;
    outcome := Nothing;
    var tag := r.GetU8();
    if tag.Nothing? { return; }
    if tag.value == OUTCOME_DONE {
      outcome := Some(Done);
    } else if tag.value == OUTCOME_RECORDS {
      outcome := GetRecords(r);
    } else if tag.value == OUTCOME_VALUE {
      outcome := GetValueOutcome(r);
    } else if tag.value == OUTCOME_KEYS {
      var keys := GetKeys(r);
      if keys.Some? { outcome := Some(Keys(keys.value)); }
    } else if tag.value == OUTCOME_REMOVED {
      var n := r.GetU64();
      if n.Some? { outcome := Some(Removed(n.value)); }
    } else {
      outcome := Some(Unknown(tag.value, slice[1..]));
    }
  }

  method GetValueOutcome(r: Reader) returns (outcome: Option<Outcome>)
    requires r.Valid()
    modifies r`at
    ensures outcome == ReadValueOutcome(old(r.Rest()))
  {
    hide ReadNames, ReadPayload;
    var names := GetNames(r);
    if names.Nothing? { return Nothing; }
    var v := GetPayload(r);
    outcome := if v.Some? then Some(ValueOutcome(names.value, v.value)) else Nothing;
  }

  method GetPayload(r: Reader) returns (got: Option<Value>)
    requires r.Valid()
    modifies r`at
    ensures r.Got(ReadPayload(old(r.Rest())), got)
  {
    hide ReadLengthed, Decoded;
    var payload := r.GetLengthed();
    if payload.Nothing? { return Nothing; }
    got := Decode(payload.value);
  }

  method GetKeys(r: Reader) returns (got: Option<seq<Str>>)
    requires r.Valid()
    modifies r`at
    ensures r.Got(ReadCounted(old(r.Rest()), ReadText), got)
  {
    hide ReadText, ReadU32, ReadMany;
    var count := r.GetU32();
    if count.Nothing? { return Nothing; }
    ghost var whole := ReadMany(r.Rest(), count.value, ReadText);
    var keys: seq<Str> := [];
    var i := 0;
    while i < count.value
      invariant 0 <= i <= count.value && r.Valid()
      invariant Continues(whole, keys, ReadMany(r.Rest(), count.value - i, ReadText))
    {
      ManyGoesOn(whole, keys, r.Rest(), count.value - i, ReadText);
      var key := r.GetText();
      if key.Nothing? { return Nothing; }
      keys := keys + [key.value];
      i := i + 1;
    }
    ManyEnds(whole, keys, r.Rest(), ReadText);
    got := Some(keys);
  }

  /** Names go straight into the map; `pairs` is the list of them so far. */
  method GetNames(r: Reader) returns (got: Option<map<UInt32, Str>>)
    requires r.Valid()
    modifies r`at
    ensures r.Got(ReadNames(old(r.Rest())), got)
  {
    hide ReadName, ReadU32, NamesOf, ReadMany;
    var count := r.GetU32();
    if count.Nothing? { return Nothing; }
    ghost var whole := ReadMany(r.Rest(), count.value, ReadName);
    ghost var pairs: seq<(UInt32, Str)> := [];
    var names: map<UInt32, Str> := map[];
    assert names == NamesOf(pairs) by { NoNames(); }
    var i := 0;
    while i < count.value
      invariant 0 <= i <= count.value && r.Valid() && names == NamesOf(pairs)
      invariant Continues(whole, pairs, ReadMany(r.Rest(), count.value - i, ReadName))
    {
      ManyGoesOn(whole, pairs, r.Rest(), count.value - i, ReadName);
      var name := GetName(r);
      if name.Nothing? { return Nothing; }
      OneMoreName(pairs, name.value);
      pairs := pairs + [name.value];
      names := names[name.value.0 := name.value.1];
      i := i + 1;
    }
    ManyEnds(whole, pairs, r.Rest(), ReadName);
    got := Some(names);
  }

  method GetName(r: Reader) returns (got: Option<(UInt32, Str)>)
    requires r.Valid()
    modifies r`at
    ensures r.Got(ReadName(old(r.Rest())), got)
  {
    hide ReadText, ReadU32;
    var id := r.GetU32();
    if id.Nothing? { return Nothing; }
    var name := r.GetText();
    if name.Nothing? { return Nothing; }
    got := Some((id.value, name.value));
  }

  lemma NoNames()
    ensures NamesOf([]) == map[]
  {}

  lemma OneMoreName(pairs: seq<(UInt32, Str)>, pair: (UInt32, Str))
    ensures NamesOf(pairs + [pair]) == NamesOf(pairs)[pair.0 := pair.1]
  {
    assert (pairs + [pair])[..|pairs|] == pairs;
  }

  method GetRow(r: Reader) returns (got: Option<Row>)
    requires r.Valid()
    modifies r`at
    ensures r.Got(ReadRow(old(r.Rest())), got)
  {
    hide ReadText, ReadPayload;
    var identity := r.GetText();
    if identity.Nothing? { return Nothing; }
    var v := GetPayload(r);
    if v.Nothing? { return Nothing; }
    got := Some(Row(identity.value, v.value));
  }

  method GetRows(r: Reader) returns (got: Option<seq<Row>>)
    requires r.Valid()
    modifies r`at
    ensures r.Got(ReadCounted(old(r.Rest()), ReadRow), got)
  {
    hide ReadRow, ReadU32, ReadMany;
    var count := r.GetU32();
    if count.Nothing? { return Nothing; }
    ghost var whole := ReadMany(r.Rest(), count.value, ReadRow);
    var rows: seq<Row> := [];
    var i := 0;
    while i < count.value
      invariant 0 <= i <= count.value && r.Valid()
      invariant Continues(whole, rows, ReadMany(r.Rest(), count.value - i, ReadRow))
    {
      ManyGoesOn(whole, rows, r.Rest(), count.value - i, ReadRow);
      var row := GetRow(r);
      if row.Nothing? { return Nothing; }
      rows := rows + [row.value];
      i := i + 1;
    }
    ManyEnds(whole, rows, r.Rest(), ReadRow);
    got := Some(rows);
  }

  method GetPair(r: Reader) returns (got: Option<(Str, Str)>)
    requires r.Valid()
    modifies r`at
    ensures r.Got(ReadPair(old(r.Rest())), got)
  {
    hide ReadText;
    var a := r.GetText();
    if a.Nothing? { return Nothing; }
    var b := r.GetText();
    if b.Nothing? { return Nothing; }
    got := Some((a.value, b.value));
  }

  method GetNotes(r: Reader) returns (got: Option<seq<Note>>)
    requires r.Valid()
    modifies r`at
    ensures r.Got(ReadCounted(old(r.Rest()), ReadNote), got)
  {
    hide ReadPair, ReadU32, ReadMany;
    var count := r.GetU32();
    if count.Nothing? { return Nothing; }
    ghost var whole := ReadMany(r.Rest(), count.value, ReadNote);
    var notes: seq<Note> := [];
    var i := 0;
    while i < count.value
      invariant 0 <= i <= count.value && r.Valid()
      invariant Continues(whole, notes, ReadMany(r.Rest(), count.value - i, ReadNote))
    {
      ManyGoesOn(whole, notes, r.Rest(), count.value - i, ReadNote);
      var pair := GetPair(r);
      if pair.Nothing? { return Nothing; }
      notes := notes + [Note(pair.value.0, pair.value.1)];
      i := i + 1;
    }
    ManyEnds(whole, notes, r.Rest(), ReadNote);
    got := Some(notes);
  }

  method GetSuggestion(r: Reader) returns (got: Option<Suggestion>)
    requires r.Valid()
    modifies r`at
    ensures r.Got(ReadSuggestion(old(r.Rest())), got)
  {
    hide ReadCounted;
    var state := r.GetU8();
    if state.Nothing? { return Nothing; }
    if state.value == 1 { return Some(Complete); }
    if state.value != 2 { return Some(NotConsulted); }
    var cs := GetCorrections(r);
    if cs.Some? { got := Some(Corrections(cs.value)); } else { got := Nothing; }
  }

  method GetCorrections(r: Reader) returns (got: Option<seq<Correction>>)
    requires r.Valid()
    modifies r`at
    ensures r.Got(ReadCounted(old(r.Rest()), ReadCorrection), got)
  {
    hide ReadPair, ReadU32, ReadMany;
    var count := r.GetU32();
    if count.Nothing? { return Nothing; }
    ghost var whole := ReadMany(r.Rest(), count.value, ReadCorrection);
    var cs: seq<Correction> := [];
    var i := 0;
    while i < count.value
      invariant 0 <= i <= count.value && r.Valid()
      invariant Continues(whole, cs, ReadMany(r.Rest(), count.value - i, ReadCorrection))
    {
      ManyGoesOn(whole, cs, r.Rest(), count.value - i, ReadCorrection);
      var pair := GetPair(r);
      if pair.Nothing? { return Nothing; }
      cs := cs + [Correction(pair.value.0, pair.value.1)];
      i := i + 1;
    }
    ManyEnds(whole, cs, r.Rest(), ReadCorrection);
    got := Some(cs);
  }

  /** The fields every node writes, then the tail, its end checked after each group. */
  method GetRecords(r: Reader) returns (outcome: Option<Outcome>)
    requires r.Valid()
    modifies r`at
    ensures outcome == ReadRecords(old(r.Rest()))
  {
    hide ReadNames, ReadCounted, ReadTail, PathOf;
    outcome := Nothing;
    var path := r.GetU8();
    if path.Nothing? { return; }
    var names := GetNames(r);
    if names.Nothing? { return; }
    var rows := GetRows(r);
    if rows.Nothing? { return; }
    var tail := GetTail(r);
    if tail.Some? { outcome := Some(Records(PathOf(path.value), names.value, rows.value, tail.value)); }
  }

  method GetTail(r: Reader) returns (tail: Option<Tail>)
    requires r.Valid()
    modifies r`at
    ensures tail == ReadTail(old(r.Rest()))
  {
    hide ReadCounted, ReadText, ReadSuggestion;
    var out := SILENT;
    if r.Remaining() == 0 { return Some(out); }
    var notes := GetNotes(r);
    if notes.Nothing? { return Nothing; }
    out := out.(notes := notes.value);
    if r.Remaining() == 0 { return Some(out); }
    var only := r.GetU8();
    if only.Nothing? { return Nothing; }
    out := out.(only := only.value != 0);
    if r.Remaining() == 0 { return Some(out); }
    var state := r.GetU8();
    if state.Nothing? { return Nothing; }
    var reason := r.GetText();
    if reason.Nothing? { return Nothing; }
    out := out.(exact := if state.value == 0 then Exact else Inexact(reason.value));
    if r.Remaining() == 0 { return Some(out); }
    var suggest := GetSuggestion(r);
    if suggest.Nothing? { return Nothing; }
    tail := Some(out.(suggest := suggest.value));
  }
}
