/** Answers: length-delimited outcomes, and a records outcome that grows at its end (outcome.go). */
module Outcomes {
  import opened Words
  import opened Values
  import opened Decoding

  const OUTCOME_DONE: Byte := 0
  const OUTCOME_RECORDS: Byte := 1
  const OUTCOME_VALUE: Byte := 2
  const OUTCOME_KEYS: Byte := 3
  const OUTCOME_REMOVED: Byte := 4

  const ACCESS_PATHS := ["record", "index", "scan", "ordered", "approximate", "graph", "join", "materialised", "span"]

  datatype Outcome =
    | Done
    | Records(path: string, names: map<UInt32, Str>, rows: seq<Row>, tail: Tail)
    | ValueOutcome(names: map<UInt32, Str>, value: Value)
    | Keys(keys: seq<Str>)
    | Removed(count: UInt64)
    | Unknown(tag: Byte, bytes: Str)

  /** The fields of a records outcome that were added over time, in the order they were added. */
  datatype Tail = Tail(notes: seq<Note>, only: bool, exact: Exactness, suggest: Suggestion)

  datatype Row = Row(identity: Str, value: Value)
  datatype Note = Note(kind: Str, message: Str)
  datatype Exactness = Unstated | Exact | Inexact(reason: Str)
  datatype Correction = Correction(typed: Str, instead: Str)
  datatype Suggestion = NotConsulted | Complete | Corrections(corrections: seq<Correction>)

  const SILENT := Tail([], false, Unstated, NotConsulted)

  // ---------- reading ----------

  function ReadPair(bs: Str): (p: Parsed<(Str, Str)>)
    ensures p.Parsed? ==> |p.rest| < |bs|
  {
    match ReadText(bs)
    case Failed => Failed
    case Parsed(a, r, _) =>
      match ReadText(r)
      case Failed => Failed
      case Parsed(b, r', _) => Parsed((a, b), r', true)
  }

  function ReadNote(bs: Str): (p: Parsed<Note>)
    ensures p.Parsed? ==> |p.rest| < |bs|
  {
    match ReadPair(bs)
    case Failed => Failed
    case Parsed((kind, message), r, _) => Parsed(Note(kind, message), r, true)
  }

  function ReadCorrection(bs: Str): (p: Parsed<Correction>)
    ensures p.Parsed? ==> |p.rest| < |bs|
  {
    match ReadPair(bs)
    case Failed => Failed
    case Parsed((typed, instead), r, _) => Parsed(Correction(typed, instead), r, true)
  }

  function ReadName(bs: Str): (p: Parsed<(UInt32, Str)>)
    ensures p.Parsed? ==> |p.rest| < |bs|
  {
    match ReadU32(bs)
    case Failed => Failed
    case Parsed(id, r, _) =>
      match ReadText(r)
      case Failed => Failed
      case Parsed(name, r', _) => Parsed((id, name), r', true)
  }

  /** Later names over earlier ones. */
  function NamesOf(pairs: seq<(UInt32, Str)>): map<UInt32, Str> {
    if pairs == [] then map[] else NamesOf(pairs[..|pairs| - 1])[pairs[|pairs| - 1].0 := pairs[|pairs| - 1].1]
  }

  function ReadNames(bs: Str): (p: Parsed<map<UInt32, Str>>)
    ensures p.Parsed? ==> |p.rest| < |bs|
  {
    match ReadCounted(bs, ReadName)
    case Failed => Failed
    case Parsed(pairs, r, _) => Parsed(NamesOf(pairs), r, true)
  }

  /** A u32 length, then one whole value. */
  function ReadPayload(bs: Str): (p: Parsed<Value>)
    ensures p.Parsed? ==> |p.rest| < |bs|
  {
    match ReadLengthed(bs)
    case Failed => Failed
    case Parsed(payload, r, _) =>
      match Decoded(payload)
      case Nothing => Failed
      case Some(v) => Parsed(v, r, true)
  }

  function ReadRow(bs: Str): (p: Parsed<Row>)
    ensures p.Parsed? ==> |p.rest| < |bs|
  {
    match ReadText(bs)
    case Failed => Failed
    case Parsed(identity, r, _) =>
      match ReadPayload(r)
      case Failed => Failed
      case Parsed(v, r', _) => Parsed(Row(identity, v), r', true)
  }

  function ReadExactness(bs: Str): (p: Parsed<Exactness>)
    ensures p.Parsed? ==> |p.rest| < |bs|
  {
    match ReadU8(bs)
    case Failed => Failed
    case Parsed(state, r, _) =>
      match ReadText(r)
      case Failed => Failed
      case Parsed(reason, r', _) => Parsed(if state == 0 then Exact else Inexact(reason), r', true)
  }

  /** A state this build does not know reads as silence. */
  function ReadSuggestion(bs: Str): (p: Parsed<Suggestion>)
    ensures p.Parsed? ==> |p.rest| < |bs|
  {
    match ReadU8(bs)
    case Failed => Failed
    case Parsed(state, r, _) =>
      if state == 1 then Parsed(Complete, r, true)
      else if state == 2 then
        match ReadCounted(r, ReadCorrection)
        case Failed => Failed
        case Parsed(cs, r', _) => Parsed(Corrections(cs), r', true)
      else Parsed(NotConsulted, r, true)
  }

  /** The tail stops where the bytes stop; nothing after its last group is looked at. */
  function ReadTail(bs: Str): Option<Tail> {
    if bs == [] then Some(SILENT) else
      match ReadCounted(bs, ReadNote)
      case Failed => Nothing
      case Parsed(notes, r, _) =>
        if r == [] then Some(SILENT.(notes := notes)) else
          match ReadU8(r)
          case Failed => Nothing
          case Parsed(only, r', _) =>
            if r' == [] then Some(SILENT.(notes := notes, only := only != 0)) else
              match ReadExactness(r')
              case Failed => Nothing
              case Parsed(exact, r'', _) =>
                if r'' == [] then Some(Tail(notes, only != 0, exact, NotConsulted)) else
                  match ReadSuggestion(r'')
                  case Failed => Nothing
                  case Parsed(suggest, _, _) => Some(Tail(notes, only != 0, exact, suggest))
  }

  function PathOf(b: Byte): string {
    if b < |ACCESS_PATHS| then ACCESS_PATHS[b] else "scan"
  }

  function ReadRecords(bs: Str): Option<Outcome> {
    match ReadU8(bs)
    case Failed => Nothing
    case Parsed(path, r, _) =>
      match ReadNames(r)
      case Failed => Nothing
      case Parsed(names, r', _) =>
        match ReadCounted(r', ReadRow)
        case Failed => Nothing
        case Parsed(rows, r'', _) =>
          match ReadTail(r'')
          case Nothing => Nothing
          case Some(tail) => Some(Records(PathOf(path), names, rows, tail))
  }

  function ReadValueOutcome(bs: Str): Option<Outcome> {
    match ReadNames(bs)
    case Failed => Nothing
    case Parsed(names, r, _) =>
      match ReadPayload(r)
      case Failed => Nothing
      case Parsed(v, _, _) => Some(ValueOutcome(names, v))
  }

  /** One outcome from its own bytes; what follows it inside them is not looked at. */
  function ReadOutcome(slice: Str): Option<Outcome> {
    match ReadU8(slice)
    case Failed => Nothing
    case Parsed(tag, r, _) =>
      if tag == OUTCOME_DONE then Some(Done)
      else if tag == OUTCOME_RECORDS then ReadRecords(r)
      else if tag == OUTCOME_VALUE then ReadValueOutcome(r)
      else if tag == OUTCOME_KEYS then
        match ReadCounted(r, ReadText)
        case Failed => Nothing
        case Parsed(keys, _, _) => Some(Keys(keys))
      else if tag == OUTCOME_REMOVED then
        match ReadU64(r)
        case Failed => Nothing
        case Parsed(n, _, _) => Some(Removed(n))
      else Some(Unknown(tag, r))
  }

  /** One entry of an answer: a length of at least one, and an outcome in exactly that many bytes. */
  function ReadEntry(bs: Str): (p: Parsed<Outcome>)
    ensures p.Parsed? ==> |p.rest| < |bs|
  {
    match ReadLengthed(bs)
    case Failed => Failed
    case Parsed(slice, r, _) =>
      match ReadOutcome(slice)
      case Nothing => Failed
      case Some(o) => Parsed(o, r, true)
  }

  function ReadAnswer(body: Str): Option<seq<Outcome>> {
    match ReadCounted(body, ReadEntry)
    case Failed => Nothing
    case Parsed(outcomes, _, _) => Some(outcomes)
  }
}
