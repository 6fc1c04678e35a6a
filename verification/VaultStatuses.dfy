/** The status a vault act answers with (vault_frame.go): closed sets, and a period in an int64 of nanoseconds. */
module VaultStatuses {
  import opened Words
  import opened Values
  import opened Texts
  import D = Durations

  datatype SealState = Uninitialised | Sealed | Unsealed

  datatype Custody = Own | Store

  /** What a node says: the period as it is sent, and the moment the key it holds stops opening anything. */
  datatype Saying = Saying(
    state: SealState, seconds: Int64, nanos: UInt32, sealsAt: Option<(Int64, UInt32)>, initialised: bool,
    custody: Option<Custody>)

  /** What a caller is handed. */
  datatype VaultStatus = VaultStatus(
    state: SealState, sealsAt: Option<int>, unsealFor: Int64, initialised: bool, custody: Option<Custody>)

  const STATE := Ascii("state")
  const PERIOD := Ascii("unseal_for")
  const SEALS_AT := Ascii("seals_at")
  const INITIALISED := Ascii("initialised")
  const CUSTODY := Ascii("custody")

  function StateWord(s: SealState): Str {
    match s
    case Uninitialised => Ascii("uninitialised")
    case Sealed => Ascii("sealed")
    case Unsealed => Ascii("unsealed")
  }

  function CustodyWord(c: Custody): Str {
    match c
    case Own => Ascii("own")
    case Store => Ascii("store")
  }

  /** The field under a name, and nil for none. */
  function FieldOf(fields: map<Str, Value>, name: Str): Value {
    if name in fields then fields[name] else NoValue
  }

  /** The object says this: each name by itself, with anything else beside them. */
  predicate Shows(fields: map<Str, Value>, n: Saying) {
    && FieldOf(fields, STATE) == Text(StateWord(n.state))
    && FieldOf(fields, PERIOD) == Duration(n.seconds, n.nanos)
    && (match n.sealsAt
        case Some(at) => FieldOf(fields, SEALS_AT) == Datetime(at.0, at.1)
        case Nothing => FieldOf(fields, SEALS_AT) in {NoValue, None})
    && (n.initialised <==> FieldOf(fields, INITIALISED) == Bool(true))
    && (match n.custody
        case Some(c) => FieldOf(fields, CUSTODY) == Text(CustodyWord(c))
        case Nothing => CUSTODY !in fields)
  }

  /** What a value says of a vault, if it is an object and says anything. */
  ghost predicate Says(value: Value, said: Option<Saying>) {
    match said
    case Some(n) => value.Object? && Shows(value.fields, n) && forall m :: Shows(value.fields, m) ==> m == n
    case Nothing => !value.Object? || forall n :: !Shows(value.fields, n)
  }

  function Moment(seconds: int, nanos: int): int {
    seconds * NANOS_PER_SECOND + nanos
  }

  /** What a caller is handed of it: the period as far as an int64 keeps it. */
  function Handed(n: Saying): VaultStatus {
    VaultStatus(n.state, if n.sealsAt.Some? then Some(Moment(n.sealsAt.value.0, n.sealsAt.value.1)) else Nothing,
                D.Wrap(Moment(n.seconds, n.nanos)), n.initialised, n.custody)
  }

  lemma StateWordTells(a: SealState, b: SealState)
    requires StateWord(a) == StateWord(b)
    ensures a == b
  {
    assert |StateWord(Uninitialised)| == 13 && |StateWord(Sealed)| == 6 && |StateWord(Unsealed)| == 8;
  }

  lemma CustodyWordTells(a: Custody, b: Custody)
    requires CustodyWord(a) == CustodyWord(b)
    ensures a == b
  {
    assert |CustodyWord(Own)| == 3 && |CustodyWord(Store)| == 5;
  }

  /** An object says one thing at most. */
  lemma OneSaying(fields: map<Str, Value>, a: Saying, b: Saying)
    requires Shows(fields, a) && Shows(fields, b)
    ensures a == b
  {
    hide Ascii, StateWord, CustodyWord, STATE, PERIOD, SEALS_AT, INITIALISED, CUSTODY;
    StateWordTells(a.state, b.state);
    if a.custody.Some? { CustodyWordTells(a.custody.value, b.custody.value); }
  }

  /** A field that holds one of these words. */
  predicate Worded(fields: map<Str, Value>, name: string, words: set<string>) {
    exists word :: word in words && FieldOf(fields, Ascii(name)) == Text(Ascii(word))
  }

  /** What an object must hold to say anything of a vault, name by name. */
  predicate Acceptable(fields: map<Str, Value>) {
    && Worded(fields, "state", {"uninitialised", "sealed", "unsealed"})
    && FieldOf(fields, Ascii("unseal_for")).Duration?
    && (var at := FieldOf(fields, Ascii("seals_at")); at.NoValue? || at.None? || at.Datetime?)
    && (Ascii("custody") in fields ==> Worded(fields, "custody", {"own", "store"}))
  }

  /** Whoever reads a saying out of an object reads each of its parts under its own name. */
  lemma SayingsAreAcceptable(fields: map<Str, Value>, n: Saying)
    requires Shows(fields, n)
    ensures Acceptable(fields)
    ensures var word := match n.state
                        case Uninitialised => "uninitialised"
                        case Sealed => "sealed"
                        case Unsealed => "unsealed";
            FieldOf(fields, Ascii("state")) == Text(Ascii(word))
    ensures FieldOf(fields, Ascii("unseal_for")) == Duration(n.seconds, n.nanos)
    ensures n.sealsAt.Some? ==>
              FieldOf(fields, Ascii("seals_at")) == Datetime(n.sealsAt.value.0, n.sealsAt.value.1)
    ensures n.initialised <==> FieldOf(fields, Ascii("initialised")) == Bool(true)
    ensures n.custody.Some? ==>
              FieldOf(fields, Ascii("custody")) == Text(Ascii(if n.custody.value.Own? then "own" else "store"))
  {
    hide Ascii;
    assert FieldOf(fields, Ascii("state")) == Text(StateWord(n.state));
    if n.custody.Some? { assert FieldOf(fields, Ascii("custody")) == Text(CustodyWord(n.custody.value)); }
  }

  /** An object says something exactly when it holds that. */
  lemma SomethingIsShown(fields: map<Str, Value>)
    ensures (exists n :: Shows(fields, n)) <==> Acceptable(fields)
  {
    hide Ascii, Acceptable, Shows;
    if n :| Shows(fields, n) { SayingsAreAcceptable(fields, n); }
    if Acceptable(fields) { AcceptableIsShown(fields); }
  }

  lemma AcceptableIsShown(fields: map<Str, Value>)
    requires Acceptable(fields)
    ensures exists n :: Shows(fields, n)
  {
    hide Ascii;
    var period, at := FieldOf(fields, Ascii("unseal_for")), FieldOf(fields, Ascii("seals_at"));
    var held := FieldOf(fields, Ascii("custody"));
    var state := if FieldOf(fields, Ascii("state")) == Text(Ascii("uninitialised")) then Uninitialised
                 else if FieldOf(fields, Ascii("state")) == Text(Ascii("sealed")) then Sealed
                 else Unsealed;
    var n := Saying(state, period.seconds, period.nanos, if at.Datetime? then Some((at.seconds, at.nanos)) else Nothing,
                    FieldOf(fields, Ascii("initialised")) == Bool(true),
                    if Ascii("custody") !in fields then Nothing
                    else if held == Text(Ascii("own")) then Some(Own) else Some(Store));
    assert Shows(fields, n);
  }

  method ReadSealState(word: Str) returns (state: Option<SealState>)
    ensures state.Some? ==> StateWord(state.value) == word
    ensures state.Nothing? ==> forall s :: StateWord(s) != word
  {
    hide Ascii;
    if word == Ascii("uninitialised") { return Some(Uninitialised); }
    if word == Ascii("sealed") { return Some(Sealed); }
    if word == Ascii("unsealed") { return Some(Unsealed); }
    state := Nothing;
  }

  method ReadCustody(word: Str) returns (custody: Option<Custody>)
    ensures custody.Some? ==> CustodyWord(custody.value) == word
    ensures custody.Nothing? ==> forall c :: CustodyWord(c) != word
  {
    hide Ascii;
    if word == Ascii("own") { return Some(Own); }
    if word == Ascii("store") { return Some(Store); }
    custody := Nothing;
  }

  /** readVaultStatus: what the object says, and nothing for an object outside the closed sets. */
  method ReadVaultStatus(value: Value) returns (status: Option<VaultStatus>, ghost said: Option<Saying>)
    ensures Says(value, said)
    ensures status == if said.Some? then Some(Handed(said.value)) else Nothing
  {
    hide Ascii, StateWord, CustodyWord, STATE, PERIOD, SEALS_AT, INITIALISED, CUSTODY;
    if !value.Object? { return Nothing, Nothing; }
    var fields := value.fields;
    var word, period := FieldOf(fields, STATE), FieldOf(fields, PERIOD);
    if !word.Text? || !period.Duration? { return Nothing, Nothing; }
    var unsealFor := D.Wrap(D.Wrap(period.seconds * NANOS_PER_SECOND) + period.nanos);
    D.WrapAdds(period.seconds * NANOS_PER_SECOND, period.nanos);
    var state := ReadSealState(word.text);
    if state.Nothing? { return Nothing, Nothing; }
    var at := FieldOf(fields, SEALS_AT);
    var sealsAt := Nothing;
    ghost var moment: Option<(Int64, UInt32)> := Nothing;
    match at {
      case Datetime(seconds, nanos) =>
        sealsAt := Some(Moment(seconds, nanos));
        moment := Some((seconds, nanos));
      case NoValue =>
      case None =>
      case _ => return Nothing, Nothing;
    }
    var initialised := FieldOf(fields, INITIALISED) == Bool(true);
    var custody := Nothing;
    if CUSTODY in fields {
      var held := fields[CUSTODY];
      if !held.Text? { return Nothing, Nothing; }
      custody := ReadCustody(held.text);
      if custody.Nothing? { return Nothing, Nothing; }
    }
    status := Some(VaultStatus(state.value, sealsAt, unsealFor, initialised, custody));
    said := Some(Saying(state.value, period.seconds, period.nanos, moment, initialised, custody));
    forall m | Shows(fields, m) ensures m == said.value {
      OneSaying(fields, m, said.value);
    }
  }

  /** The period handed on is the one that was sent exactly when it fits an int64 of nanoseconds: about 292 years. */
  lemma PeriodIsExact(n: Saying)
    ensures var nanos := n.seconds * 1_000_000_000 + n.nanos;
            Handed(n).unsealFor == nanos <==> -0x8000_0000_0000_0000 <= nanos < 0x8000_0000_0000_0000
    ensures n.sealsAt.Some? ==> Handed(n).sealsAt == Some(n.sealsAt.value.0 * 1_000_000_000 + n.sealsAt.value.1)
    ensures n.sealsAt.Nothing? ==> Handed(n).sealsAt == Nothing
    ensures Handed(n).state == n.state && Handed(n).initialised == n.initialised && Handed(n).custody == n.custody
  {
    if -TWO_63 <= Moment(n.seconds, n.nanos) < TWO_63 { D.WrapIsIdentity(Moment(n.seconds, n.nanos)); }
  }

  /** A period of 300 years comes out below zero. */
  lemma LongPeriodIsLost(n: Saying)
    requires n.seconds == 300 * 365 * 86_400 && n.nanos == 0
    ensures Moment(n.seconds, n.nanos) > 0 > Handed(n).unsealFor
  {}
}
