/** What the bytes of an answer say, in literals: a reader is right when it finds exactly this in them (outcome.go). */
module AnswerLayouts {
  import opened Words
  import opened Values
  import opened Encoding
  import opened Decoding
  import opened Outcomes
  import opened Layouts
  import opened CodecLaws
  import Utf8

  // ---------- what the bytes say ----------

  ghost predicate LaidText(s: Str, t: Str) {
    Sized(s, t) && Utf8.Valid(t) && |t| < 0x1_0000_0000
  }

  ghost predicate LaidPair(s: Str, a: Str, b: Str) {
    exists k :: 0 <= k <= |s| && LaidText(s[..k], a) && LaidText(s[k..], b)
  }

  /** A note's kind before its message. */
  ghost predicate LaidNote(s: Str, n: Note) {
    LaidPair(s, n.kind, n.message)
  }

  /** What was typed before what to type instead. */
  ghost predicate LaidCorrection(s: Str, c: Correction) {
    LaidPair(s, c.typed, c.instead)
  }

  /** A table's id in four digits and then its name. */
  ghost predicate LaidName(s: Str, n: (UInt32, Str)) {
    |s| >= 4 && FromBigEndian(s[..4]) == n.0 && LaidText(s[4..], n.1)
  }

  /** A length and then the encoding of one value, with nothing after it. */
  ghost predicate LaidPayload(s: Str, v: Value) {
    |s| >= 4 && FromBigEndian(s[..4]) == |s| - 4 && Decoded(s[4..]) == Some(v)
  }

  ghost predicate LaidRow(s: Str, r: Row) {
    exists k :: 0 <= k <= |s| && LaidText(s[..k], r.identity) && LaidPayload(s[k..], r.value)
  }

  /** How many there are, in four digits, and then each. */
  ghost predicate LaidList<T(!new)>(s: Str, xs: seq<T>, one: (Str, T) -> bool) {
    |s| >= 4 && FromBigEndian(s[..4]) == |xs| && Each(s[4..], xs, one)
  }

  /** Each id has the last name given for it. */
  ghost predicate LastNames(pairs: seq<(UInt32, Str)>, names: map<UInt32, Str>) {
    && (forall k :: 0 <= k < |pairs| ==> pairs[k].0 in names)
    && (forall id :: id in names ==>
          exists k :: 0 <= k < |pairs| && pairs[k] == (id, names[id])
                      && forall j :: k < j < |pairs| ==> pairs[j].0 != id)
  }

  ghost predicate LaidNames(s: Str, names: map<UInt32, Str>) {
    exists pairs :: LaidList(s, pairs, LaidName) && LastNames(pairs, names)
  }

  /** The word for an access path; a path this build does not know reads as a scan. */
  predicate IsPath(b: Byte, word: string) {
    match word
    case "record" => b == 0
    case "index" => b == 1
    case "scan" => b == 2 || b > 8
    case "ordered" => b == 3
    case "approximate" => b == 4
    case "graph" => b == 5
    case "join" => b == 6
    case "materialised" => b == 7
    case "span" => b == 8
    case _ => false
  }

  /** One and two are states; any other says nothing. */
  ghost predicate ShowsSuggestion(s: Str, x: Suggestion) {
    if s == [] then x == NotConsulted
    else if s[0] == 1 then x == Complete
    else if s[0] == 2 then
      x.Corrections? && exists k :: 1 <= k <= |s| && LaidList(s[1..k], x.corrections, LaidCorrection)
    else x == NotConsulted
  }

  /** Zero means exact and anything else inexact, for the reason that ends at k. */
  ghost predicate Reasoned(s: Str, k: int, reason: Str, exact: Exactness, suggest: Suggestion) {
    && 1 <= k <= |s| && LaidText(s[1..k], reason) && ShowsSuggestion(s[k..], suggest)
    && exact == if s[0] == 0 then Exact else Inexact(reason)
  }

  ghost predicate ShowsExactness(s: Str, exact: Exactness, suggest: Suggestion) {
    if s == [] then exact == Unstated && suggest == NotConsulted
    else exists k, reason :: Reasoned(s, k, reason, exact, suggest)
  }

  /** The tail group by group; where the bytes stop, what was not said is not made up. */
  ghost predicate ShowsTail(s: Str, t: Tail) {
    if s == [] then t == Tail([], false, Unstated, NotConsulted)
    else
      exists k :: 0 <= k <= |s| && LaidList(s[..k], t.notes, LaidNote)
                  && if k == |s| then !t.only && t.exact == Unstated && t.suggest == NotConsulted
                     else t.only == (s[k] != 0) && ShowsExactness(s[k + 1..], t.exact, t.suggest)
  }

  ghost predicate ShowsRecords(s: Str, names: map<UInt32, Str>, rows: seq<Row>, tail: Tail) {
    exists i, j :: 0 <= i <= j <= |s| && LaidNames(s[..i], names) && LaidList(s[i..j], rows, LaidRow)
                   && ShowsTail(s[j..], tail)
  }

  ghost predicate ShowsValue(s: Str, names: map<UInt32, Str>, v: Value) {
    exists i, j :: 0 <= i <= j <= |s| && LaidNames(s[..i], names) && LaidPayload(s[i..j], v)
  }

  /** What one outcome's bytes say, by their first: bytes after what it says are not looked at. */
  ghost predicate Shows(s: Str, o: Outcome) {
    && |s| >= 1
    && match o
       case Done => s[0] == 0
       case Records(path, names, rows, tail) =>
         s[0] == 1 && |s| >= 2 && IsPath(s[1], path) && ShowsRecords(s[2..], names, rows, tail)
       case ValueOutcome(names, v) => s[0] == 2 && ShowsValue(s[1..], names, v)
       case Keys(keys) => s[0] == 3 && exists k :: 1 <= k <= |s| && LaidList(s[1..k], keys, LaidText)
       case Removed(n) => s[0] == 4 && |s| >= 9 && FromBigEndian(s[1..9]) == n
       case Unknown(tag, bytes) => s[0] == tag && tag > 4 && s[1..] == bytes
  }

  // ---------- readers that find it ----------

  /** A reading takes exactly the bytes laid out as what it gives, and every such bytes read so whatever follows. */
  ghost predicate Finds<T(!new)>(one: Str -> Parsed<T>, laid: (Str, T) -> bool) {
    && (forall bs :: one(bs).Parsed? ==> Took(bs, one(bs).rest) && laid(Taken(bs, one(bs).rest), one(bs).value))
    && (forall t: Str, s: Str, x: T :: laid(t, x) ==>
          one(t + s).Parsed? && one(t + s).value == x && one(t + s).rest == s)
  }

  predicate Took(bs: Str, rest: Str) {
    |rest| <= |bs| && bs[|bs| - |rest|..] == rest
  }

  function Taken(bs: Str, rest: Str): Str
    requires Took(bs, rest)
  {
    bs[..|bs| - |rest|]
  }

  lemma Found<T(!new)>(one: Str -> Parsed<T>, laid: (Str, T) -> bool, bs: Str, t: Str, s: Str, x: T)
    requires Finds(one, laid) && laid(t, x) && bs == t + s
    ensures one(bs).Parsed? && one(bs).value == x && one(bs).rest == s
  {}

  lemma TakenIs(t: Str, rest: Str)
    ensures Took(t + rest, rest) && Taken(t + rest, rest) == t
  {}

  lemma TookTwice(bs: Str, r: Str, r': Str)
    requires Took(bs, r) && Took(r, r')
    ensures Took(bs, r') && Taken(bs, r') == Taken(bs, r) + Taken(r, r')
    ensures Taken(bs, r')[|Taken(bs, r)|..] == Taken(r, r') && Taken(bs, r')[..|Taken(bs, r)|] == Taken(bs, r)
  {}

  lemma TextFound()
    ensures Finds(ReadText, LaidText)
  {
    hide FromBigEndian, Utf8.Valid;
    forall bs | ReadText(bs).Parsed?
      ensures Took(bs, ReadText(bs).rest) && LaidText(Taken(bs, ReadText(bs).rest), ReadText(bs).value)
    {
      TextTaken(bs);
    }
    forall t: Str, s: Str, x: Str | LaidText(t, x)
      ensures ReadText(t + s).Parsed? && ReadText(t + s).value == x && ReadText(t + s).rest == s
    {
      SizedIs(t, x);
      LengthedReads(x, s);
    }
  }

  lemma TextTaken(bs: Str)
    requires ReadText(bs).Parsed?
    ensures Took(bs, ReadText(bs).rest) && LaidText(Taken(bs, ReadText(bs).rest), ReadText(bs).value)
  {
    hide Utf8.Valid, Sized, Lengthed;
    LengthedWrites(bs);
    var p := ReadText(bs);
    TakenIs(Lengthed(p.value), p.rest);
    SizedIs(Lengthed(p.value), p.value);
  }

  lemma {:induction false} ManyTaken<T(!new)>(bs: Str, count: nat, one: Str -> Parsed<T>, laid: (Str, T) -> bool)
    requires Finds(one, laid) && forall s :: one(s).Parsed? ==> |one(s).rest| <= |s|
    requires ReadMany(bs, count, one).Parsed?
    ensures var p := ReadMany(bs, count, one); Took(bs, p.rest) && Each(Taken(bs, p.rest), p.value, laid)
    decreases count
  {
    if count == 0 {
      assert Taken(bs, bs) == [];
    } else {
      var x, p := one(bs), ReadMany(bs, count, one);
      ManyTaken(x.rest, count - 1, one, laid);
      TookTwice(bs, x.rest, p.rest);
      var taken := Taken(bs, p.rest);
      assert laid(taken[..|Taken(bs, x.rest)|], p.value[0]) && p.value[1..] == ReadMany(x.rest, count - 1, one).value;
    }
  }

  lemma {:induction false} ManyFound<T(!new)>(
    t: Str, s: Str, xs: seq<T>, one: Str -> Parsed<T>, laid: (Str, T) -> bool)
    requires Finds(one, laid) && forall s :: one(s).Parsed? ==> |one(s).rest| <= |s|
    requires Each(t, xs, laid)
    ensures var p := ReadMany(t + s, |xs|, one); p.Parsed? && p.value == xs && p.rest == s
    decreases |xs|
  {
    hide Finds;
    if xs == [] {
      assert t + s == s;
    } else {
      var k :| 0 <= k <= |t| && laid(t[..k], xs[0]) && Each(t[k..], xs[1..], laid);
      Found(one, laid, t + s, t[..k], t[k..] + s, xs[0]);
      ManyFound(t[k..], s, xs[1..], one, laid);
    }
  }

  lemma ListTaken<T(!new)>(bs: Str, one: Str -> Parsed<T>, laid: (Str, T) -> bool)
    requires Finds(one, laid) && forall s :: one(s).Parsed? ==> |one(s).rest| <= |s|
    requires ReadCounted(bs, one).Parsed?
    ensures var p := ReadCounted(bs, one); Took(bs, p.rest) && LaidList(Taken(bs, p.rest), p.value, laid)
  {
    hide Finds, Each, FromBigEndian;
    var p := ReadCounted(bs, one);
    ManyTaken(bs[4..], FromBigEndian(bs[..4]), one, laid);
    assert Taken(bs, p.rest)[4..] == Taken(bs[4..], p.rest) && Taken(bs, p.rest)[..4] == bs[..4];
  }

  lemma ListFound<T(!new)>(t: Str, s: Str, xs: seq<T>, one: Str -> Parsed<T>, laid: (Str, T) -> bool)
    requires Finds(one, laid) && forall s :: one(s).Parsed? ==> |one(s).rest| <= |s|
    requires LaidList(t, xs, laid)
    ensures var p := ReadCounted(t + s, one); p.Parsed? && p.value == xs && p.rest == s
  {
    hide Finds, Each, FromBigEndian;
    assert (t + s)[..4] == t[..4] && (t + s)[4..] == t[4..] + s;
    ManyFound(t[4..], s, xs, one, laid);
  }

  lemma PairTaken(bs: Str)
    requires ReadPair(bs).Parsed?
    ensures var p := ReadPair(bs); Took(bs, p.rest) && LaidPair(Taken(bs, p.rest), p.value.0, p.value.1)
  {
    hide ReadText, LaidText;
    TextFound();
    var a, p := ReadText(bs), ReadPair(bs);
    TookTwice(bs, a.rest, p.rest);
    assert LaidText(Taken(bs, p.rest)[..|Taken(bs, a.rest)|], p.value.0);
  }

  lemma PairFound(t: Str, s: Str, a: Str, b: Str)
    requires LaidPair(t, a, b)
    ensures ReadPair(t + s).Parsed? && ReadPair(t + s).value == (a, b) && ReadPair(t + s).rest == s
  {
    hide ReadText, LaidText, Finds;
    TextFound();
    var k :| 0 <= k <= |t| && LaidText(t[..k], a) && LaidText(t[k..], b);
    Found(ReadText, LaidText, t + s, t[..k], t[k..] + s, a);
    Found(ReadText, LaidText, t[k..] + s, t[k..], s, b);
  }

  lemma NoteFound()
    ensures Finds(ReadNote, LaidNote)
  {
    hide ReadPair, LaidPair;
    forall bs | ReadNote(bs).Parsed?
      ensures Took(bs, ReadNote(bs).rest) && LaidNote(Taken(bs, ReadNote(bs).rest), ReadNote(bs).value)
    {
      PairTaken(bs);
    }
    forall t: Str, s: Str, x: Note | LaidNote(t, x)
      ensures ReadNote(t + s).Parsed? && ReadNote(t + s).value == x && ReadNote(t + s).rest == s
    {
      PairFound(t, s, x.kind, x.message);
    }
  }

  lemma CorrectionFound()
    ensures Finds(ReadCorrection, LaidCorrection)
  {
    hide ReadPair, LaidPair;
    forall bs | ReadCorrection(bs).Parsed?
      ensures var p := ReadCorrection(bs); Took(bs, p.rest) && LaidCorrection(Taken(bs, p.rest), p.value)
    {
      PairTaken(bs);
    }
    forall t: Str, s: Str, x: Correction | LaidCorrection(t, x)
      ensures ReadCorrection(t + s).Parsed? && ReadCorrection(t + s).value == x && ReadCorrection(t + s).rest == s
    {
      PairFound(t, s, x.typed, x.instead);
    }
  }

  lemma NameFound()
    ensures Finds(ReadName, LaidName)
  {
    hide ReadText, LaidText, FromBigEndian;
    TextFound();
    forall bs | ReadName(bs).Parsed?
      ensures Took(bs, ReadName(bs).rest) && LaidName(Taken(bs, ReadName(bs).rest), ReadName(bs).value)
    {
      var p := ReadName(bs);
      var taken := Taken(bs[4..], p.rest);
      assert Taken(bs, p.rest)[..4] == bs[..4] && Taken(bs, p.rest)[4..] == taken;
    }
    forall t: Str, s: Str, x: (UInt32, Str) | LaidName(t, x)
      ensures ReadName(t + s).Parsed? && ReadName(t + s).value == x && ReadName(t + s).rest == s
    {
      assert (t + s)[..4] == t[..4] && (t + s)[4..] == t[4..] + s;
    }
  }

  lemma PayloadFound()
    ensures Finds(ReadPayload, LaidPayload)
  {
    hide FromBigEndian, Decoded;
    forall bs | ReadPayload(bs).Parsed?
      ensures Took(bs, ReadPayload(bs).rest) && LaidPayload(Taken(bs, ReadPayload(bs).rest), ReadPayload(bs).value)
    {
      var p, n := ReadPayload(bs), FromBigEndian(bs[..4]);
      assert Taken(bs, p.rest) == bs[..4 + n];
      assert bs[..4 + n][..4] == bs[..4] && bs[..4 + n][4..] == bs[4..][..n];
    }
    forall t: Str, s: Str, x: Value | LaidPayload(t, x)
      ensures ReadPayload(t + s).Parsed? && ReadPayload(t + s).value == x && ReadPayload(t + s).rest == s
    {
      assert (t + s)[..4] == t[..4] && (t + s)[4..] == t[4..] + s;
      assert (t[4..] + s)[..|t| - 4] == t[4..] && (t[4..] + s)[|t| - 4..] == s;
    }
  }

  lemma RowTaken(bs: Str)
    requires ReadRow(bs).Parsed?
    ensures Took(bs, ReadRow(bs).rest) && LaidRow(Taken(bs, ReadRow(bs).rest), ReadRow(bs).value)
  {
    hide ReadText, LaidText, ReadPayload, LaidPayload;
    TextFound();
    PayloadFound();
    var a, p := ReadText(bs), ReadRow(bs);
    TookTwice(bs, a.rest, p.rest);
    assert LaidText(Taken(bs, p.rest)[..|Taken(bs, a.rest)|], p.value.identity);
  }

  lemma RowReads(t: Str, s: Str, r: Row)
    requires LaidRow(t, r)
    ensures ReadRow(t + s).Parsed? && ReadRow(t + s).value == r && ReadRow(t + s).rest == s
  {
    hide ReadText, LaidText, ReadPayload, LaidPayload, Finds;
    var k :| 0 <= k <= |t| && LaidText(t[..k], r.identity) && LaidPayload(t[k..], r.value);
    TextFound();
    PayloadFound();
    Found(ReadText, LaidText, t + s, t[..k], t[k..] + s, r.identity);
    Found(ReadPayload, LaidPayload, t[k..] + s, t[k..], s, r.value);
  }

  lemma RowFound()
    ensures Finds(ReadRow, LaidRow)
  {
    hide ReadRow, LaidRow, Took, Taken;
    forall bs | ReadRow(bs).Parsed?
      ensures Took(bs, ReadRow(bs).rest) && LaidRow(Taken(bs, ReadRow(bs).rest), ReadRow(bs).value)
    {
      RowTaken(bs);
    }
    forall t: Str, s: Str, x: Row | LaidRow(t, x)
      ensures ReadRow(t + s).Parsed? && ReadRow(t + s).value == x && ReadRow(t + s).rest == s
    {
      RowReads(t, s, x);
    }
  }

  // ---------- names, each id with its last ----------

  lemma {:induction false} LastOfNames(pairs: seq<(UInt32, Str)>)
    ensures LastNames(pairs, NamesOf(pairs))
  {
    hide LastNames;
    if pairs == [] {
      assert LastNames([], map[]) by { NoNames(); }
    } else {
      var n := |pairs| - 1;
      LastOfNames(pairs[..n]);
      OneNameMore(pairs[..n], NamesOf(pairs[..n]), pairs[n]);
      assert pairs == pairs[..n] + [pairs[n]];
    }
  }

  lemma NoNames()
    ensures LastNames([], map[])
  {}

  lemma OneNameMore(before: seq<(UInt32, Str)>, names: map<UInt32, Str>, pair: (UInt32, Str))
    requires LastNames(before, names)
    ensures LastNames(before + [pair], names[pair.0 := pair.1])
  {
    var pairs, more, n := before + [pair], names[pair.0 := pair.1], |before|;
    assert pairs[n] == (pair.0, more[pair.0]);
    assert forall k :: 0 <= k < n ==> pairs[k] == before[k];
    forall id | id in more && id != pair.0
      ensures exists k :: 0 <= k < |pairs| && pairs[k] == (id, more[id])
                          && forall j :: k < j < |pairs| ==> pairs[j].0 != id
    {
      var k :| 0 <= k < n && before[k] == (id, names[id]) && forall j :: k < j < n ==> before[j].0 != id;
      assert pairs[k] == before[k];
    }
  }

  lemma LastNamesAreOne(pairs: seq<(UInt32, Str)>, a: map<UInt32, Str>, b: map<UInt32, Str>)
    requires LastNames(pairs, a) && LastNames(pairs, b)
    ensures a == b
  {
    forall id | id in a ensures id in b && a[id] == b[id] { SameName(pairs, a, b, id); }
    forall id | id in b ensures id in a { SameName(pairs, b, a, id); }
  }

  lemma SameName(pairs: seq<(UInt32, Str)>, a: map<UInt32, Str>, b: map<UInt32, Str>, id: UInt32)
    requires LastNames(pairs, a) && LastNames(pairs, b) && id in a
    ensures id in b && a[id] == b[id]
  {
    var k :| 0 <= k < |pairs| && pairs[k] == (id, a[id]) && forall j :: k < j < |pairs| ==> pairs[j].0 != id;
    assert id in b;
    var j :| 0 <= j < |pairs| && pairs[j] == (id, b[id]) && forall i :: j < i < |pairs| ==> pairs[i].0 != id;
    assert j == k;
  }

  lemma NamesTaken(bs: Str)
    requires ReadNames(bs).Parsed?
    ensures var p := ReadNames(bs); Took(bs, p.rest) && LaidNames(Taken(bs, p.rest), p.value)
  {
    hide ReadCounted, LaidList, LastNames, NamesOf;
    NameFound();
    ListTaken(bs, ReadName, LaidName);
    LastOfNames(ReadCounted(bs, ReadName).value);
  }

  lemma NamesFound(t: Str, s: Str, names: map<UInt32, Str>)
    requires LaidNames(t, names)
    ensures ReadNames(t + s).Parsed? && ReadNames(t + s).value == names && ReadNames(t + s).rest == s
  {
    hide ReadCounted, LaidList, LastNames, NamesOf;
    var pairs :| LaidList(t, pairs, LaidName) && LastNames(pairs, names);
    NameFound();
    ListFound(t, s, pairs, ReadName, LaidName);
    LastOfNames(pairs);
    LastNamesAreOne(pairs, names, NamesOf(pairs));
  }

  // ---------- the tail of a records outcome ----------

  /** A list at the front, and whatever follows it. */
  lemma FrontList<T(!new)>(bs: Str, k: nat, xs: seq<T>, one: Str -> Parsed<T>, laid: (Str, T) -> bool)
    requires Finds(one, laid) && forall s :: one(s).Parsed? ==> |one(s).rest| <= |s|
    requires k <= |bs| && LaidList(bs[..k], xs, laid)
    ensures var p := ReadCounted(bs, one); p.Parsed? && p.value == xs && p.rest == bs[k..]
  {
    hide Finds, LaidList, ReadCounted;
    ListFound(bs[..k], bs[k..], xs, one, laid);
    assert bs == bs[..k] + bs[k..];
  }

  lemma SuggestionIs(s: Str, x: Suggestion)
    requires s != []
    ensures ReadSuggestion(s).Parsed? && ReadSuggestion(s).value == x <==> ShowsSuggestion(s, x)
  {
    hide ReadCounted, LaidList, ReadCorrection, LaidCorrection;
    if s[0] == 2 {
      CorrectionFound();
      if ReadSuggestion(s).Parsed? {
        var p := ReadCounted(s[1..], ReadCorrection);
        ListTaken(s[1..], ReadCorrection, LaidCorrection);
        var k := |s| - |p.rest|;
        assert s[1..k] == Taken(s[1..], p.rest);
      }
      if ShowsSuggestion(s, x) {
        var k :| 1 <= k <= |s| && LaidList(s[1..k], x.corrections, LaidCorrection);
        assert s[1..][..k - 1] == s[1..k];
        FrontList(s[1..], k - 1, x.corrections, ReadCorrection, LaidCorrection);
      }
    }
  }

  /** What follows the only flag, read to its end. */
  function ReadRest(s: Str): Option<(Exactness, Suggestion)> {
    if s == [] then Some((Unstated, NotConsulted))
    else
      match ReadExactness(s)
      case Failed => Nothing
      case Parsed(exact, r, _) =>
        if r == [] then Some((exact, NotConsulted))
        else match ReadSuggestion(r) case Failed => Nothing case Parsed(x, _, _) => Some((exact, x))
  }

  lemma RestIs(s: Str, exact: Exactness, suggest: Suggestion)
    ensures ReadRest(s) == Some((exact, suggest)) <==> ShowsExactness(s, exact, suggest)
  {
    hide Reasoned, ReadExactness, ReadSuggestion;
    if s != [] {
      if ReadRest(s) == Some((exact, suggest)) { RestIsReasoned(s); }
      if k, reason :| Reasoned(s, k, reason, exact, suggest) { ReasonedIsRead(s, k, reason, exact, suggest); }
    }
  }

  lemma RestIsReasoned(s: Str)
    requires s != [] && ReadRest(s).Some?
    ensures var p := ReadText(s[1..]);
            p.Parsed? && Reasoned(s, |s| - |p.rest|, p.value, ReadRest(s).value.0, ReadRest(s).value.1)
  {
    hide ReadText, LaidText, ReadSuggestion, ShowsSuggestion;
    TextFound();
    SilentSuggestion();
    var p := ReadText(s[1..]);
    var k := |s| - |p.rest|;
    assert s[1..k] == Taken(s[1..], p.rest) && s[k..] == p.rest;
    if p.rest != [] { SuggestionIs(p.rest, ReadRest(s).value.1); }
  }

  lemma ReasonedIsRead(s: Str, k: int, reason: Str, exact: Exactness, suggest: Suggestion)
    requires Reasoned(s, k, reason, exact, suggest)
    ensures ReadRest(s) == Some((exact, suggest))
  {
    hide ReadText, LaidText, ReadSuggestion, ShowsSuggestion;
    TextFound();
    SilentSuggestion();
    assert s[1..] == s[1..k] + s[k..];
    if s[k..] != [] { SuggestionIs(s[k..], suggest); }
  }

  lemma SilentSuggestion()
    ensures forall x :: ShowsSuggestion([], x) <==> x == NotConsulted
  {}

  lemma TailSplits(s: Str)
    requires s != []
    ensures ReadTail(s)
         == match ReadCounted(s, ReadNote)
            case Failed => Nothing
            case Parsed(notes, r, _) =>
              if r == [] then Some(Tail(notes, false, Unstated, NotConsulted))
              else
                match ReadRest(r[1..])
                case Nothing => Nothing
                case Some((exact, suggest)) => Some(Tail(notes, r[0] != 0, exact, suggest))
  {
    hide ReadCounted, ReadExactness, ReadSuggestion;
  }

  /** The tail is read as what its bytes say, group by group, and as nothing they do not say. */
  lemma TailIs(s: Str, t: Tail)
    ensures ReadTail(s) == Some(t) <==> ShowsTail(s, t)
  {
    hide ReadTail, ShowsTail;
    if s == [] {
      SilentTail();
    } else {
      if ReadTail(s) == Some(t) { TailShows(s); }
      if ShowsTail(s, t) { TailReadsSo(s, t); }
    }
  }

  lemma SilentTail()
    ensures forall t :: ReadTail([]) == Some(t) <==> ShowsTail([], t)
  {}

  lemma TailShows(s: Str)
    requires s != [] && ReadTail(s).Some?
    ensures ShowsTail(s, ReadTail(s).value)
  {
    TailSplits(s);
    hide ReadCounted, LaidList, ReadNote, LaidNote, ReadRest, ShowsExactness, ReadTail, Finds;
    NoteFound();
    var t, p := ReadTail(s).value, ReadCounted(s, ReadNote);
    ListTaken(s, ReadNote, LaidNote);
    var k := |s| - |p.rest|;
    assert s[..k] == Taken(s, p.rest) && s[k..] == p.rest;
    if p.rest != [] {
      RestIs(p.rest[1..], t.exact, t.suggest);
      assert p.rest[1..] == s[k + 1..];
    }
  }

  lemma TailReadsSo(s: Str, t: Tail)
    requires s != [] && ShowsTail(s, t)
    ensures ReadTail(s) == Some(t)
  {
    TailSplits(s);
    hide ReadCounted, LaidList, ReadNote, LaidNote, ReadRest, ShowsExactness, ReadTail;
    NoteFound();
    var k :| 0 <= k <= |s| && LaidList(s[..k], t.notes, LaidNote)
             && if k == |s| then !t.only && t.exact == Unstated && t.suggest == NotConsulted
                else t.only == (s[k] != 0) && ShowsExactness(s[k + 1..], t.exact, t.suggest);
    FrontList(s, k, t.notes, ReadNote, LaidNote);
    if k < |s| {
      RestIs(s[k + 1..], t.exact, t.suggest);
      assert s[k..][1..] == s[k + 1..];
    }
  }

  // ---------- outcomes ----------

  lemma PathIs(b: Byte, word: string)
    ensures PathOf(b) == word <==> IsPath(b, word)
  {}

  lemma NamesAtFront(bs: Str, k: nat, names: map<UInt32, Str>)
    requires k <= |bs| && LaidNames(bs[..k], names)
    ensures ReadNames(bs).Parsed? && ReadNames(bs).value == names && ReadNames(bs).rest == bs[k..]
  {
    hide ReadNames, LaidNames;
    NamesFound(bs[..k], bs[k..], names);
    assert bs == bs[..k] + bs[k..];
  }

  lemma RecordsShow(s: Str)
    requires s != [] && ReadRecords(s).Some?
    ensures var o := ReadRecords(s).value;
            o.Records? && IsPath(s[0], o.path) && ShowsRecords(s[1..], o.names, o.rows, o.tail)
  {
    hide ReadNames, LaidNames, ReadCounted, LaidList, ReadRow, LaidRow, ReadTail, ShowsTail, PathOf, IsPath;
    var o, t := ReadRecords(s).value, s[1..];
    PathIs(s[0], o.path);
    NamesTaken(t);
    var r1 := ReadNames(t).rest;
    RowFound();
    ListTaken(r1, ReadRow, LaidRow);
    var r2 := ReadCounted(r1, ReadRow).rest;
    var i, j := |t| - |r1|, |t| - |r2|;
    TookTwice(t, r1, r2);
    assert t[..i] == Taken(t, r1) && t[i..j] == Taken(r1, r2) && t[j..] == r2;
    TailIs(r2, o.tail);
  }

  lemma RecordsAreShown(s: Str, path: string, names: map<UInt32, Str>, rows: seq<Row>, tail: Tail)
    requires s != [] && IsPath(s[0], path) && ShowsRecords(s[1..], names, rows, tail)
    ensures ReadRecords(s) == Some(Records(path, names, rows, tail))
  {
    hide ReadNames, LaidNames, ReadCounted, LaidList, ReadRow, LaidRow, ReadTail, ShowsTail, PathOf, IsPath;
    var t := s[1..];
    var i, j :| 0 <= i <= j <= |t| && LaidNames(t[..i], names) && LaidList(t[i..j], rows, LaidRow)
                && ShowsTail(t[j..], tail);
    PathIs(s[0], path);
    NamesAtFront(t, i, names);
    RowFound();
    assert t[i..][..j - i] == t[i..j] && t[i..][j - i..] == t[j..];
    FrontList(t[i..], j - i, rows, ReadRow, LaidRow);
    TailIs(t[j..], tail);
  }

  lemma ValueShows(s: Str, names: map<UInt32, Str>, v: Value)
    ensures ReadValueOutcome(s) == Some(ValueOutcome(names, v)) <==> ShowsValue(s, names, v)
  {
    hide ReadNames, LaidNames, ReadPayload, LaidPayload;
    PayloadFound();
    if ReadValueOutcome(s) == Some(ValueOutcome(names, v)) {
      NamesTaken(s);
      var r1 := ReadNames(s).rest;
      var r2 := ReadPayload(r1).rest;
      var i, j := |s| - |r1|, |s| - |r2|;
      TookTwice(s, r1, r2);
      assert s[..i] == Taken(s, r1) && s[i..j] == Taken(r1, r2);
    }
    if i, j :| 0 <= i <= j <= |s| && LaidNames(s[..i], names) && LaidPayload(s[i..j], v) {
      NamesAtFront(s, i, names);
      assert s[i..] == s[i..j] + s[j..];
    }
  }

  lemma KeysShow(s: Str, keys: seq<Str>)
    requires s != []
    ensures var p := ReadCounted(s[1..], ReadText);
            p.Parsed? && p.value == keys <==> exists k :: 1 <= k <= |s| && LaidList(s[1..k], keys, LaidText)
  {
    hide ReadCounted, LaidList, ReadText, LaidText;
    TextFound();
    var t := s[1..];
    var p := ReadCounted(t, ReadText);
    if p.Parsed? {
      ListTaken(t, ReadText, LaidText);
      var k := |s| - |p.rest|;
      assert s[1..k] == Taken(t, p.rest);
    }
    if k :| 1 <= k <= |s| && LaidList(s[1..k], keys, LaidText) {
      assert t[..k - 1] == s[1..k];
      FrontList(t, k - 1, keys, ReadText, LaidText);
    }
  }

  lemma RecordsOrValue(s: Str)
    ensures ReadRecords(s).Some? ==> s != [] && ReadRecords(s).value.Records?
    ensures ReadValueOutcome(s).Some? ==> ReadValueOutcome(s).value.ValueOutcome?
  {
    hide ReadNames, ReadCounted, ReadTail, ReadPayload, PathOf;
  }

  lemma RecordsOutcomeIs(s: Str, o: Outcome)
    requires s != [] && s[0] == 1 && o.Records?
    ensures ReadRecords(s[1..]) == Some(o) <==> Shows(s, o)
  {
    hide ReadRecords, ShowsRecords, IsPath;
    RecordsOrValue(s[1..]);
    if ReadRecords(s[1..]) == Some(o) {
      RecordsShow(s[1..]);
      assert s[1..][1..] == s[2..];
    }
    if Shows(s, o) {
      assert s[1..][1..] == s[2..];
      RecordsAreShown(s[1..], o.path, o.names, o.rows, o.tail);
    }
  }

  /** An outcome is read exactly as what its bytes say. */
  lemma OutcomeIs(s: Str, o: Outcome)
    ensures ReadOutcome(s) == Some(o) <==> Shows(s, o)
  {
    hide ReadRecords, ReadValueOutcome, ReadCounted, ShowsRecords, ShowsValue, LaidList, IsPath, FromBigEndian;
    if s != [] {
      RecordsOrValue(s[1..]);
      match o
      case Records(path, names, rows, tail) => if s[0] == 1 { RecordsOutcomeIs(s, o); }
      case ValueOutcome(names, v) => ValueShows(s[1..], names, v);
      case Keys(keys) => KeysShow(s, keys);
      case Removed(n) => assert |s| >= 9 ==> s[1..][..8] == s[1..9];
      case _ =>
    }
  }
}
