/** What a client sends reads back to what it meant: Request, Vault and Subscribe bodies, and a tenancy selected. */
module MessageLaws {
  import opened Words
  import opened Values
  import opened Encoding
  import opened Decoding
  import opened CodecLaws
  import opened Texts
  import opened Connections
  import F = Frames

  // ---------- a reader of message bodies ----------

  function ReadCredentials(bs: Str): Parsed<Option<Credentials>> {
    match ReadU8(bs)
    case Failed => Failed
    case Parsed(flag, r, _) =>
      if flag == 0 then Parsed(Nothing, r, true)
      else if flag != 1 then Failed
      else
        match ReadLengthed(r)
        case Failed => Failed
        case Parsed(user, r1, _) =>
          match ReadLengthed(r1)
          case Failed => Failed
          case Parsed(password, r2, _) => Parsed(Some(Credentials(user, password)), r2, true)
  }

  /** A name and a value, each with its length, so often as the count says. */
  function ReadParameters(bs: Str, count: nat, before: map<Str, Value>): Parsed<map<Str, Value>>
    decreases count
  {
    if count == 0 then Parsed(before, bs, true)
    else
      match ReadLengthed(bs)
      case Failed => Failed
      case Parsed(name, r, _) =>
        match ReadLengthed(r)
        case Failed => Failed
        case Parsed(encoded, r1, _) =>
          match Decoded(encoded)
          case Nothing => Failed
          case Some(v) => ReadParameters(r1, count - 1, before[name := v])
  }

  function ReadRequest(bs: Str): Option<Message> {
    match ReadLengthed(bs)
    case Failed => Nothing
    case Parsed(script, r, _) =>
      match ReadCredentials(r)
      case Failed => Nothing
      case Parsed(who, r1, _) =>
        match ReadU32(r1)
        case Failed => Nothing
        case Parsed(count, r2, _) =>
          match ReadParameters(r2, count, map[])
          case Failed => Nothing
          case Parsed(ps, r3, _) => if r3 == [] then Some(Request(script, who, ps)) else Nothing
  }

  function ReadPlace(bs: Str): Parsed<Option<Place>> {
    match ReadU8(bs)
    case Failed => Failed
    case Parsed(flag, r, _) =>
      if flag == 0 then Parsed(Nothing, r, true)
      else if flag != 1 then Failed
      else
        match ReadLengthed(r)
        case Failed => Failed
        case Parsed(namespace, r1, _) =>
          match ReadLengthed(r1)
          case Failed => Failed
          case Parsed(database, r2, _) =>
            match ReadLengthed(r2)
            case Failed => Failed
            case Parsed(vault, r3, _) => Parsed(Some(Place(namespace, database, vault)), r3, true)
  }

  function ReadAct(bs: Str): Option<Act> {
    match ReadU8(bs)
    case Failed => Nothing
    case Parsed(tag, r, _) =>
      if tag == 1 then (if r == [] then Some(Status) else Nothing)
      else if tag == 3 then (if r == [] then Some(Seal) else Nothing)
      else
        match ReadLengthed(r)
        case Failed => Nothing
        case Parsed(a, r1, _) =>
          if tag == 2 && r1 == [] then Some(Unseal(a))
          else if tag == 5 && r1 == [] then Some(Declare(a))
          else if tag != 4 then Nothing
          else
            match ReadLengthed(r1)
            case Failed => Nothing
            case Parsed(b, r2, _) => if r2 == [] then Some(Change(a, b)) else Nothing
  }

  function ReadVault(bs: Str): Option<Message> {
    match ReadCredentials(bs)
    case Failed => Nothing
    case Parsed(who, r, _) =>
      match ReadPlace(r)
      case Failed => Nothing
      case Parsed(place, r1, _) =>
        match ReadAct(r1)
        case Nothing => Nothing
        case Some(act) => Some(Vault(who, place, act))
  }

  function ReadTable(bs: Str): Parsed<Str> {
    match ReadU8(bs)
    case Failed => Failed
    case Parsed(flag, r, _) => if flag == 0 then Parsed([], r, true) else if flag == 1 then ReadLengthed(r) else Failed
  }

  function ReadNarrowing(bs: Str): Option<Narrowing> {
    match ReadLengthed(bs)
    case Failed => Nothing
    case Parsed(condition, r, _) =>
      match ReadLengthed(r)
      case Failed => Nothing
      case Parsed(encoded, r1, _) =>
        match Decoded(encoded)
        case Nothing => Nothing
        case Some(v) => if r1 == [] && v.Object? then Some(Narrowing(condition, v.fields)) else Nothing
  }

  /** After the table comes nothing, or a cursor, or a cursor and a condition. */
  function ReadSubscribe(bs: Str): Option<Message> {
    match ReadU64(bs)
    case Failed => Nothing
    case Parsed(from, r, _) =>
      match ReadTable(r)
      case Failed => Nothing
      case Parsed(table, r1, _) =>
        if r1 == [] then Some(Subscribe(from, table, [], Nothing))
        else
          match ReadLengthed(r1)
          case Failed => Nothing
          case Parsed(cursor, r2, _) =>
            if r2 == [] then Some(Subscribe(from, table, cursor, Nothing))
            else
              match ReadNarrowing(r2)
              case Nothing => Nothing
              case Some(n) => Some(Subscribe(from, table, cursor, Some(n)))
  }

  /** By the kind of the frame. */
  function ReadMessage(kind: Byte, body: Str): Option<Message> {
    if kind == F.REQUEST then ReadRequest(body)
    else if kind == F.VAULT then ReadVault(body)
    else if kind == F.SUBSCRIBE then ReadSubscribe(body)
    else Nothing
  }

  // ---------- it reads back ----------

  predicate Short(t: Str) {
    |t| < TWO_32
  }

  lemma LengthedIs(t: Str)
    ensures |Lengthed(t)| == |t| + 4
  {}

  predicate ShortCredentials(c: Option<Credentials>) {
    c.Some? ==> Short(c.value.user) && Short(c.value.password)
  }

  lemma CredentialsRead(c: Option<Credentials>, s: Str)
    requires ShortCredentials(c)
    ensures ReadCredentials(CredentialsBytes(c) + s) == Parsed(c, s, true)
  {
    hide Lengthed, ReadLengthed, ReadU8;
    if c.Some? {
      var user, password := Lengthed(c.value.user), Lengthed(c.value.password);
      Assoc([1] + user, password, s);
      Assoc([1], user, password + s);
      FlagReads(1, user + (password + s));
      LengthedReads(c.value.user, password + s);
      LengthedReads(c.value.password, s);
    } else {
      FlagReads(0, s);
    }
  }

  lemma FlagReads(flag: Byte, rest: Str)
    ensures ReadU8([flag] + rest) == Parsed(flag, rest, true)
  {
    assert ([flag] + rest)[1..] == rest;
  }

  predicate AllHoldable(ps: map<Str, Value>) {
    forall k :: k in ps ==> Short(k) && Accepted(ps[k]) && Holdable(ps[k])
  }

  lemma {:induction false} ParametersRead(names: seq<Str>, ps: map<Str, Value>, before: map<Str, Value>, s: Str)
    requires forall n :: n in names ==> n in ps
    requires AllHoldable(ps) && forall n :: n in names ==> Short(ValueBytes(ps[n]))
    ensures ReadParameters(ParametersBytes(names, ps) + s, |names|, before)
         == Parsed(Extended(names, ps, before), s, true)
    decreases |names|
  {
    hide Lengthed, ReadLengthed, ValueBytes, Decoded, Accepted, Holdable;
    if names == [] {
      assert ParametersBytes(names, ps) + s == s;
    } else {
      var name := names[0];
      var r1 := ParametersBytes(names[1..], ps) + s;
      var r := Lengthed(ValueBytes(ps[name])) + r1;
      assert ParametersBytes(names, ps) + s == Lengthed(name) + r by {
        Assoc(Lengthed(name), Lengthed(ValueBytes(ps[name])), ParametersBytes(names[1..], ps));
        Assoc(Lengthed(name), Lengthed(ValueBytes(ps[name])) + ParametersBytes(names[1..], ps), s);
        Assoc(Lengthed(ValueBytes(ps[name])), ParametersBytes(names[1..], ps), s);
      }
      LengthedReads(name, r);
      LengthedReads(ValueBytes(ps[name]), r1);
      DecodeInvertsEncode(ps[name]);
      ParametersRead(names[1..], ps, before[name := ps[name]], s);
    }
  }

  /** The map with these names' values set, one after another. */
  function Extended(names: seq<Str>, ps: map<Str, Value>, before: map<Str, Value>): map<Str, Value>
    requires forall n :: n in names ==> n in ps
    decreases |names|
  {
    if names == [] then before else Extended(names[1..], ps, before[names[0] := ps[names[0]]])
  }

  lemma {:induction false} ExtendedHas(names: seq<Str>, ps: map<Str, Value>, before: map<Str, Value>)
    requires forall n :: n in names ==> n in ps
    ensures var m := Extended(names, ps, before);
            && (forall n :: n in m <==> n in names || n in before)
            && (forall n :: n in names ==> m[n] == ps[n])
               && (forall n :: n in before && n !in names ==> m[n] == before[n])
    decreases |names|
  {
    if names != [] { ExtendedHas(names[1..], ps, before[names[0] := ps[names[0]]]); }
  }

  lemma SortedExtendsToAll(ps: map<Str, Value>)
    ensures Extended(Sorted(ps.Keys), ps, map[]) == ps
  {
    hide Sorted;
    ExtendedHas(Sorted(ps.Keys), ps, map[]);
  }

  /** What a body within the ceiling bounds: every text and value in it, and their number. */
  lemma {:induction false} ParametersAreShort(names: seq<Str>, ps: map<Str, Value>)
    requires forall n :: n in names ==> n in ps
    ensures |ParametersBytes(names, ps)| >= 8 * |names|
    ensures forall n :: n in names ==> |ValueBytes(ps[n])| + |n| <= |ParametersBytes(names, ps)|
    decreases |names|
  {
    hide ValueBytes, Lengthed;
    if names != [] {
      LengthedIs(names[0]);
      LengthedIs(ValueBytes(ps[names[0]]));
      ParametersAreShort(names[1..], ps);
    }
  }

  lemma RequestReads(script: Str, who: Option<Credentials>, ps: map<Str, Value>)
    requires forall k :: k in ps ==> Accepted(ps[k]) && Holdable(ps[k])
    requires |MessageBytes(Request(script, who, ps))| <= F.CEILING
    ensures ReadRequest(MessageBytes(Request(script, who, ps))) == Some(Request(script, who, ps))
  {
    hide Lengthed, ReadLengthed, ValueBytes, Accepted, Holdable, U32, ReadU32, ParametersBytes, CredentialsBytes,
      ReadCredentials, ReadParameters, Sorted, Extended;
    var names := Sorted(ps.Keys);
    LengthedIs(script);
    CredentialsAreShort(who);
    ParametersAreShort(names, ps);
    U32Is(|ps|);
    var r2 := ParametersBytes(names, ps) + [];
    var r1 := U32(|ps|) + r2;
    var r := CredentialsBytes(who) + r1;
    assert ParametersBytes(names, ps) + [] == ParametersBytes(names, ps);
    assert MessageBytes(Request(script, who, ps)) == Lengthed(script) + r by {
      Assoc(Lengthed(script), CredentialsBytes(who), U32(|ps|));
      Assoc(Lengthed(script), CredentialsBytes(who) + U32(|ps|), r2);
      Assoc(CredentialsBytes(who), U32(|ps|), r2);
    }
    LengthedReads(script, r);
    CredentialsRead(who, r1);
    U32Reads(|ps|, r2);
    ParametersRead(names, ps, map[], []);
    SortedExtendsToAll(ps);
  }

  lemma U32Is(n: nat)
    ensures |U32(n)| == 4
  {}

  lemma CredentialsAreShort(c: Option<Credentials>)
    ensures |CredentialsBytes(c)| <= F.CEILING ==> ShortCredentials(c)
  {}

  lemma PlaceReads(p: Option<Place>, s: Str)
    requires p.Some? ==> Short(p.value.namespace) && Short(p.value.database) && Short(p.value.vault)
    ensures ReadPlace(PlaceBytes(p) + s) == Parsed(p, s, true)
  {
    hide Lengthed, ReadLengthed, ReadU8;
    if p.Some? {
      var ns, db, vault := Lengthed(p.value.namespace), Lengthed(p.value.database), Lengthed(p.value.vault);
      calc {
        PlaceBytes(p) + s;
      ==
        [1] + ns + db + vault + s;
      ==  { Assoc([1] + ns + db, vault, s); }
        [1] + ns + db + (vault + s);
      ==  { Assoc([1] + ns, db, vault + s); }
        [1] + ns + (db + (vault + s));
      ==  { Assoc([1], ns, db + (vault + s)); }
        [1] + (ns + (db + (vault + s)));
      }
      FlagReads(1, ns + (db + (vault + s)));
      LengthedReads(p.value.namespace, db + (vault + s));
      LengthedReads(p.value.database, vault + s);
      LengthedReads(p.value.vault, s);
    } else {
      FlagReads(0, s);
    }
  }

  predicate ShortAct(a: Act) {
    match a
    case Unseal(p) => Short(p)
    case Change(c, n) => Short(c) && Short(n)
    case Declare(p) => Short(p)
    case _ => true
  }

  lemma ActReads(a: Act)
    requires ShortAct(a)
    ensures ReadAct(ActBytes(a)) == Some(a)
  {
    hide Lengthed, ReadLengthed, ReadU8;
    match a
    case Status =>
      FlagReads(1, []);
      assert ActBytes(a) == [1] + [];
    case Seal =>
      FlagReads(3, []);
      assert ActBytes(a) == [3] + [];
    case Unseal(p) => TextEnds(2, p);
    case Declare(p) => TextEnds(5, p);
    case Change(c, n) =>
      TextEnds(4, n);
      LengthedReads(c, Lengthed(n));
      Assoc([4], Lengthed(c), Lengthed(n));
      FlagReads(4, Lengthed(c) + Lengthed(n));
  }

  /** A text that is the last thing in a body. */
  lemma TextEnds(flag: Byte, t: Str)
    requires Short(t)
    ensures ReadLengthed(Lengthed(t)) == Parsed(t, [], true)
    ensures ReadU8([flag] + Lengthed(t)) == Parsed(flag, Lengthed(t), true)
  {
    hide Lengthed, ReadLengthed, ReadU8;
    LengthedReads(t, []);
    FlagReads(flag, Lengthed(t));
    assert Lengthed(t) + [] == Lengthed(t);
  }

  lemma VaultReads(who: Option<Credentials>, place: Option<Place>, act: Act)
    requires |MessageBytes(Vault(who, place, act))| <= F.CEILING
    ensures ReadVault(MessageBytes(Vault(who, place, act))) == Some(Vault(who, place, act))
  {
    hide CredentialsBytes, PlaceBytes, ActBytes, ReadCredentials, ReadPlace, ReadAct;
    CredentialsAreShort(who);
    PlaceIsShort(place);
    ActIsShort(act);
    Assoc(CredentialsBytes(who), PlaceBytes(place), ActBytes(act));
    CredentialsRead(who, PlaceBytes(place) + ActBytes(act));
    PlaceReads(place, ActBytes(act));
    ActReads(act);
  }

  lemma PlaceIsShort(p: Option<Place>)
    ensures |PlaceBytes(p)| <= F.CEILING && p.Some? ==>
              Short(p.value.namespace) && Short(p.value.database) && Short(p.value.vault)
  {}

  lemma ActIsShort(a: Act)
    ensures |ActBytes(a)| <= F.CEILING ==> ShortAct(a)
  {}

  lemma NarrowingReads(n: Narrowing)
    requires Accepted(Object(n.parameters)) && Holdable(Object(n.parameters))
    requires Short(n.condition) && Short(ValueBytes(Object(n.parameters)))
    ensures ReadNarrowing(Lengthed(n.condition) + Lengthed(ValueBytes(Object(n.parameters)))) == Some(n)
  {
    hide Lengthed, ReadLengthed, ValueBytes, Decoded, Accepted, Holdable;
    var v := Object(n.parameters);
    assert Lengthed(ValueBytes(v)) + [] == Lengthed(ValueBytes(v));
    LengthedReads(n.condition, Lengthed(ValueBytes(v)));
    LengthedReads(ValueBytes(v), []);
    DecodeInvertsEncode(v);
  }

  function TableBytes(table: Str): Str {
    if table == [] then [0] else [1] + Lengthed(table)
  }

  lemma TableReads(table: Str, s: Str)
    requires Short(table)
    ensures ReadTable(TableBytes(table) + s) == Parsed(table, s, true)
  {
    hide Lengthed, ReadLengthed;
    if table == [] {
      assert (TableBytes(table) + s)[1..] == s;
    } else {
      LengthedReads(table, s);
      assert (TableBytes(table) + s)[1..] == Lengthed(table) + s;
    }
  }

  /** An empty cursor before a condition is told from a cursor without one, and from neither. */
  lemma SubscribeReads(from: UInt64, table: Str, cursor: Str, n: Option<Narrowing>)
    requires n.Some? ==> Accepted(Object(n.value.parameters)) && Holdable(Object(n.value.parameters))
    requires |MessageBytes(Subscribe(from, table, cursor, n))| <= F.CEILING
    ensures ReadSubscribe(MessageBytes(Subscribe(from, table, cursor, n))) == Some(Subscribe(from, table, cursor, n))
  {
    hide Lengthed, ReadLengthed, U64, ReadU64, ReadTable, ReadNarrowing, ValueBytes, Accepted, Holdable;
    var body := MessageBytes(Subscribe(from, table, cursor, n));
    var r2 := if n.Some? then Lengthed(n.value.condition) + Lengthed(ValueBytes(Object(n.value.parameters))) else [];
    var r1 := (if cursor != [] || n.Some? then Lengthed(cursor) else []) + r2;
    LengthedIs(table);
    LengthedIs(cursor);
    assert body == U64(from) + (TableBytes(table) + r1) by { SubscribeText(from, table, cursor, n); }
    U64Reads(from, TableBytes(table) + r1);
    TableReads(table, r1);
    if n.Some? {
      LengthedIs(n.value.condition);
      LengthedIs(ValueBytes(Object(n.value.parameters)));
      LengthedReads(cursor, r2);
      NarrowingReads(n.value);
    } else if cursor != [] {
      LengthedReads(cursor, r2);
    }
  }

  lemma SubscribeText(from: UInt64, table: Str, cursor: Str, n: Option<Narrowing>)
    ensures MessageBytes(Subscribe(from, table, cursor, n))
         == U64(from) + (TableBytes(table) + ((if cursor != [] || n.Some? then Lengthed(cursor) else [])
            + (if n.Some? then Lengthed(n.value.condition) + Lengthed(ValueBytes(Object(n.value.parameters))) else [])))
  {
    hide Lengthed, U64, ValueBytes;
    var a, b := U64(from), TableBytes(table);
    var c := if cursor != [] || n.Some? then Lengthed(cursor) else [];
    var d := if n.Some? then Lengthed(n.value.condition) + Lengthed(ValueBytes(Object(n.value.parameters))) else [];
    Assoc(a, b, c);
    Assoc(a, b + c, d);
    Assoc(b, c, d);
  }

  /** The values a message carries are ones the wire can hold. */
  predicate Carriable(m: Message) {
    match m
    case Request(_, _, ps) => forall k :: k in ps ==> Accepted(ps[k]) && Holdable(ps[k])
    case Vault(_, _, _) => true
    case Subscribe(_, _, _, n) => n.Some? ==>
      Accepted(Object(n.value.parameters)) && Holdable(Object(n.value.parameters))
  }

  /** Whatever a client may send reads back from its frame's kind and body. */
  lemma MessageReads(m: Message)
    requires Carriable(m) && |MessageBytes(m)| <= F.CEILING
    ensures ReadMessage(KindOf(m), MessageBytes(m)) == Some(m)
  {
    hide MessageBytes, ReadRequest, ReadVault, ReadSubscribe, Accepted, Holdable;
    match m
    case Request(script, who, ps) => RequestReads(script, who, ps);
    case Vault(who, place, act) => VaultReads(who, place, act);
    case Subscribe(from, table, cursor, n) => SubscribeReads(from, table, cursor, n);
  }

  // ---------- resuming a feed ----------

  /** A feed resumes right after the last change seen exactly when that was not the largest sequence. */
  lemma ResumesAfter(seen: UInt64)
    ensures ResumeFrom(seen, false) > seen <==> seen < TWO_64 - 1
    ensures seen < TWO_64 - 1 ==> ResumeFrom(seen, false) == seen + 1
    ensures ResumeFrom(TWO_64 - 1, false) == 0
    ensures ResumeFrom(seen, true) == 0
  {}

  /**
   What a feed sends, narrowed or not, is read by the node as a Subscribe that asks for what follows the last change
   seen, exactly when that was not the largest sequence; after the largest it asks for everything.
   */
  lemma FeedResumes(net: Network, c: Conn, h: History, seen: UInt64, table: Str, narrowing: Option<Narrowing>, i: nat)
    requires narrowing.Some? ==> Holdable(Object(narrowing.value.parameters))
    requires |h| <= i < |SubscribeFrom(net, c, h, ResumeFrom(seen, false), table, [], narrowing).2|
    ensures var e := SubscribeFrom(net, c, h, ResumeFrom(seen, false), table, [], narrowing).2[i];
            e.Sent? && e.id == c.id &&
            var read := ReadMessage(KindOf(e.message), MessageBytes(e.message));
            && read.Some? && read.value.Subscribe? && read.value.table == table && read.value.narrowing == narrowing
            && (read.value.from > seen <==> seen < TWO_64 - 1)
            && (read.value.from == 0 <==> seen == TWO_64 - 1)
  {
    hide MessageBytes, NeededMinor, ReadMessage, Holdable, ResumeFrom;
    ResumesAfter(seen);
    MessageReads(Subscribe(ResumeFrom(seen, false), table, [], narrowing));
  }

  // ---------- the tenancy selected on arrival ----------

  /** What a context says under a name, when that is text. */
  function TextOf(context: map<Str, Value>, key: string): Option<Str> {
    if Ascii(key) in context && context[Ascii(key)].Text? then Some(context[Ascii(key)].text) else Nothing
  }

  /** One `USE what name; ` or nothing. */
  function ReadUse(t: Str, what: string): Read<Option<Str>> {
    if Opens(t, "USE " + what + " ") then
      var (name, t1) :- ReadName(Past(t, "USE " + what + " "));
      var (_, t2) :- Skip(t1, "; ");
      Got(Some(name), t2)
    else Got(Nothing, t)
  }

  /** A namespace and a database, each selected at most once, and nothing else. */
  function ReadSelection(t: Str): Option<(Option<Str>, Option<Str>)> {
    var read :=
      var (namespace, t1) :- ReadUse(t, "NAMESPACE");
      var (database, t2) :- ReadUse(t1, "DATABASE");
      Got((namespace, database), t2);
    if read.Got? && read.rest == [] then Some(read.value) else Nothing
  }

  function UseText(what: string, name: Option<Str>): Str {
    if name.Some? then Ascii("USE " + what + " ") + (name.value + Ascii("; ")) else []
  }

  lemma SemicolonEnds(rest: Str)
    ensures Ended(Ascii("; ") + rest)
  {
    assert (Ascii("; ") + rest)[0] == ';' as int;
  }

  lemma UseReads(what: string, name: Option<Str>, rest: Str)
    requires name.Some? ==> PlainName(name.value)
    requires name.Nothing? ==> !Opens(rest, "USE " + what + " ")
    ensures ReadUse(UseText(what, name) + rest, what) == Got(name, rest)
  {
    hide Ascii, PlainName, Opens, ReadName, Skip, Past;
    if name.Nothing? {
      assert UseText(what, name) + rest == rest;
    } else {
      var t1 := Ascii("; ") + rest;
      var t0 := name.value + t1;
      assert UseText(what, name) + rest == Ascii("USE " + what + " ") + t0;
      OpensWith("USE " + what + " ", t0);
      SemicolonEnds(rest);
      NameReads(name.value, t1);
      Skips("; ", rest);
    }
  }

  lemma UseIsText(context: map<Str, Value>, what: string, key: string)
    ensures Use(context, what, key).Some? <==> (TextOf(context, key).Some? ==> PlainName(TextOf(context, key).value))
    ensures Use(context, what, key).Some? ==> Use(context, what, key).value == UseText(what, TextOf(context, key))
  {
    hide PlainName;
    assert Ascii("USE " + what + " ") == Ascii("USE ") + Ascii(what) + Ascii(" ");
  }

  /**
   A context is followed exactly when its namespace and database, where they are text, are plain names;
   and the script then selects those two, each once, and does nothing else.
   */
  lemma SelectionReads(context: map<Str, Value>)
    ensures var ns, db := TextOf(context, "namespace"), TextOf(context, "database");
            && (Selection(context).Some? <==> (ns.Some? ==> PlainName(ns.value)) && (db.Some? ==> PlainName(db.value)))
            && (Selection(context).Some? ==> ReadSelection(Selection(context).value) == Some((ns, db)))
  {
    hide PlainName, Ascii, ReadUse, Use, UseText, Opens, TextOf;
    var ns, db := TextOf(context, "namespace"), TextOf(context, "database");
    UseIsText(context, "NAMESPACE", "namespace");
    UseIsText(context, "DATABASE", "database");
    if Selection(context).Some? {
      var rest := UseText("DATABASE", db);
      assert rest + [] == rest;
      NoUseInNothing();
      NoNamespaceInDatabase(db);
      UseReads("DATABASE", db, []);
      UseReads("NAMESPACE", ns, rest);
    }
  }

  lemma NoUseInNothing()
    ensures !Opens([], "USE " + "DATABASE" + " ")
  {}

  lemma NoNamespaceInDatabase(db: Option<Str>)
    ensures !Opens(UseText("DATABASE", db), "USE " + "NAMESPACE" + " ")
  {
    if db.Some? { Apart("USE " + "DATABASE" + " ", db.value + Ascii("; "), "USE " + "NAMESPACE" + " ", 4); }
  }
}
