/** The statements a cache sends (cache_statements.go), and a reader of them that shares nothing with their text. */
module CacheStatements {
  import opened Words
  import opened Values
  import opened Texts
  import opened Caches
  import D = Durations

  datatype Tenancy = Tenancy(namespace: Str, database: Str, space: Str)

  /** Names are checked once, before anything is sent. */
  type Names = n: Tenancy | PlainName(n.namespace) && PlainName(n.database) && PlainName(n.space)
    witness Tenancy([0x61], [0x61], [0x61])

  /** A statement as it is sent: its text, and the values bound in it. */
  datatype Given = Given(script: Str, parameters: map<Str, Value>)

  const K := Ascii("k")
  const H := Ascii("h")
  const T := Ascii("t")
  const V := Ascii("v")

  const LOCK := ":$k = $h IF ABSENT EXPIRE $t;"
  const EXTEND := ":$k = $h IF = $h EXPIRE $t;"
  const RELEASE := ":$k = 'free' IF = $h EXPIRE 1ms;"
  const GET := ":$k;"
  const SET_IF_ABSENT := ":$k = $v IF ABSENT EXPIRE $t;"

  function Heading(n: Tenancy): Str {
    Ascii("USE NAMESPACE ") + n.namespace + Ascii("; USE DATABASE ") + n.database + Ascii("; ")
  }

  function Script(n: Tenancy, verb: string, tail: string): Str {
    Heading(n) + Ascii(verb) + n.space + Ascii(tail)
  }

  /** held and keyed: the text around the tail, the key and the holder bound, and the ttl when there is one. */
  function Held(n: Tenancy, tail: string, key: Str, holder: Str, ttl: Option<Value>): Given {
    var bound := map[K := Text(key)][H := Text(holder)];
    Given(Script(n, "SET ", tail), if ttl.Some? then bound[T := ttl.value] else bound)
  }

  function Fetched(n: Tenancy, key: Str): Given {
    Given(Script(n, "GET ", GET), map[K := Text(key)])
  }

  function StoredIfAbsent(n: Tenancy, key: Str, value: Value, ttl: Value): Given {
    Given(Script(n, "SET ", SET_IF_ABSENT), map[K := Text(key)][V := value][T := ttl])
  }

  // ---------- a reader of cache statements ----------

  datatype Stored = Parameter(name: Str) | Quoted(text: Str)
  datatype Terms = Unconditional | IfNone | IfSome | IfSame(parameter: Str)
  datatype Life = Forever | During(parameter: Str) | Lasts(nanos: nat)

  /** What a statement says, by the names of its parameters. */
  datatype Command = Fetch(key: Str) | Put(key: Str, value: Stored, terms: Terms, life: Life)

  function ReadHeading(t: Str): Read<(Str, Str)> {
    var (_, t1) :- Skip(t, "USE NAMESPACE ");
    var (namespace, t2) :- ReadName(t1);
    var (_, t3) :- Skip(t2, "; USE DATABASE ");
    var (database, t4) :- ReadName(t3);
    var (_, t5) :- Skip(t4, "; ");
    Got((namespace, database), t5)
  }

  function ReadStored(t: Str): Read<Stored> {
    if Opens(t, "$") then
      var (name, t1) :- ReadName(Past(t, "$"));
      Got(Parameter(name), t1)
    else
      var (_, t1) :- Skip(t, "'");
      var (word, t2) :- ReadName(t1);
      var (_, t3) :- Skip(t2, "'");
      Got(Quoted(word), t3)
  }

  function ReadTerms(t: Str): Read<Terms> {
    if Opens(t, " IF ABSENT") then Got(IfNone, Past(t, " IF ABSENT"))
    else if Opens(t, " IF PRESENT") then Got(IfSome, Past(t, " IF PRESENT"))
    else if Opens(t, " IF = $") then
      var (name, t1) :- ReadName(Past(t, " IF = $"));
      Got(IfSame(name), t1)
    else Got(Unconditional, t)
  }

  function ReadLife(t: Str): Read<Life> {
    if Opens(t, " EXPIRE $") then
      var (name, t1) :- ReadName(Past(t, " EXPIRE $"));
      Got(During(name), t1)
    else if Opens(t, " EXPIRE ") then
      var word := Past(t, " EXPIRE ");
      match D.ReadDuration(word[..Run(word)])
      case Some(span) =>
        if span.seconds >= 0 && span.nanos >= 0 then
          Got(Lasts(span.seconds * NANOS_PER_SECOND + span.nanos), word[Run(word)..])
        else Not
      case Nothing => Not
    else Got(Forever, t)
  }

  function ReadPut(t: Str): Read<Command> {
    var (_, t1) :- Skip(t, ":$");
    var (key, t2) :- ReadName(t1);
    var (_, t3) :- Skip(t2, " = ");
    var (value, t4) :- ReadStored(t3);
    var (terms, t5) :- ReadTerms(t4);
    var (life, t6) :- ReadLife(t5);
    var (_, t7) :- Skip(t6, ";");
    Got(Put(key, value, terms, life), t7)
  }

  function ReadFetch(t: Str): Read<Command> {
    var (_, t1) :- Skip(t, ":$");
    var (key, t2) :- ReadName(t1);
    var (_, t3) :- Skip(t2, ";");
    Got(Fetch(key), t3)
  }

  /** The tenancy and the command, with nothing after it. */
  function ReadCommand(t: Str): Option<(Tenancy, Command)> {
    match ReadHeading(t)
    case Not => Nothing
    case Got((namespace, database), t1) =>
      var put := Opens(t1, "SET ");
      if !put && !Opens(t1, "GET ") then Nothing
      else
        match ReadName(if put then Past(t1, "SET ") else Past(t1, "GET "))
        case Not => Nothing
        case Got(space, t2) =>
          match if put then ReadPut(t2) else ReadFetch(t2)
          case Not => Nothing
          case Got(command, rest) =>
            if rest == [] then Some((Tenancy(namespace, database, space), command)) else Nothing
  }

  /** What a store does with a statement: it reads a key, or it writes. */
  datatype Order = Reads(key: Str) | Writes(write: Write)

  function ValueOf(v: Stored, ps: map<Str, Value>): Option<Value> {
    match v
    case Parameter(name) => if name in ps then Some(ps[name]) else Nothing
    case Quoted(text) => Some(Text(text))
  }

  function ConditionOf(c: Terms, ps: map<Str, Value>): Option<Condition> {
    match c
    case Unconditional => Some(Always)
    case IfNone => Some(Absent)
    case IfSome => Some(Present)
    case IfSame(name) => if name in ps then Some(Equals(ps[name])) else Nothing
  }

  function LifeOf(l: Life, ps: map<Str, Value>): Option<Option<nat>> {
    match l
    case Forever => Some(Nothing)
    case During(name) => if name in ps && NanosOf(ps[name]).Some? then Some(Some(NanosOf(ps[name]).value)) else Nothing
    case Lasts(nanos) => Some(Some(nanos))
  }

  function OrderOf(command: Command, ps: map<Str, Value>): Option<Order> {
    if command.key !in ps || !ps[command.key].Text? then Nothing
    else
      var key := ps[command.key].text;
      match command
      case Fetch(_) => Some(Reads(key))
      case Put(_, v, c, l) =>
        var value, condition, life := ValueOf(v, ps), ConditionOf(c, ps), LifeOf(l, ps);
        if value.Some? && condition.Some? && life.Some?
        then Some(Writes(Write(key, value.value, condition.value, life.value)))
        else Nothing
  }

  /** What a statement sent by this cache means to the store: in its own tenancy and space, or nothing. */
  function Meant(n: Tenancy, g: Given): Option<Order> {
    match ReadCommand(g.script)
    case Nothing => Nothing
    case Some((tenancy, command)) => if tenancy == n then OrderOf(command, g.parameters) else Nothing
  }

  // ---------- the statements read ----------

  lemma AsciiJoins(a: string, b: string)
    ensures Ascii(a + b) == Ascii(a) + Ascii(b)
  {}

  /** A name ends where a literal begins with a byte that no name has. */
  lemma Stops(literal: string, rest: Str)
    requires |literal| > 0 && !IsNameByte(literal[0] as int % 256)
    ensures Ended(Ascii(literal) + rest)
  {
    assert (Ascii(literal) + rest)[0] == literal[0] as int % 256;
  }

  lemma HeadingReads(n: Names, rest: Str)
    ensures ReadHeading(Heading(n) + rest) == Got((n.namespace, n.database), rest)
  {
    hide PlainName, Ascii, Opens, ReadName, Skip;
    var t4 := Ascii("; ") + rest;
    var t3 := n.database + t4;
    var t2 := Ascii("; USE DATABASE ") + t3;
    var t1 := n.namespace + t2;
    assert Heading(n) + rest == Ascii("USE NAMESPACE ") + t1;
    Skips("USE NAMESPACE ", t1);
    Stops("; USE DATABASE ", t3);
    NameReads(n.namespace, t2);
    Skips("; USE DATABASE ", t3);
    Stops("; ", rest);
    NameReads(n.database, t4);
    Skips("; ", rest);
  }

  function StoredText(v: Stored): Str {
    match v
    case Parameter(name) => Ascii("$") + name
    case Quoted(text) => Ascii("'") + (text + Ascii("'"))
  }

  function TermsText(c: Terms): Str {
    match c
    case Unconditional => []
    case IfNone => Ascii(" IF ABSENT")
    case IfSome => Ascii(" IF PRESENT")
    case IfSame(name) => Ascii(" IF = $") + name
  }

  function LifeText(l: Life): Str {
    match l
    case Forever => []
    case During(name) => Ascii(" EXPIRE $") + name
    case Lasts(nanos) => Ascii(" EXPIRE ") + (Itoa(nanos / 1_000_000) + Ascii("ms"))
  }

  function PutText(key: Str, v: Stored, c: Terms, l: Life): Str {
    Ascii(":$") + (key + (Ascii(" = ") + (StoredText(v) + (TermsText(c) + (LifeText(l) + Ascii(";"))))))
  }

  predicate Named(v: Stored, c: Terms, l: Life) {
    && PlainName(match v case Parameter(name) => name case Quoted(text) => text)
    && (c.IfSame? ==> PlainName(c.parameter)) && (l.During? ==> PlainName(l.parameter))
    && (l.Lasts? ==> l.nanos == 1_000_000)
  }

  lemma StoredReads(v: Stored, rest: Str)
    requires PlainName(match v case Parameter(name) => name case Quoted(text) => text) && Ended(rest)
    ensures ReadStored(StoredText(v) + rest) == Got(v, rest)
  {
    hide PlainName, Ascii, Opens, ReadName, Skip;
    match v
    case Parameter(name) =>
      Assoc(Ascii("$"), name, rest);
      OpensWith("$", name + rest);
      NameReads(name, rest);
    case Quoted(text) =>
      Assoc(Ascii("'"), text + Ascii("'"), rest);
      Assoc(text, Ascii("'"), rest);
      Apart("'", text + (Ascii("'") + rest), "$", 0);
      Skips("'", text + (Ascii("'") + rest));
      Stops("'", rest);
      NameReads(text, Ascii("'") + rest);
      Skips("'", rest);
  }

  /** What follows is an expiry or the end, not a condition. */
  predicate NoTerms(t: Str) {
    !Opens(t, " IF ABSENT") && !Opens(t, " IF PRESENT") && !Opens(t, " IF = $")
  }

  lemma TermsRead(c: Terms, rest: Str)
    requires (c.IfSame? ==> PlainName(c.parameter) && Ended(rest)) && (c.Unconditional? ==> NoTerms(rest))
    ensures ReadTerms(TermsText(c) + rest) == Got(c, rest)
  {
    hide PlainName, Ascii, Opens, ReadName;
    match c
    case Unconditional => assert [] + rest == rest;
    case IfNone => OpensWith(" IF ABSENT", rest);
    case IfSome =>
      OpensWith(" IF PRESENT", rest);
      Apart(" IF PRESENT", rest, " IF ABSENT", 4);
    case IfSame(name) =>
      Assoc(Ascii(" IF = $"), name, rest);
      OpensWith(" IF = $", name + rest);
      Apart(" IF = $", name + rest, " IF ABSENT", 4);
      Apart(" IF = $", name + rest, " IF PRESENT", 4);
      NameReads(name, rest);
  }

  lemma LifeReads(l: Life, rest: Str)
    requires (l.During? ==> PlainName(l.parameter)) && (l.Lasts? ==> l.nanos == 1_000_000)
    ensures ReadLife(LifeText(l) + (Ascii(";") + rest)) == Got(l, Ascii(";") + rest)
    ensures NoTerms(LifeText(l) + (Ascii(";") + rest)) && Ended(LifeText(l) + (Ascii(";") + rest))
  {
    hide PlainName, Ascii, Opens, ReadName, ReadLife, NoTerms, Ended;
    match l
    case Forever => ForeverReads(rest);
    case During(name) => DuringReads(name, rest);
    case Lasts(nanos) => LastsReads(rest);
  }

  lemma ForeverReads(rest: Str)
    ensures ReadLife([] + (Ascii(";") + rest)) == Got(Forever, Ascii(";") + rest)
    ensures NoTerms([] + (Ascii(";") + rest)) && Ended([] + (Ascii(";") + rest))
  {
    hide Ascii, Opens, ReadName, NoTerms, Ended;
    var end := Ascii(";") + rest;
    assert [] + end == end;
    Stops(";", rest);
    NotTerms(";", rest);
    Apart(";", rest, " EXPIRE $", 0);
    Apart(";", rest, " EXPIRE ", 0);
  }

  lemma DuringReads(name: Str, rest: Str)
    requires PlainName(name)
    ensures var t := Ascii(" EXPIRE $") + name + (Ascii(";") + rest);
            ReadLife(t) == Got(During(name), Ascii(";") + rest) && NoTerms(t) && Ended(t)
  {
    hide PlainName, Ascii, Opens, ReadName, NoTerms, Ended;
    var end := Ascii(";") + rest;
    Stops(";", rest);
    Assoc(Ascii(" EXPIRE $"), name, end);
    OpensWith(" EXPIRE $", name + end);
    NotTerms(" EXPIRE $", name + end);
    Stops(" EXPIRE $", name + end);
    NameReads(name, end);
  }

  lemma LastsReads(rest: Str)
    ensures var t := Ascii(" EXPIRE ") + (Itoa(1) + Ascii("ms")) + (Ascii(";") + rest);
            ReadLife(t) == Got(Lasts(1_000_000), Ascii(";") + rest) && NoTerms(t) && Ended(t)
  {
    hide Ascii, Opens, ReadName, NoTerms, Ended;
    var end, word := Ascii(";") + rest, Itoa(1) + Ascii("ms");
    Stops(";", rest);
    Assoc(Ascii(" EXPIRE "), word, end);
    OpensWith(" EXPIRE ", word + end);
    NotTerms(" EXPIRE ", word + end);
    Stops(" EXPIRE ", word + end);
    OneMilli(end);
    Apart8(word + end);
  }

  lemma NotTerms(literal: string, rest: Str)
    requires literal == ";" || literal == " EXPIRE $" || literal == " EXPIRE "
    ensures NoTerms(Ascii(literal) + rest)
  {
    hide Ascii, Opens;
    var i := if literal == ";" then 0 else 1;
    Apart(literal, rest, " IF ABSENT", i);
    Apart(literal, rest, " IF PRESENT", i);
    Apart(literal, rest, " IF = $", i);
  }

  lemma Apart8(rest: Str)
    requires rest != [] && rest[0] != 0x24
    ensures !Opens(Ascii(" EXPIRE ") + rest, " EXPIRE $")
  {
    assert (Ascii(" EXPIRE ") + rest)[8] == rest[0];
  }

  /** A millisecond, by its digits and its unit. */
  lemma OneMilli(rest: Str)
    requires Ended(rest)
    ensures var word := Itoa(1) + Ascii("ms");
            && word != [] && word[0] != 0x24
            && Run(word + rest) == |word| && (word + rest)[..|word|] == word && (word + rest)[|word|..] == rest
            && D.ReadDuration(word) == Some(D.Span(0, 1_000_000))
  {
    var word := Itoa(1) + Ascii("ms");
    assert word == [0x31, 0x6d, 0x73];
    RunReads(word, rest);
    MilliReads();
  }

  lemma MilliReads()
    ensures D.ReadDuration(Itoa(1) + Ascii("ms")) == Some(D.Span(0, 1_000_000))
  {
    hide D.Scan, Itoa, Ascii;
    D.OnePartReads(1, 1, [], D.Span(0, 0));
    D.NothingScans(D.Span(0, 1_000_000));
    assert Itoa(1) + Ascii("ms") + [] == Itoa(1) + Ascii("ms");
    OneIsADigit();
  }

  lemma OneIsADigit()
    ensures (Itoa(1) + Ascii("ms"))[0] == 0x31
  {}

  lemma PutReads(key: Str, v: Stored, c: Terms, l: Life)
    requires PlainName(key) && Named(v, c, l)
    ensures ReadPut(PutText(key, v, c, l)) == Got(Put(key, v, c, l), [])
  {
    hide PlainName, Ascii, ReadName, Skip, ReadStored, ReadTerms, ReadLife, StoredText, TermsText, LifeText, Opens,
         NoTerms;
    var t6 := LifeText(l) + Ascii(";");
    var t5 := TermsText(c) + t6;
    var t4 := StoredText(v) + t5;
    var t3 := Ascii(" = ") + t4;
    assert Ascii(";") + [] == Ascii(";");
    LifeReads(l, []);
    TermsRead(c, t6);
    TermsEnd(c, t6);
    StoredReads(v, t5);
    Skips(" = ", t4);
    Stops(" = ", t4);
    NameReads(key, t3);
    Skips(":$", key + t3);
    Skips(";", []);
  }

  lemma TermsEnd(c: Terms, rest: Str)
    requires Ended(rest)
    ensures Ended(TermsText(c) + rest)
  {
    hide Ascii;
    match c
    case Unconditional => assert [] + rest == rest;
    case IfNone => Stops(" IF ABSENT", rest);
    case IfSome => Stops(" IF PRESENT", rest);
    case IfSame(name) =>
      Assoc(Ascii(" IF = $"), name, rest);
      Stops(" IF = $", name + rest);
  }

  lemma FetchReads(key: Str)
    requires PlainName(key)
    ensures ReadFetch(Ascii(":$") + (key + Ascii(";"))) == Got(Fetch(key), [])
  {
    hide PlainName, Ascii, ReadName, Skip;
    assert Ascii(";") + [] == Ascii(";");
    Skips(":$", key + Ascii(";"));
    Stops(";", []);
    NameReads(key, Ascii(";"));
    Skips(";", []);
  }

  lemma CommandReads(n: Names, verb: string, tail: Str, command: Command)
    requires verb == "SET " || verb == "GET "
    requires (if verb == "SET " then ReadPut(tail) else ReadFetch(tail)) == Got(command, [])
    requires tail != [] && tail[0] == 0x3a
    ensures ReadCommand(Heading(n) + Ascii(verb) + n.space + tail) == Some((n, command))
  {
    hide PlainName, Ascii, Opens, ReadName, ReadHeading, Heading, ReadPut, ReadFetch;
    var t1 := Ascii(verb) + (n.space + tail);
    assert Heading(n) + Ascii(verb) + n.space + tail == Heading(n) + t1;
    HeadingReads(n, t1);
    OpensWith(verb, n.space + tail);
    if verb == "GET " { Apart("GET ", n.space + tail, "SET ", 0); }
    NameReads(n.space, tail);
  }

  // ---------- the five statements ----------

  lemma FourPieces(a: string, b: string, c: string, d: string)
    ensures Ascii(a + (b + (c + d))) == Ascii(a) + (Ascii(b) + (Ascii(c) + Ascii(d)))
  {
    hide Ascii;
    AsciiJoins(a, b + (c + d));
    AsciiJoins(b, c + d);
    AsciiJoins(c, d);
  }

  lemma PutIs(key: string, v: string, c: string, l: string)
    ensures Ascii(":$" + (key + (" = " + v)) + (c + (l + ";")))
         == Ascii(":$") + (Ascii(key) + (Ascii(" = ") + (Ascii(v) + (Ascii(c) + (Ascii(l) + Ascii(";"))))))
  {
    hide Ascii;
    var head, tail := ":$" + (key + (" = " + v)), c + (l + ";");
    AsciiJoins(head, tail);
    FourPieces(":$", key, " = ", v);
    AsciiJoins(c, l + ";");
    AsciiJoins(l, ";");
    var rest := Ascii(c) + (Ascii(l) + Ascii(";"));
    Assoc(Ascii(":$"), Ascii(key) + (Ascii(" = ") + Ascii(v)), rest);
    Assoc(Ascii(key), Ascii(" = ") + Ascii(v), rest);
    Assoc(Ascii(" = "), Ascii(v), rest);
  }

  lemma LockSays()
    ensures Ascii(LOCK) == PutText(K, Parameter(H), IfNone, During(T))
  {
    hide Ascii;
    assert LOCK == ":$" + ("k" + (" = " + "$h")) + (" IF ABSENT" + (" EXPIRE $t" + ";"));
    PutIs("k", "$h", " IF ABSENT", " EXPIRE $t");
    assert "$h" == "$" + "h" && " EXPIRE $t" == " EXPIRE $" + "t";
    AsciiJoins("$", "h");
    AsciiJoins(" EXPIRE $", "t");
  }

  lemma ExtendSays()
    ensures Ascii(EXTEND) == PutText(K, Parameter(H), IfSame(H), During(T))
  {
    hide Ascii;
    assert EXTEND == ":$" + ("k" + (" = " + "$h")) + (" IF = $h" + (" EXPIRE $t" + ";"));
    PutIs("k", "$h", " IF = $h", " EXPIRE $t");
    assert "$h" == "$" + "h" && " EXPIRE $t" == " EXPIRE $" + "t" && " IF = $h" == " IF = $" + "h";
    AsciiJoins("$", "h");
    AsciiJoins(" IF = $", "h");
    AsciiJoins(" EXPIRE $", "t");
  }

  lemma ReleaseParts()
    ensures RELEASE == ":$" + ("k" + (" = " + "'free'")) + (" IF = $h" + (" EXPIRE 1ms" + ";"))
  {}

  lemma FreeParts()
    ensures Ascii("'free'") == Ascii("'") + (Ascii("free") + Ascii("'"))
    ensures Ascii(" EXPIRE 1ms") == Ascii(" EXPIRE ") + (Ascii("1") + Ascii("ms"))
    ensures Ascii(" IF = $h") == Ascii(" IF = $") + H
  {}

  lemma ReleaseSays()
    ensures Ascii(RELEASE) == PutText(K, Quoted(Ascii("free")), IfSame(H), Lasts(1_000_000))
  {
    hide Ascii, Itoa;
    ReleaseParts();
    FreeParts();
    PutIs("k", "'free'", " IF = $h", " EXPIRE 1ms");
    OneIsOne();
  }

  lemma OneIsOne()
    ensures Itoa(1) == Ascii("1")
  {}

  lemma SetSays()
    ensures Ascii(SET_IF_ABSENT) == PutText(K, Parameter(V), IfNone, During(T))
  {
    hide Ascii;
    assert SET_IF_ABSENT == ":$" + ("k" + (" = " + "$v")) + (" IF ABSENT" + (" EXPIRE $t" + ";"));
    PutIs("k", "$v", " IF ABSENT", " EXPIRE $t");
    assert "$v" == "$" + "v" && " EXPIRE $t" == " EXPIRE $" + "t";
    AsciiJoins("$", "v");
    AsciiJoins(" EXPIRE $", "t");
  }

  lemma GetSays()
    ensures Ascii(GET) == Ascii(":$") + (K + Ascii(";"))
  {}

  lemma Letters()
    ensures PlainName(K) && PlainName(H) && PlainName(T) && PlainName(V) && PlainName(Ascii("free"))
    ensures K != H && K != T && K != V && H != T && V != T
  {
    assert K == [0x6b] && H == [0x68] && T == [0x74] && V == [0x76];
  }

  lemma Colons()
    ensures forall tail :: tail in {LOCK, EXTEND, RELEASE, SET_IF_ABSENT, GET} ==>
              Ascii(tail) != [] && Ascii(tail)[0] == 0x3a
  {}

  /** A lock asks to write the holder where nothing is, an extension and a release only where the holder is. */
  lemma HeldIsMeant(n: Names, key: Str, holder: Str, ttl: Value)
    requires ttl.Duration? && ttl.seconds >= 0
    ensures Meant(n, Held(n, LOCK, key, holder, Some(ttl)))
         == Some(Writes(Write(key, Text(holder), Absent, Some(ttl.seconds * 1_000_000_000 + ttl.nanos))))
    ensures Meant(n, Held(n, EXTEND, key, holder, Some(ttl)))
         == Some(Writes(Write(key, Text(holder), Equals(Text(holder)), Some(ttl.seconds * 1_000_000_000 + ttl.nanos))))
    ensures Meant(n, Held(n, RELEASE, key, holder, Nothing))
         == Some(Writes(Write(key, Text(Ascii("free")), Equals(Text(holder)), Some(1_000_000))))
  {
    hide ReadCommand, PlainName, Ascii, PutText, ReadPut, Heading, K, H, T, V;
    Letters();
    LockSays();
    ExtendSays();
    ReleaseSays();
    Colons();
    PutReads(K, Parameter(H), IfNone, During(T));
    PutReads(K, Parameter(H), IfSame(H), During(T));
    PutReads(K, Quoted(Ascii("free")), IfSame(H), Lasts(1_000_000));
    CommandReads(n, "SET ", Ascii(LOCK), Put(K, Parameter(H), IfNone, During(T)));
    CommandReads(n, "SET ", Ascii(EXTEND), Put(K, Parameter(H), IfSame(H), During(T)));
    CommandReads(n, "SET ", Ascii(RELEASE), Put(K, Quoted(Ascii("free")), IfSame(H), Lasts(1_000_000)));
  }

  /** A loader's read asks for the key, and its write is only made where nothing is. */
  lemma LoadingIsMeant(n: Names, key: Str, value: Value, ttl: Value)
    requires ttl.Duration? && ttl.seconds >= 0
    ensures Meant(n, Fetched(n, key)) == Some(Reads(key))
    ensures Meant(n, StoredIfAbsent(n, key, value, ttl))
         == Some(Writes(Write(key, value, Absent, Some(ttl.seconds * 1_000_000_000 + ttl.nanos))))
  {
    hide ReadCommand, PlainName, Ascii, PutText, ReadPut, ReadFetch, Heading, K, H, T, V;
    Letters();
    GetSays();
    SetSays();
    Colons();
    FetchReads(K);
    PutReads(K, Parameter(V), IfNone, During(T));
    CommandReads(n, "GET ", Ascii(GET), Fetch(K));
    CommandReads(n, "SET ", Ascii(SET_IF_ABSENT), Put(K, Parameter(V), IfNone, During(T)));
  }
}
