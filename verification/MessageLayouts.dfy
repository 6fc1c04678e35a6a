/** Frames and message bodies byte by byte, in literals: what frame.go, conn.go and vault_frame.go must send. */
module MessageLayouts {
  import opened Words
  import opened Values
  import opened Encoding
  import opened Layouts
  import opened Connections
  import opened Decoding
  import opened AnswerLayouts
  import Outcomes
  import F = Frames

  // ---------- bodies ----------

  /** Texts one after another, each with its length. */
  ghost predicate LaidTexts(s: Str, texts: seq<Str>) {
    Each(s, texts, Sized)
  }

  ghost predicate LaidCredentials(s: Str, c: Option<Credentials>) {
    match c
    case Nothing => s == [0x00]
    case Some(who) => |s| >= 1 && s[0] == 0x01 && LaidTexts(s[1..], [who.user, who.password])
  }

  ghost predicate LaidPlace(s: Str, p: Option<Place>) {
    match p
    case Nothing => s == [0x00]
    case Some(at) => |s| >= 1 && s[0] == 0x01 && LaidTexts(s[1..], [at.namespace, at.database, at.vault])
  }

  ghost predicate LaidAct(s: Str, a: Act) {
    && |s| >= 1
    && match a
       case Status => s == [0x01]
       case Unseal(passphrase) => s[0] == 0x02 && LaidTexts(s[1..], [passphrase])
       case Seal => s == [0x03]
       case Change(current, next) => s[0] == 0x04 && LaidTexts(s[1..], [current, next])
       case Declare(passphrase) => s[0] == 0x05 && LaidTexts(s[1..], [passphrase])
  }

  /** A parameter's name and then its encoding, both with their lengths. */
  ghost predicate LaidParameter(s: Str, name: Str, v: Value) {
    exists encoding: Str :: Laid(encoding, v) && LaidTexts(s, [name, encoding])
  }

  ghost predicate LaidParameters(s: Str, names: seq<Str>, ps: map<Str, Value>)
    requires forall n :: n in names ==> n in ps
    decreases |names|
  {
    if names == [] then s == []
    else
      exists k :: 0 <= k <= |s| && LaidParameter(s[..k], names[0], ps[names[0]])
                  && LaidParameters(s[k..], names[1..], ps)
  }

  /** How many there are, and then each, in ascending order of their names. */
  ghost predicate LaidMap(s: Str, ps: map<Str, Value>) {
    && |s| >= 4 && Count(s[..4], |ps|)
    && exists names :: Ascending(names) && (forall n :: n in names <==> n in ps) && LaidParameters(s[4..], names, ps)
  }

  /** The script, who asks, and the parameters. */
  ghost predicate LaidRequest(s: Str, script: Str, c: Option<Credentials>, ps: map<Str, Value>) {
    exists i, j :: 0 <= i <= j <= |s| && Sized(s[..i], script) && LaidCredentials(s[i..j], c) && LaidMap(s[j..], ps)
  }

  /** Who asks, the place, and the act. */
  ghost predicate LaidVault(s: Str, c: Option<Credentials>, place: Option<Place>, act: Act) {
    exists i, j :: 0 <= i <= j <= |s| && LaidCredentials(s[..i], c) && LaidPlace(s[i..j], place) && LaidAct(s[j..], act)
  }

  /**
   The sequence, whether a table follows, and then texts: the table; the cursor, when there is one or a condition
   needs its place; and the condition with its parameters as one object.
   */
  ghost predicate LaidSubscribe(s: Str, from: UInt64, table: Str, cursor: Str, n: Option<Narrowing>) {
    && |s| >= 9 && FromBigEndian(s[..8]) == from && s[8] == (if table == [] then 0x00 else 0x01)
    && var named := (if table == [] then [] else [table]) + if cursor != [] || n.Some? then [cursor] else [];
       if n.Nothing? then LaidTexts(s[9..], named)
       else LaidCondition(s[9..], named, n.value.condition, Object(n.value.parameters))
  }

  ghost predicate LaidCondition(s: Str, before: seq<Str>, condition: Str, bound: Value) {
    exists encoding: Str :: Laid(encoding, bound) && LaidTexts(s, before + [condition, encoding])
  }

  ghost predicate LaidMessage(s: Str, m: Message) {
    match m
    case Request(script, c, ps) => LaidRequest(s, script, c, ps)
    case Vault(c, place, act) => LaidVault(s, c, place, act)
    case Subscribe(from, table, cursor, n) => LaidSubscribe(s, from, table, cursor, n)
  }

  // ---------- the bodies that are sent ----------

  lemma TextsAre(s: Str, texts: seq<Str>)
    ensures LaidTexts(s, texts) <==> s == Many(texts, Lengthed)
  {
    hide Sized, Lengthed, Each, Many;
    forall t: Str, x: Str ensures Sized(t, x) <==> t == Lengthed(x) { SizedIs(t, x); }
    EachIs(s, texts, Sized, Lengthed);
  }

  lemma ManyTexts(a: Str, b: Str, c: Str)
    ensures Many([a], Lengthed) == Lengthed(a)
    ensures Many([a, b], Lengthed) == Lengthed(a) + Lengthed(b)
    ensures Many([a, b, c], Lengthed) == Lengthed(a) + Lengthed(b) + Lengthed(c)
  {
    hide Lengthed;
    assert [a][1..] == [] && [b][1..] == [] && [c][1..] == [] && [a, b][1..] == [b] && [b, c][1..] == [c];
    assert [a, b, c][1..] == [b, c];
    assert Many([c], Lengthed) == Lengthed(c) + Many([], Lengthed);
    assert Many([b], Lengthed) == Lengthed(b) + Many([], Lengthed);
    assert Many([b, c], Lengthed) == Lengthed(b) + Many([c], Lengthed);
    Assoc(Lengthed(a), Lengthed(b), Lengthed(c));
  }

  lemma CredentialsAre(s: Str, c: Option<Credentials>)
    ensures LaidCredentials(s, c) <==> s == CredentialsBytes(c)
  {
    hide LaidTexts, Lengthed;
    if c.Some? {
      var user, password := c.value.user, c.value.password;
      ManyTexts(user, password, []);
      Assoc([0x01], Lengthed(user), Lengthed(password));
      Tagged(s, 0x01, Lengthed(user) + Lengthed(password));
      if |s| >= 1 { TextsAre(s[1..], [user, password]); }
    }
  }

  lemma PlaceIs(s: Str, p: Option<Place>)
    ensures LaidPlace(s, p) <==> s == PlaceBytes(p)
  {
    hide LaidTexts, Lengthed;
    if p.Some? {
      var at := p.value;
      var a, b, c := Lengthed(at.namespace), Lengthed(at.database), Lengthed(at.vault);
      ManyTexts(at.namespace, at.database, at.vault);
      assert [0x01] + a + b + c == [0x01] + (a + b + c);
      Tagged(s, 0x01, a + b + c);
      if |s| >= 1 { TextsAre(s[1..], [at.namespace, at.database, at.vault]); }
    }
  }

  lemma ActIs(s: Str, a: Act)
    ensures LaidAct(s, a) <==> s == ActBytes(a)
  {
    hide LaidTexts, Lengthed;
    match a
    case Status =>
    case Seal =>
    case Unseal(p) => OneText(s, 0x02, p);
    case Declare(p) => OneText(s, 0x05, p);
    case Change(current, next) =>
      ManyTexts(current, next, []);
      Assoc([0x04], Lengthed(current), Lengthed(next));
      Tagged(s, 0x04, Lengthed(current) + Lengthed(next));
      if |s| >= 1 { TextsAre(s[1..], [current, next]); }
  }

  lemma OneText(s: Str, tag: Byte, t: Str)
    ensures |s| >= 1 && s[0] == tag && LaidTexts(s[1..], [t]) <==> s == [tag] + Lengthed(t)
  {
    hide LaidTexts, Lengthed;
    ManyTexts(t, [], []);
    Tagged(s, tag, Lengthed(t));
    if |s| >= 1 { TextsAre(s[1..], [t]); }
  }

  lemma ParameterIs(s: Str, name: Str, v: Value)
    requires Accepted(v)
    ensures LaidParameter(s, name, v) <==> s == Lengthed(name) + Lengthed(ValueBytes(v))
  {
    hide LaidTexts, Laid, ValueBytes, Lengthed, Accepted;
    forall encoding: Str ensures Laid(encoding, v) <==> encoding == ValueBytes(v) { ValueIs(encoding, v); }
    ManyTexts(name, ValueBytes(v), []);
    TextsAre(s, [name, ValueBytes(v)]);
  }

  lemma {:induction false} ParametersAre(s: Str, names: seq<Str>, ps: map<Str, Value>)
    requires AllAccepted(ps) && forall n :: n in names ==> n in ps
    ensures LaidParameters(s, names, ps) <==> s == ParametersBytes(names, ps)
    decreases |names|
  {
    hide LaidParameter, ValueBytes, Lengthed, Accepted;
    if names != [] {
      var value, tail := ps[names[0]], ParametersBytes(names[1..], ps);
      var head := Lengthed(names[0]) + Lengthed(ValueBytes(value));
      if s == head + tail {
        assert s[..|head|] == head && s[|head|..] == tail;
        ParameterIs(s[..|head|], names[0], value);
        ParametersAre(s[|head|..], names[1..], ps);
      }
      if k :| 0 <= k <= |s| && LaidParameter(s[..k], names[0], value) && LaidParameters(s[k..], names[1..], ps) {
        ParameterIs(s[..k], names[0], value);
        ParametersAre(s[k..], names[1..], ps);
        assert s == s[..k] + s[k..];
      }
    }
  }

  lemma MapIs(s: Str, ps: map<Str, Value>)
    requires AllAccepted(ps)
    ensures LaidMap(s, ps) <==> s == U32(|ps|) + ParametersBytes(Sorted(ps.Keys), ps)
  {
    hide Count, U32, LaidParameters, ParametersBytes, Ascending, Sorted, AllAccepted;
    var sorted := Sorted(ps.Keys);
    AfterCount(s, |ps|, ParametersBytes(sorted, ps));
    if |s| >= 4 {
      ParametersAre(s[4..], sorted, ps);
      assert forall n :: n in sorted <==> n in ps;
      forall names | Ascending(names) && (forall n :: n in names <==> n in ps) ensures names == sorted {
        SortedIsUnique(names, ps.Keys);
      }
    }
  }

  lemma RequestIs(s: Str, script: Str, c: Option<Credentials>, ps: map<Str, Value>)
    requires AllAccepted(ps)
    ensures LaidRequest(s, script, c, ps) <==> s == MessageBytes(Request(script, c, ps))
  {
    hide Sized, LaidCredentials, LaidMap, Lengthed, CredentialsBytes, U32, ParametersBytes, Sorted, AllAccepted;
    var a, b := Lengthed(script), CredentialsBytes(c);
    var tail := U32(|ps|) + ParametersBytes(Sorted(ps.Keys), ps);
    Assoc(a + b, U32(|ps|), ParametersBytes(Sorted(ps.Keys), ps));
    if s == a + b + tail {
      var i, j := |a|, |a| + |b|;
      assert s[..i] == a && s[i..j] == b && s[j..] == tail;
      SizedIs(s[..i], script);
      CredentialsAre(s[i..j], c);
      MapIs(s[j..], ps);
    }
    if i, j :| 0 <= i <= j <= |s| && Sized(s[..i], script) && LaidCredentials(s[i..j], c) && LaidMap(s[j..], ps) {
      SizedIs(s[..i], script);
      CredentialsAre(s[i..j], c);
      MapIs(s[j..], ps);
      assert s == s[..i] + s[i..j] + s[j..];
    }
  }

  lemma VaultIs(s: Str, c: Option<Credentials>, place: Option<Place>, act: Act)
    ensures LaidVault(s, c, place, act) <==> s == MessageBytes(Vault(c, place, act))
  {
    hide LaidCredentials, LaidPlace, LaidAct, CredentialsBytes, PlaceBytes, ActBytes;
    var a, b, tail := CredentialsBytes(c), PlaceBytes(place), ActBytes(act);
    if s == a + b + tail {
      var i, j := |a|, |a| + |b|;
      assert s[..i] == a && s[i..j] == b && s[j..] == tail;
      CredentialsAre(s[..i], c);
      PlaceIs(s[i..j], place);
      ActIs(s[j..], act);
    }
    if i, j :| 0 <= i <= j <= |s| && LaidCredentials(s[..i], c) && LaidPlace(s[i..j], place) && LaidAct(s[j..], act) {
      CredentialsAre(s[..i], c);
      PlaceIs(s[i..j], place);
      ActIs(s[j..], act);
      assert s == s[..i] + s[i..j] + s[j..];
    }
  }

  lemma {:induction false} ManyJoins(xs: seq<Str>, ys: seq<Str>)
    ensures Many(xs + ys, Lengthed) == Many(xs, Lengthed) + Many(ys, Lengthed)
    decreases |xs|
  {
    hide Lengthed;
    if xs == [] {
      assert xs + ys == ys;
    } else {
      assert (xs + ys)[1..] == xs[1..] + ys;
      ManyJoins(xs[1..], ys);
      Assoc(Lengthed(xs[0]), Many(xs[1..], Lengthed), Many(ys, Lengthed));
    }
  }

  function NamedTexts(table: Str, cursor: Str, n: Option<Narrowing>): seq<Str> {
    (if table == [] then [] else [table]) + if cursor != [] || n.Some? then [cursor] else []
  }

  ghost function AllTexts(table: Str, cursor: Str, n: Option<Narrowing>): seq<Str> {
    NamedTexts(table, cursor, n)
    + if n.Nothing? then [] else [n.value.condition, ValueBytes(Object(n.value.parameters))]
  }

  lemma SubscribeTexts(from: UInt64, table: Str, cursor: Str, n: Option<Narrowing>)
    ensures MessageBytes(Subscribe(from, table, cursor, n))
         == U64(from) + ([if table == [] then 0x00 else 0x01] + Many(AllTexts(table, cursor, n), Lengthed))
  {
    hide Lengthed, U64, ValueBytes;
    var tables := if table == [] then [] else [table];
    var cursors := if cursor != [] || n.Some? then [cursor] else [];
    ManyTexts(table, [], []);
    ManyTexts(cursor, [], []);
    ManyJoins(tables, cursors);
    if n.Some? {
      var condition, encoding := n.value.condition, ValueBytes(Object(n.value.parameters));
      ManyTexts(condition, encoding, []);
      ManyJoins(tables + cursors, [condition, encoding]);
    }
    var flag: Str := [if table == [] then 0x00 else 0x01];
    var a := Many(tables, Lengthed);
    var b := Many(cursors, Lengthed);
    var c := if n.Some? then Lengthed(n.value.condition) + Lengthed(ValueBytes(Object(n.value.parameters))) else [];
    SubscribeParts(from, table, cursor, n, flag, a, b, c);
  }

  lemma SubscribeParts(
    from: UInt64, table: Str, cursor: Str, n: Option<Narrowing>, flag: Str, a: Str, b: Str, c: Str)
    requires flag == [if table == [] then 0x00 else 0x01]
    requires a == (if table == [] then [] else Lengthed(table))
    requires b == (if cursor != [] || n.Some? then Lengthed(cursor) else [])
    requires c == if n.Some? then Lengthed(n.value.condition) + Lengthed(ValueBytes(Object(n.value.parameters))) else []
    ensures MessageBytes(Subscribe(from, table, cursor, n)) == U64(from) + (flag + (a + b + c))
    ensures n.Nothing? ==> MessageBytes(Subscribe(from, table, cursor, n)) == U64(from) + (flag + (a + b))
  {
    hide Lengthed, U64, ValueBytes;
    var u := U64(from);
    assert flag + a == if table == [] then [0x00] else [0x01] + Lengthed(table);
    assert u + (flag + a) + b + c == u + (flag + (a + b + c));
    assert a + b + [] == a + b;
  }

  lemma SubscribeIs(s: Str, from: UInt64, table: Str, cursor: Str, n: Option<Narrowing>)
    requires n.Some? ==> AllAccepted(n.value.parameters)
    ensures LaidSubscribe(s, from, table, cursor, n) <==> s == MessageBytes(Subscribe(from, table, cursor, n))
  {
    hide LaidTexts, LaidCondition, ValueBytes, MessageBytes, U64, Lengthed, Many, FromBigEndian, AllAccepted;
    var named := NamedTexts(table, cursor, n);
    var flag: Byte := if table == [] then 0x00 else 0x01;
    SubscribeTexts(from, table, cursor, n);
    var texts := AllTexts(table, cursor, n);
    assert n.Nothing? ==> texts == named;
    var tail := [flag] + Many(texts, Lengthed);
    if |s| >= 9 {
      PlainIs(s[..8], from);
      Tagged(s[8..], flag, Many(texts, Lengthed));
      assert s[8..][1..] == s[9..] && s[8..][0] == s[8] && s == s[..8] + s[8..];
      TextsAre(s[9..], texts);
    }
    assert (U64(from) + tail)[..8] == U64(from) && (U64(from) + tail)[8..] == tail;
    if n.Some? {
      ObjectIsAccepted(n.value.parameters);
      if |s| >= 9 { ConditionIs(s[9..], named, n.value.condition, Object(n.value.parameters)); }
    }
  }

  lemma ObjectIsAccepted(ps: map<Str, Value>)
    requires AllAccepted(ps)
    ensures Accepted(Object(ps))
  {}

  lemma ConditionIs(s: Str, before: seq<Str>, condition: Str, bound: Value)
    requires Accepted(bound)
    ensures LaidCondition(s, before, condition, bound)
       <==> LaidTexts(s, before + [condition, ValueBytes(bound)])
  {
    hide LaidTexts, Laid, ValueBytes, Accepted;
    forall encoding: Str ensures Laid(encoding, bound) <==> encoding == ValueBytes(bound) {
      ValueIs(encoding, bound);
    }
  }

  /** The body of a message that can be written is laid out as it, and no other bytes are. */
  lemma MessageIs(s: Str, m: Message)
    requires m.Request? ==> AllAccepted(m.parameters)
    requires m.Subscribe? && m.narrowing.Some? ==> AllAccepted(m.narrowing.value.parameters)
    ensures LaidMessage(s, m) <==> s == MessageBytes(m)
  {
    hide LaidRequest, LaidVault, LaidSubscribe, MessageBytes;
    match m
    case Request(script, c, ps) => RequestIs(s, script, c, ps);
    case Vault(c, place, act) => VaultIs(s, c, place, act);
    case Subscribe(from, table, cursor, n) => SubscribeIs(s, from, table, cursor, n);
  }

  // ---------- frames ----------

  /** A kind, the length of the body in four digits, and the body. */
  ghost predicate LaidFrame(s: Str, kind: Byte, body: Str) {
    |s| >= 5 && s[0] == kind && Sized(s[1..], body)
  }

  /** A frame is its kind and its body with the length before it, and none is larger than sixteen mebibytes. */
  lemma FrameIs(s: Str, f: F.Frame)
    ensures LaidFrame(s, f.kind, f.body) <==> s == F.FrameBytes(f)
    ensures F.Sendable(f, {f.kind}) <==> |f.body| <= 16_777_216
  {
    hide Sized, U32;
    var sized := Lengthed(f.body);
    Assoc([f.kind], U32(|f.body|), f.body);
    Tagged(s, f.kind, sized);
    if |s| >= 1 { SizedIs(s[1..], f.body); }
  }

  /** The first byte says what a body is, and some bodies are for nodes of a certain age alone. */
  lemma KindsAndMinors(m: Message)
    ensures KindOf(m) == if m.Request? then 1 else if m.Vault? then 17 else 4
    ensures NeededMinor(m) == if m.Request? then 0
                              else if m.Vault? then (if m.act.Declare? then 6 else 2)
                              else if m.narrowing.Some? then 4 else 0
  {}

  /** A peer is understood by six bytes: TESS, major 1, and any minor. */
  lemma GreetingIs(bs: Str, minor: Byte)
    ensures F.ReadGreeting(bs) == F.Peer(minor) <==> |bs| >= 6 && bs[..6] == [0x54, 0x45, 0x53, 0x53, 1, minor]
  {
    if |bs| >= 6 {
      assert bs[..6] == bs[..4] + [bs[4], bs[5]];
      assert [0x54, 0x45, 0x53, 0x53, 1, minor][..4] == [0x54, 0x45, 0x53, 0x53];
    }
  }

  // ---------- what a node sends back ----------

  /** The node, the epoch, one for a settled redirect and two for one that is not, and where to go. */
  ghost predicate ShowsRedirect(s: Str, r: Redirect) {
    && |s| >= 25 && s[..16] == r.node && FromBigEndian(s[16..24]) == r.epoch && s[24] == (if r.settled then 1 else 2)
    && exists k :: 25 <= k <= |s| && LaidText(s[25..k], r.endpoint)
  }

  /** A redirect is read exactly as what its bytes say. */
  lemma RedirectIs(s: Str, r: Redirect)
    ensures ReadElsewhere(s) == Some(r) <==> ShowsRedirect(s, r)
  {
    hide ReadText, LaidText, FromBigEndian;
    TextFound();
    if |s| >= 25 {
      assert s[16..][..8] == s[16..24] && s[16..][8..] == s[24..] && s[24..][1..] == s[25..];
      var p := ReadText(s[25..]);
      if p.Parsed? {
        var k := |s| - |p.rest|;
        assert s[25..k] == Taken(s[25..], p.rest);
      }
      if k :| 25 <= k <= |s| && LaidText(s[25..k], r.endpoint) {
        Found(ReadText, LaidText, s[25..], s[25..k], s[k..], r.endpoint);
      }
    }
  }

  /** What a frame is to a caller, by its kind. */
  lemma KindsAreUnderstood(f: F.Frame)
    ensures Understood(f).Answered? <==> f.kind == 2 && Outcomes.ReadAnswer(f.body).Some?
    ensures Understood(f).Answered? ==> Some(Understood(f).outcomes) == Outcomes.ReadAnswer(f.body)
    ensures Understood(f).Elsewhere? <==> f.kind == 13 && exists r :: ShowsRedirect(f.body, r)
    ensures Understood(f).Elsewhere? ==> ShowsRedirect(f.body, Understood(f).redirect)
    ensures Understood(f).Erred? && Understood(f).error.Refused? <==> f.kind == 3
    ensures f.kind == 3 ==> Understood(f) == Erred(Refused(f.body))
  {
    hide Outcomes.ReadAnswer, ReadElsewhere, ShowsRedirect;
    forall r ensures ReadElsewhere(f.body) == Some(r) <==> ShowsRedirect(f.body, r) { RedirectIs(f.body, r); }
  }
}
