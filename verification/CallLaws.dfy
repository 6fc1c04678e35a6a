/**
 A caller's calls (conn.go, follow.go, narrowed.go, vault_frame.go) told by nothing but the history they leave: what
 was sent where and why, what each reply leads to, and what the caller is told.
 */
module CallLaws {
  import opened Words
  import opened Values
  import opened Texts
  import opened Outcomes
  import opened Connections
  import opened MessageLaws
  import F = Frames

  /** A connection as a call meets it: whether it may speak, and the credentials it would present. */
  datatype Voice = Voice(id: nat, subscribed: bool, unspent: Option<Credentials>)

  function VoiceOf(c: Conn): Voice {
    Voice(c.id, c.subscribed, if c.spent then Nothing else c.credentials)
  }

  /** A request as its caller gave it. */
  datatype Errand = Errand(script: Str, parameters: map<Str, Value>)

  /** The namespace and the database of a session, where it has them. */
  datatype Tenancy = Tenancy(namespace: Option<Str>, database: Option<Str>)

  // ---------- one request ----------

  /** Why a request is not sent at all. */
  ghost predicate Unsent(voice: Voice, errand: Errand, e: Error) {
    if voice.subscribed then e == IsSubscribed
    else if exists k :: k in errand.parameters && !Accepted(errand.parameters[k]) then e == Unwritable
    else
      e == TooLarge && |MessageBytes(Request(errand.script, voice.unspent, errand.parameters))| > 16_777_216
  }

  predicate SentAt(e: Event, voice: Voice, errand: Errand, purpose: Purpose, delivered: bool) {
    e == Sent(voice.id, Request(errand.script, voice.unspent, errand.parameters), purpose, delivered)
  }

  predicate ReplyAt(e: Event, id: nat, reply: Asked) {
    e.Received? && e.id == id && reply == if e.arrival.Whole? then Understood(e.arrival.frame) else Erred(Transport)
  }

  /** From k to end, one request and its reply, as far as they came. */
  ghost predicate Asks(
    h: History, k: nat, voice: Voice, errand: Errand, purpose: Purpose, reply: Asked, end: nat)
  {
    if end == k then k <= |h| && reply.Erred? && Unsent(voice, errand, reply.error)
    else
      && !voice.subscribed && (forall name :: name in errand.parameters ==> Accepted(errand.parameters[name]))
      && end <= |h|
      && ((end == k + 1 && SentAt(h[k], voice, errand, purpose, false) && reply == Erred(Transport))
          || (end == k + 2 && SentAt(h[k], voice, errand, purpose, true) && ReplyAt(h[k + 1], voice.id, reply)))
  }

  lemma AskGoes(
    net: Network, c: Conn, h: History, errand: Errand, purpose: Purpose, whole: History)
    requires Ask(net, c, h, errand.script, errand.parameters, purpose).2 <= whole
    ensures var (asked, c', h') := Ask(net, c, h, errand.script, errand.parameters, purpose);
            && h <= h' && Asks(whole, |h|, VoiceOf(c), errand, purpose, asked, |h'|)
            && VoiceOf(c') == if c.subscribed then VoiceOf(c) else Voice(c.id, false, Nothing)
  {
    hide MessageBytes, Understood, Accepted;
    var (asked, _, h') := Ask(net, c, h, errand.script, errand.parameters, purpose);
    assert forall i :: 0 <= i < |h'| ==> whole[i] == h'[i];
    if !c.subscribed && AllAccepted(errand.parameters) && h' == h {
      assert |MessageBytes(Request(errand.script, Unspent(c), errand.parameters))| > 16_777_216;
    }
  }

  // ---------- the context question ----------

  /** The last outcome is one value, and that an object of these fields. */
  predicate Gives(reply: Asked, context: map<Str, Value>) {
    && reply.Answered? && reply.outcomes != []
    && var last := reply.outcomes[|reply.outcomes| - 1];
       last.ValueOutcome? && last.value == Object(context)
  }

  ghost predicate Tells(reply: Asked) {
    exists context :: Gives(reply, context)
  }

  /** A context question that told nothing, and what the caller is told instead. */
  ghost predicate NotTold(reply: Asked, told: Asked) {
    !Tells(reply) && told == Erred(if reply.Erred? then reply.error else Protocol)
  }

  predicate NamesNode(context: map<Str, Value>, node: Sixteen) {
    Ascii("node") in context && context[Ascii("node")] == Uuid(node)
  }

  ghost predicate AsksContext(h: History, k: nat, voice: Voice, reply: Asked, end: nat) {
    Asks(h, k, voice, Errand(Ascii("RETURN session::context();"), map[]), Checking, reply, end)
  }

  // ---------- a node that a redirect named ----------

  /** The connection that the redirect dialled at id, once its first frame has carried the credentials. */
  function Settled(id: nat): Voice {
    Voice(id, false, Nothing)
  }

  /** By this script, which the node answered so up to k2, the tenancy is selected; and then the request is sent. */
  ghost predicate SelectsBy(
    h: History, k: nat, id: nat, tenancy: Tenancy, errand: Errand, use: Str, selected: Asked, k2: nat, reply: Asked,
    end: nat)
  {
    && ReadSelection(use) == Some((tenancy.namespace, tenancy.database))
    && Asks(h, k, Settled(id), Errand(use, map[]), Selecting, selected, k2)
    && if selected.Erred? then reply == selected && end == k2
       else Asks(h, k2, Settled(id), errand, Asking, reply, end)
  }

  ghost predicate SelectsAndAsks(
    h: History, k: nat, id: nat, tenancy: Tenancy, errand: Errand, reply: Asked, end: nat)
  {
    exists use: Str, selected: Asked, k2: nat ::
      SelectsBy(h, k, id, tenancy, errand, use, selected, k2, reply, end)
  }

  /** What follows the context question there: nothing unless it is the node, and no request before the tenancy. */
  ghost predicate Proceeds(
    h: History, k: nat, id: nat, node: Sixteen, tenancy: Tenancy, errand: Errand, context: map<Str, Value>,
    reply: Asked, end: nat)
  {
    if !NamesNode(context, node) then reply == Erred(WrongNode) && end == k
    else if tenancy == Tenancy(Nothing, Nothing) then Asks(h, k, Settled(id), errand, Asking, reply, end)
    else SelectsAndAsks(h, k, id, tenancy, errand, reply, end)
  }

  /** All that is said there, the credentials first. */
  ghost predicate Visits(
    h: History, k: nat, id: nat, who: Option<Credentials>, node: Sixteen, tenancy: Tenancy, errand: Errand,
    reply: Asked, end: nat)
  {
    exists first: Asked, k1: nat ::
      && AsksContext(h, k, Voice(id, false, who), first, k1)
      && if Tells(first)
         then exists context :: Gives(first, context) && Proceeds(h, k1, id, node, tenancy, errand, context, reply, end)
         else NotTold(first, reply) && end == k1
  }

  /** A script that selects this tenancy, or none for no tenancy. */
  predicate Selects(selecting: Str, tenancy: Tenancy) {
    if tenancy == Tenancy(Nothing, Nothing) then selecting == []
    else selecting != [] && ReadSelection(selecting) == Some((tenancy.namespace, tenancy.database))
  }

  lemma ContextTells(asked: Asked)
    ensures ContextOf(asked).Some? <==> Tells(asked)
    ensures ContextOf(asked).Some? ==> Gives(asked, ContextOf(asked).value)
  {
    if ContextOf(asked).Some? { assert Gives(asked, ContextOf(asked).value); }
  }

  lemma ArriveGoes(
    net: Network, there: Conn, h: History, node: Sixteen, selecting: Str, tenancy: Tenancy, errand: Errand,
    whole: History)
    requires !there.subscribed && !there.spent && Selects(selecting, tenancy)
    requires Arrive(net, there, h, node, selecting, errand.script, errand.parameters).2 <= whole
    ensures var (asked, c, h') := Arrive(net, there, h, node, selecting, errand.script, errand.parameters);
            && h <= h' && c.id == there.id
            && Visits(whole, |h|, there.id, there.credentials, node, tenancy, errand, asked, |h'|)
  {
    hide Ask, Asks, Gives, ContextOf, ReadSelection, Ascii;
    var question := Errand(CONTEXT_SCRIPT, map[]);
    var (first, c1, h1) := Ask(net, there, h, CONTEXT_SCRIPT, map[], Checking);
    ContextTells(first);
    AskGoes(net, there, h, question, Checking, h1);
    if ContextOf(first).Some? && IsNode(ContextOf(first).value, node) {
      ProceedGoes(net, c1, h1, node, ContextOf(first).value, selecting, tenancy, errand, whole);
    }
    AskGoes(net, there, h, question, Checking, whole);
    assert AsksContext(whole, |h|, Voice(there.id, false, there.credentials), first, |h1|);
  }

  lemma ProceedGoes(
    net: Network, c1: Conn, h1: History, node: Sixteen, context: map<Str, Value>, selecting: Str, tenancy: Tenancy,
    errand: Errand, whole: History)
    requires VoiceOf(c1) == Settled(c1.id) && Selects(selecting, tenancy) && IsNode(context, node)
    requires SelectAndAsk(net, c1, h1, selecting, errand).2 <= whole
    ensures var (asked, c, h') := SelectAndAsk(net, c1, h1, selecting, errand);
            && h1 <= h' && c.id == c1.id
            && Proceeds(whole, |h1|, c1.id, node, tenancy, errand, context, asked, |h'|)
  {
    hide Ask, Asks, ReadSelection, Ascii;
    if selecting == [] {
      AskGoes(net, c1, h1, errand, Asking, whole);
    } else {
      var (selected, c2, h2) := Ask(net, c1, h1, selecting, map[], Selecting);
      AskGoes(net, c1, h1, Errand(selecting, map[]), Selecting, h2);
      if !selected.Erred? { AskGoes(net, c2, h2, errand, Asking, whole); }
      AskGoes(net, c1, h1, Errand(selecting, map[]), Selecting, whole);
      var (asked, _, h') := SelectAndAsk(net, c1, h1, selecting, errand);
      assert SelectsBy(whole, |h1|, c1.id, tenancy, errand, selecting, selected, |h2|, asked, |h'|);
    }
  }

  /** The last steps of an arrival. */
  ghost function SelectAndAsk(net: Network, c1: Conn, h1: History, selecting: Str, errand: Errand)
    : (Asked, Conn, History)
  {
    if selecting == [] then Ask(net, c1, h1, errand.script, errand.parameters, Asking)
    else
      var (selected, c2, h2) := Ask(net, c1, h1, selecting, map[], Selecting);
      if selected.Erred? then (selected, c2, h2) else Ask(net, c2, h2, errand.script, errand.parameters, Asking)
  }

  // ---------- hop by hop ----------

  /** A node is dialled because of this redirect, and greets as a node does; or is not there, or is closed again. */
  predicate DialledFor(h: History, k: nat, redirect: Redirect) {
    k < |h| && h[k].Dialled? && h[k].id == k && h[k].cause == Some(redirect)
  }

  predicate NobodyThere(h: History, k: nat, redirect: Redirect, end: nat) {
    && DialledFor(h, k, redirect)
    && if h[k].reached then end == k + 2 <= |h| && h[k + 1] == Closed(k) else end == k + 1
  }

  predicate Met(h: History, k: nat, redirect: Redirect) {
    k + 2 <= |h| && DialledFor(h, k, redirect) && h[k].reached && h[k + 1].Greeted? && h[k + 1].id == k
  }

  /** Whose request is being followed: the connection it was sent on, its credentials, its tenancy and the request. */
  datatype Trip = Trip(home: nat, who: Option<Credentials>, tenancy: Tenancy, errand: Errand)

  /** Whom a hop has met and what it was told there, up to the closing of one of the two connections. */
  ghost predicate Hopped(h: History, k: nat, trip: Trip, redirect: Redirect, there: Asked, k1: nat) {
    && Met(h, k, redirect) && k1 < |h|
    && Visits(h, k + 2, k, trip.who, redirect.node, trip.tenancy, trip.errand, there, k1)
  }

  /**
   Following from here with so many hops left: each to the node that the newest redirect names, none under an older
   epoch than the last. A settled answer closes the old connection and keeps the new one; whatever else comes closes
   the new one, and another redirect is followed in turn.
   */
  ghost predicate Hops(
    h: History, k: nat, trip: Trip, redirect: Redirect, floor: UInt64, left: nat, reply: Asked, kept: nat, end: nat)
    decreases left
  {
    if left == 0 then reply == Erred(Loop) && kept == trip.home && end == k
    else if redirect.epoch < floor then reply == Erred(Stale) && kept == trip.home && end == k
    else if !Met(h, k, redirect) then
      reply == Erred(NotDialled) && kept == trip.home && NobodyThere(h, k, redirect, end)
    else
      exists there: Asked, k1: nat ::
        && Hopped(h, k, trip, redirect, there, k1)
        && if there.Elsewhere? then
             && h[k1] == Closed(k)
             && Hops(h, k1 + 1, trip, there.redirect, redirect.epoch, left - 1, reply, kept, end)
           else
             && reply == there && end == k1 + 1
             && if there.Answered? && redirect.settled then h[k1] == Closed(trip.home) && kept == k
                else h[k1] == Closed(k) && kept == trip.home
  }

  lemma DialGoes(net: Network, who: Option<Credentials>, redirect: Redirect, h: History, whole: History)
    requires Dial(net, who, Some(redirect), h).1 <= whole
    ensures var (c, h1) := Dial(net, who, Some(redirect), h);
            && h <= h1
            && (c.Some? ==>
                  && Met(whole, |h|, redirect) && |h1| == |h| + 2
                  && c.value.id == |h| && c.value.credentials == who && !c.value.subscribed && !c.value.spent)
            && (c.Nothing? ==> !Met(whole, |h|, redirect) && NobodyThere(whole, |h|, redirect, |h1|))
  {
    var (c, h1) := Dial(net, who, Some(redirect), h);
    assert forall i :: 0 <= i < |h1| ==> whole[i] == h1[i];
  }

  lemma HopOn(
    h: History, k: nat, trip: Trip, redirect: Redirect, floor: UInt64, left: nat, there: Asked, k1: nat, reply: Asked,
    kept: nat, end: nat)
    requires left > 0 && redirect.epoch >= floor && Hopped(h, k, trip, redirect, there, k1)
    requires there.Elsewhere? && h[k1] == Closed(k)
    requires Hops(h, k1 + 1, trip, there.redirect, redirect.epoch, left - 1, reply, kept, end)
    ensures Hops(h, k, trip, redirect, floor, left, reply, kept, end)
  {
    hide Visits, Met;
  }

  lemma HopEnds(
    h: History, k: nat, trip: Trip, redirect: Redirect, floor: UInt64, left: nat, there: Asked, k1: nat, kept: nat)
    requires left > 0 && redirect.epoch >= floor && Hopped(h, k, trip, redirect, there, k1)
    requires !there.Elsewhere?
    requires if there.Answered? && redirect.settled then h[k1] == Closed(trip.home) && kept == k
             else h[k1] == Closed(k) && kept == trip.home
    ensures Hops(h, k, trip, redirect, floor, left, there, kept, k1 + 1)
  {
    hide Visits, Met;
  }

  lemma NoHop(
    h: History, k: nat, trip: Trip, redirect: Redirect, floor: UInt64, left: nat, reply: Asked, end: nat)
    requires if left == 0 then reply == Erred(Loop) && end == k
             else if redirect.epoch < floor then reply == Erred(Stale) && end == k
             else !Met(h, k, redirect) && reply == Erred(NotDialled) && NobodyThere(h, k, redirect, end)
    ensures Hops(h, k, trip, redirect, floor, left, reply, trip.home, end)
  {
    hide Visits, Met;
  }

  lemma HopGoes(net: Network, h: History, selecting: Str, trip: Trip, redirect: Redirect, whole: History)
    requires Selects(selecting, trip.tenancy) && Dial(net, trip.who, Some(redirect), h).0.Some?
    requires var (there, h1) := Dial(net, trip.who, Some(redirect), h);
             var (_, _, h2) :=
               Arrive(net, there.value, h1, redirect.node, selecting, trip.errand.script, trip.errand.parameters);
             h2 <= whole && |h2| < |whole|
    ensures var (there, h1) := Dial(net, trip.who, Some(redirect), h);
            var (asked, c, h2) :=
              Arrive(net, there.value, h1, redirect.node, selecting, trip.errand.script, trip.errand.parameters);
            h <= h2 && c.id == |h| && Hopped(whole, |h|, trip, redirect, asked, |h2|)
  {
    hide Dial, Arrive, Visits, Met, Selects, NobodyThere;
    var (there, h1) := Dial(net, trip.who, Some(redirect), h);
    DialGoes(net, trip.who, redirect, h, h1);
    ArriveGoes(net, there.value, h1, redirect.node, selecting, trip.tenancy, trip.errand, whole);
    DialGoes(net, trip.who, redirect, h, whole);
  }

  lemma {:induction false} HopsGo(
    net: Network, home: Conn, h: History, selecting: Str, trip: Trip, redirect: Redirect, floor: UInt64, hops: nat,
    whole: History)
    requires hops <= MOST_HOPS && Selects(selecting, trip.tenancy)
    requires trip.home == home.id && trip.who == home.credentials
    requires FollowFrom(net, home, h, selecting, trip.errand.script, trip.errand.parameters, redirect, floor, hops).2
          <= whole
    ensures var (asked, home', h') :=
              FollowFrom(net, home, h, selecting, trip.errand.script, trip.errand.parameters, redirect, floor, hops);
            && h <= h' && |h'| <= |whole|
            && Hops(whole, |h|, trip, redirect, floor, 3 - hops, asked, home'.id, |h'|)
    decreases MOST_HOPS - hops
  {
    hide Dial, Arrive, Hopped, Hops, Selects, Met, NobodyThere;
    var script, ps := trip.errand.script, trip.errand.parameters;
    var (asked', home', h') := FollowFrom(net, home, h, selecting, script, ps, redirect, floor, hops);
    if hops >= MOST_HOPS || redirect.epoch < floor {
      NoHop(whole, |h|, trip, redirect, floor, 3 - hops, asked', |h'|);
    } else {
      var (there, h1) := Dial(net, home.credentials, Some(redirect), h);
      if there.Nothing? {
        DialGoes(net, home.credentials, redirect, h, whole);
        NoHop(whole, |h|, trip, redirect, floor, 3 - hops, asked', |h'|);
      } else {
        var (asked, c, h2) := Arrive(net, there.value, h1, redirect.node, selecting, script, ps);
        if asked.Elsewhere? {
          HopsGo(net, home, h2 + [Closed(c.id)], selecting, trip, asked.redirect, redirect.epoch, hops + 1, whole);
        }
        var h3 := h2 + [Closed(if asked.Answered? && redirect.settled then home.id else c.id)];
        assert h3 <= whole && whole[|h2|] == h3[|h2|];
        HopGoes(net, h, selecting, trip, redirect, whole);
        if asked.Elsewhere? {
          HopOn(whole, |h|, trip, redirect, floor, 3 - hops, asked, |h2|, asked', home'.id, |h'|);
        } else {
          HopEnds(whole, |h|, trip, redirect, floor, 3 - hops, asked, |h2|, home'.id);
        }
      }
    }
  }

  // ---------- a whole statement ----------

  function NameIn(context: map<Str, Value>, key: string): Option<Str> {
    if Ascii(key) in context && context[Ascii(key)].Text? then Some(context[Ascii(key)].text) else Nothing
  }

  function TenancyIn(context: map<Str, Value>): Tenancy {
    Tenancy(NameIn(context, "namespace"), NameIn(context, "database"))
  }

  predicate Plain(t: Tenancy) {
    (t.namespace.Some? ==> PlainName(t.namespace.value)) && (t.database.Some? ==> PlainName(t.database.value))
  }

  /** The home connection told its context: the tenancy in it goes along, if its names can be written. */
  ghost predicate GoesOn(
    h: History, k: nat, c: Conn, errand: Errand, redirect: Redirect, context: map<Str, Value>, reply: Asked, kept: nat,
    end: nat)
  {
    var tenancy := TenancyIn(context);
    if !Plain(tenancy) then reply == Erred(NotFollowable) && kept == c.id && end == k
    else Hops(h, k, Trip(c.id, c.credentials, tenancy, errand), redirect, 0, 3, reply, kept, end)
  }

  ghost predicate Follows(
    h: History, k: nat, c: Conn, voice: Voice, errand: Errand, redirect: Redirect, reply: Asked, kept: nat, end: nat)
  {
    exists told: Asked, k1: nat ::
      && AsksContext(h, k, voice, told, k1)
      && if Tells(told)
         then exists context :: Gives(told, context) && GoesOn(h, k1, c, errand, redirect, context, reply, kept, end)
         else NotTold(told, reply) && kept == c.id && end == k1
  }

  /**
   A statement from k to end: the request; and if that is answered with a redirect, the context question at home
   and at most three hops from the node the redirect names. What it is answered with, and on which connection the
   caller is left, is what these events say and nothing else.
   */
  ghost predicate Executes(h: History, k: nat, c: Conn, errand: Errand, reply: Asked, kept: nat, end: nat) {
    exists first: Asked, k1: nat ::
      && Asks(h, k, VoiceOf(c), errand, Asking, first, k1)
      && if first.Elsewhere? then Follows(h, k1, c, Settled(c.id), errand, first.redirect, reply, kept, end)
         else reply == first && kept == c.id && end == k1
  }

  lemma SelectionSelects(context: map<Str, Value>)
    ensures var tenancy := TenancyIn(context);
            && (Selection(context).Some? <==> Plain(tenancy))
            && (Selection(context).Some? ==> Selects(Selection(context).value, tenancy))
  {
    hide PlainName, ReadSelection;
    SelectionReads(context);
  }

  lemma FollowGoes(
    net: Network, c: Conn, c': Conn, h: History, errand: Errand, first: Redirect, whole: History)
    requires c'.id == c.id && c'.credentials == c.credentials
    requires Follow(net, c', h, errand.script, errand.parameters, first).2 <= whole
    ensures var (asked, c'', h') := Follow(net, c', h, errand.script, errand.parameters, first);
            && h <= h' && |h'| <= |whole|
            && Follows(whole, |h|, c, VoiceOf(c'), errand, first, asked, c''.id, |h'|)
  {
    hide Ask, Asks, Gives, ContextOf, FollowFrom, Hops, Selects, TenancyIn, Plain, Selection, Ascii;
    var question := Errand(CONTEXT_SCRIPT, map[]);
    var (told, c1, h1) := Ask(net, c', h, CONTEXT_SCRIPT, map[], Checking);
    AskGoes(net, c', h, question, Checking, h1);
    AskKeepsWho(net, c', h, question, Checking);
    ContextTells(told);
    if ContextOf(told).Some? {
      var context := ContextOf(told).value;
      SelectionSelects(context);
      if Selection(context).Some? {
        HopsGo(net, c1, h1, Selection(context).value, Trip(c.id, c.credentials, TenancyIn(context), errand), first, 0,
               0, whole);
      }
      var (asked, c'', h') := Follow(net, c', h, errand.script, errand.parameters, first);
      assert GoesOn(whole, |h1|, c, errand, first, context, asked, c''.id, |h'|);
    }
    AskGoes(net, c', h, question, Checking, whole);
    assert AsksContext(whole, |h|, VoiceOf(c'), told, |h1|);
  }

  lemma AskKeepsWho(net: Network, c: Conn, h: History, errand: Errand, purpose: Purpose)
    ensures var (asked, c', _) := Ask(net, c, h, errand.script, errand.parameters, purpose);
            c'.id == c.id && c'.credentials == c.credentials && (c.subscribed ==> asked.Erred?)
  {
    hide Exchange, Understood, AllAccepted;
  }

  /** Every statement, against any nodes. */
  lemma ExecuteGoes(net: Network, c: Conn, h: History, script: Str, ps: map<Str, Value>)
    ensures var (asked, c', h') := Execute(net, c, h, script, ps);
            h <= h' && Executes(h', |h|, c, Errand(script, ps), asked, c'.id, |h'|)
  {
    hide Ask, Asks, Follow, Follows;
    var errand := Errand(script, ps);
    var (first, c1, h1) := Ask(net, c, h, script, ps, Asking);
    var (_, _, h') := Execute(net, c, h, script, ps);
    AskGoes(net, c, h, errand, Asking, h1);
    AskKeepsWho(net, c, h, errand, Asking);
    if first.Elsewhere? { FollowGoes(net, c, c1, h1, errand, first.redirect, h'); }
    AskGoes(net, c, h, errand, Asking, h');
  }

  // ---------- a vault act ----------

  predicate VaultAt(e: Event, voice: Voice, place: Option<Place>, act: Act, delivered: bool) {
    e == Sent(voice.id, Vault(voice.unspent, place, act), Asking, delivered)
  }

  /** A vault act is answered with one value; a redirect, or any other answer, breaks the protocol. */
  predicate OneValue(arrival: F.Arrival, reply: Asked) {
    var got := if arrival.Whole? then Understood(arrival.frame) else Erred(Transport);
    reply == if got.Erred? || (got.Answered? && |got.outcomes| == 1 && got.outcomes[0].ValueOutcome?) then got
             else Erred(Protocol)
  }

  /** From k to end, one vault act on a node of this minor. */
  ghost predicate Acts(
    h: History, k: nat, voice: Voice, minor: Byte, place: Option<Place>, act: Act, reply: Asked, end: nat)
  {
    if minor < (if act.Declare? then 6 else 2) then reply == Erred(TooOld) && end == k
    else if voice.subscribed then reply == Erred(IsSubscribed) && end == k
    else if |MessageBytes(Vault(voice.unspent, place, act))| > 16_777_216 then reply == Erred(TooLarge) && end == k
    else
      && end <= |h|
      && ((end == k + 1 && VaultAt(h[k], voice, place, act, false) && reply == Erred(Transport))
          || (end == k + 2 && VaultAt(h[k], voice, place, act, true) && h[k + 1].Received? && h[k + 1].id == voice.id
              && OneValue(h[k + 1].arrival, reply)))
  }

  lemma VaultGoes(net: Network, c: Conn, h: History, place: Option<Place>, act: Act)
    ensures var (reply, c', h') := VaultFrame(net, c, h, place, act);
            && h <= h' && c'.id == c.id && c'.subscribed == c.subscribed
            && Acts(h', |h|, VoiceOf(c), c.minor, place, act, reply, |h'|)
  {
    hide MessageBytes, Understood;
  }

  // ---------- a subscription ----------

  /** From k to end, one Subscribe; the connection is subscribed if and only if it arrived. */
  ghost predicate Subscribes(
    h: History, k: nat, id: nat, subscribed: bool, minor: Byte, from: UInt64, table: Str, cursor: Str,
    n: Option<Narrowing>, err: Option<Error>, now: bool, end: nat)
  {
    if subscribed then err == Some(IsSubscribed) && now && end == k
    else if minor < (if n.Some? then 4 else 0) then err == Some(TooOld) && !now && end == k
    else if n.Some? && exists name :: name in n.value.parameters && !Accepted(n.value.parameters[name]) then
      err == Some(Unwritable) && !now && end == k
    else if |MessageBytes(Subscribe(from, table, cursor, n))| > 16_777_216 then
      err == Some(TooLarge) && !now && end == k
    else
      && end == k + 1 <= |h| && h[k] == Sent(id, Subscribe(from, table, cursor, n), Asking, now)
      && err == if now then Nothing else Some(Transport)
  }

  lemma SubscribeGoes(
    net: Network, c: Conn, h: History, from: UInt64, table: Str, cursor: Str, n: Option<Narrowing>)
    ensures var (err, c', h') := SubscribeFrom(net, c, h, from, table, cursor, n);
            && h <= h' && c'.id == c.id
            && Subscribes(h', |h|, c.id, c.subscribed, c.minor, from, table, cursor, n, err, c'.subscribed, |h'|)
  {
    hide MessageBytes, Accepted;
  }
}
