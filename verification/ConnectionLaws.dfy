/** What every conversation keeps, whatever the nodes answer and whatever the caller asks. */
module ConnectionLaws {
  import opened Words
  import opened Values
  import opened Connections
  import opened Exchanges
  import F = Frames

  // ---------- what a history says of one connection ----------

  ghost predicate Open(h: History, id: nat) {
    (exists m: Byte :: Greeted(id, m) in h) && Closed(id) !in h
  }

  predicate CarriedAt(e: Event, id: nat) {
    e.Sent? && e.id == id && Carries(e.message)
  }

  ghost predicate SpentOn(h: History, id: nat) {
    exists i :: 0 <= i < |h| && CarriedAt(h[i], id)
  }

  predicate SubscribedAt(e: Event, id: nat) {
    e.Sent? && e.id == id && e.message.Subscribe? && e.delivered
  }

  ghost predicate SubscribedOn(h: History, id: nat) {
    exists i :: 0 <= i < |h| && SubscribedAt(h[i], id)
  }

  predicate RedirectAt(e: Event, r: Redirect) {
    e.Received? && e.arrival.Whole? && Understood(e.arrival.frame) == Elsewhere(r)
  }

  /** A node sent this redirect. */
  ghost predicate Heard(h: History, r: Redirect) {
    exists i :: 0 <= i < |h| && RedirectAt(h[i], r)
  }

  predicate VouchesAt(h: History, i: nat, id: nat, node: Sixteen)
    requires i + 1 < |h|
  {
    && h[i].Sent? && h[i].id == id && h[i].delivered
    && h[i].message.Request? && h[i].message.script == CONTEXT_SCRIPT
    && h[i + 1].Received? && h[i + 1].id == id && h[i + 1].arrival.Whole?
    && var context := ContextOf(Understood(h[i + 1].arrival.frame));
       context.Some? && IsNode(context.value, node)
  }

  /** Asked on this connection which node it is, that node said it is `node`. */
  ghost predicate Vouched(h: History, id: nat, node: Sixteen) {
    exists i :: 0 <= i && i + 1 < |h| && VouchesAt(h, i, id, node)
  }

  /** The caller dialled it, or a redirect did and the node there is the node the redirect named. */
  ghost predicate Trusted(h: History, id: nat) {
    id < |h| && h[id].Dialled? && (h[id].cause.Some? ==> Vouched(h, id, h[id].cause.value.node))
  }

  // ---------- the law ----------

  /** The last thing that happened opened this socket. */
  predicate JustReached(h: History, id: nat) {
    id + 1 == |h| && h[id].Dialled? && h[id].reached
  }

  /** What may happen next. */
  ghost predicate Allowed(h: History, e: Event) {
    match e
    case Dialled(id, cause, _) => id == |h| && (cause.Some? ==> Heard(h, cause.value))
    case Greeted(id, _) => JustReached(h, id)
    case Sent(id, m, purpose, _) =>
      && Open(h, id)
      && !SubscribedOn(h, id)
      && (Carries(m) ==> !SpentOn(h, id))
      && (forall minor: Byte :: Greeted(id, minor) in h ==> minor >= NeededMinor(m))
      && (purpose != Checking ==> Trusted(h, id))
    case Received(id, _) => Open(h, id)
    case Closed(id) => Open(h, id) || JustReached(h, id)
  }

  ghost predicate Lawful(h: History) {
    forall i :: 0 <= i < |h| ==> Allowed(h[..i], h[i])
  }

  /** The state of a connection agrees with its history. */
  ghost predicate Fits(c: Conn, h: History) {
    && Open(h, c.id)
    && (forall m: Byte :: Greeted(c.id, m) in h ==> m == c.minor)
    && (c.credentials.Some? && !c.spent ==> !SpentOn(h, c.id))
    && (!c.subscribed ==> !SubscribedOn(h, c.id))
  }

  /** Nothing that concerns another connection happened between h and h'. */
  ghost predicate Only(id: nat, h: History, h': History) {
    && h <= h'
    && forall i :: |h| <= i < |h'| ==> h'[i].id == id && !h'[i].Dialled? && !h'[i].Greeted?
  }

  lemma LawfulNext(h: History, e: Event)
    requires Lawful(h) && Allowed(h, e)
    ensures Lawful(h + [e])
  {
    hide Allowed;
    var h' := h + [e];
    forall i | 0 <= i < |h'| ensures Allowed(h'[..i], h'[i]) {
      assert h'[..i] == if i < |h| then h[..i] else h;
    }
  }

  /** Every connection an event mentions was dialled before now. */
  lemma IdsAreOld(h: History)
    requires Lawful(h)
    ensures forall i :: 0 <= i < |h| ==> h[i].id < |h|
  {
    forall i | 0 <= i < |h| ensures h[i].id < |h| {
      assert Allowed(h[..i], h[i]);
      if Open(h[..i], h[i].id) {
        var m: Byte :| Greeted(h[i].id, m) in h[..i];
        var j :| 0 <= j < i && h[j] == Greeted(h[i].id, m);
        assert Allowed(h[..j], h[j]);
      }
    }
  }

  lemma VouchedStays(h: History, h': History, id: nat, node: Sixteen)
    requires h <= h' && Vouched(h, id, node)
    ensures Vouched(h', id, node)
  {
    var i :| 0 <= i && i + 1 < |h| && VouchesAt(h, i, id, node);
    assert VouchesAt(h', i, id, node);
  }

  lemma TrustedStays(h: History, h': History, id: nat)
    requires h <= h' && Trusted(h, id)
    ensures Trusted(h', id)
  {
    if h[id].cause.Some? { VouchedStays(h, h', id, h[id].cause.value.node); }
  }

  /** Talking on one connection leaves every other as it was. */
  lemma OthersStay(id: nat, h: History, h': History, d: Conn)
    requires Only(id, h, h') && d.id != id && Fits(d, h)
    ensures Fits(d, h')
  {
    hide Carries, NeededMinor;
    forall e | e in h' && e !in h ensures e.id == id && !e.Greeted? {
      var i :| 0 <= i < |h'| && h'[i] == e;
    }
    assert forall m: Byte :: Greeted(d.id, m) in h ==> Greeted(d.id, m) in h' by {
      forall e | e in h ensures e in h' { var i :| 0 <= i < |h| && h[i] == e; assert h'[i] == e; }
    }
  }

  // ---------- the redirects followed and the requests sent, in order ----------

  function Causes(h: History): seq<Redirect> {
    if h == [] then [] else
      var e := h[|h| - 1];
      Causes(h[..|h| - 1]) + if e.Dialled? && e.cause.Some? then [e.cause.value] else []
  }

  function Requests(h: History): seq<nat> {
    if h == [] then [] else
      var e := h[|h| - 1];
      Requests(h[..|h| - 1]) + if e.Sent? && e.purpose == Asking then [e.id] else []
  }

  lemma OneMore(h: History, e: Event)
    ensures Causes(h + [e]) == Causes(h) + if e.Dialled? && e.cause.Some? then [e.cause.value] else []
    ensures Requests(h + [e]) == Requests(h) + if e.Sent? && e.purpose == Asking then [e.id] else []
  {
    assert (h + [e])[..|h|] == h;
  }

  /** Talking on one connection: no dialling, and the caller's request at most once. */
  ghost predicate Quiet(id: nat, h: History, h': History, mayAsk: bool) {
    && Causes(h') == Causes(h)
    && (Requests(h') == Requests(h) || (mayAsk && Requests(h') == Requests(h) + [id]))
  }

  // ---------- one step at a time ----------

  lemma SendKeeps(net: Network, c: Conn, h: History, m: Message, purpose: Purpose)
    requires Lawful(h) && Fits(c, h) && !c.subscribed
    requires NeededMinor(m) <= c.minor && (purpose != Checking ==> Trusted(h, c.id))
    requires Carries(m) ==> c.credentials.Some? && !c.spent
    ensures var (err, h') := Send(net, c, h, m, purpose);
            && Lawful(h') && Only(c.id, h, h')
            && Fits(c.(spent := c.spent || Carries(m), subscribed := m.Subscribe? && err.Nothing?), h')
            && (err.Nothing? ==> h' == h + [Sent(c.id, m, purpose, true)])
            && Quiet(c.id, h, h', purpose == Asking)
  {
    hide MessageBytes, Carries, NeededMinor, Causes, Requests;
    var (err, h') := Send(net, c, h, m, purpose);
    if h' != h {
      var e := h'[|h|];
      assert h' == h + [e];
      LawfulNext(h, e);
      SentFits(c, h, e);
      OneMore(h, e);
    }
  }

  lemma SentFits(c: Conn, h: History, e: Event)
    requires Fits(c, h) && !c.subscribed && e.Sent? && e.id == c.id
    ensures Open(h + [e], c.id)
    ensures forall m: Byte :: Greeted(c.id, m) in h + [e] ==> m == c.minor
    ensures c.credentials.Some? && !c.spent && !Carries(e.message) ==> !SpentOn(h + [e], c.id)
    ensures !(e.message.Subscribe? && e.delivered) ==> !SubscribedOn(h + [e], c.id)
  {
    hide Carries;
    var m: Byte :| Greeted(c.id, m) in h;
    assert Greeted(c.id, m) in h + [e];
  }

  lemma DialKeeps(net: Network, credentials: Option<Credentials>, cause: Option<Redirect>, h: History)
    requires Lawful(h) && (cause.Some? ==> Heard(h, cause.value))
    ensures var (c, h') := Dial(net, credentials, cause, h);
            && Lawful(h') && h <= h' && |h| < |h'| && h'[|h|] == Dialled(|h|, cause, net.reaches(h, cause))
            && (forall i :: |h| < i < |h'| ==> h'[i].Greeted? || h'[i].Closed?)
            && (c.Nothing? && h'[|h|].reached ==> Closed(|h|) in h')
            && (forall i :: |h| <= i < |h'| ==> h'[i].id == |h|)
            && (c.Some? ==>
                  Fits(c.value, h') && c.value.id == |h| && c.value.credentials == credentials && !c.value.subscribed)
  {
    hide Carries, NeededMinor, Fits, Lawful, Causes, Requests;
    var (c, h') := Dial(net, credentials, cause, h);
    var id, reached := |h|, net.reaches(h, cause);
    var h1 := h + [Dialled(id, cause, reached)];
    IdsAreOld(h);
    LawfulNext(h, Dialled(id, cause, reached));
    NothingYet(h, id);
    if reached {
      assert h1[id] == Dialled(id, cause, true);
      var e := h'[id + 1];
      assert h' == h1 + [e];
      LawfulNext(h1, e);
      if c.Some? { FreshFits(h, cause, c.value); }
    }
  }

  lemma DialCounts(net: Network, credentials: Option<Credentials>, cause: Option<Redirect>, h: History)
    ensures var (_, h') := Dial(net, credentials, cause, h);
            Causes(h') == Causes(h) + (if cause.Some? then [cause.value] else []) && Requests(h') == Requests(h)
  {
    hide Causes, Requests;
    var (c, h') := Dial(net, credentials, cause, h);
    var h1 := h + [Dialled(|h|, cause, net.reaches(h, cause))];
    OneMore(h, h1[|h|]);
    if net.reaches(h, cause) { OneMore(h1, h'[|h| + 1]); }
  }

  lemma NothingYet(h: History, id: nat)
    requires forall i :: 0 <= i < |h| ==> h[i].id < id
    ensures forall e :: e in h ==> e.id != id
  {}

  lemma FreshFits(h: History, cause: Option<Redirect>, c: Conn)
    requires forall i :: 0 <= i < |h| ==> h[i].id < |h|
    requires c.id == |h|
    ensures Fits(c, h + [Dialled(|h|, cause, true)] + [Greeted(|h|, c.minor)])
  {
    hide Carries, NeededMinor;
    var h' := h + [Dialled(|h|, cause, true)] + [Greeted(|h|, c.minor)];
    NothingYet(h, |h|);
    assert Greeted(c.id, c.minor) in h';
    assert forall i :: 0 <= i < |h'| && h'[i].id == c.id ==> h'[i].Dialled? || h'[i].Greeted?;
  }

  /** Dialling another node leaves an open connection as it was. */
  lemma DiallingIsElsewhere(h: History, h': History, d: Conn)
    requires Lawful(h) && h <= h' && Fits(d, h)
    requires forall i :: |h| <= i < |h'| ==> (h'[i].Dialled? || h'[i].Greeted? || h'[i].Closed?) && h'[i].id == |h|
    ensures Fits(d, h')
  {
    hide Carries, NeededMinor;
    IdsAreOld(h);
    forall e | e in h' && e !in h ensures e.id == |h| && (e.Dialled? || e.Greeted? || e.Closed?) {
      var i :| 0 <= i < |h'| && h'[i] == e;
    }
    forall e | e in h ensures e in h' { var i :| 0 <= i < |h| && h[i] == e; assert h'[i] == e; }
    var m: Byte :| Greeted(d.id, m) in h;
  }

  lemma EventKeeps(c: Conn, h: History, e: Event)
    requires Lawful(h) && Fits(c, h) && e.Received? && e.id == c.id
    ensures Lawful(h + [e]) && Fits(c, h + [e])
  {
    hide Carries, NeededMinor;
    LawfulNext(h, e);
    var m: Byte :| Greeted(c.id, m) in h;
    assert Greeted(c.id, m) in h + [e];
  }

  lemma ExchangeKeeps(net: Network, c: Conn, h: History, m: Message, purpose: Purpose)
    requires Lawful(h) && Fits(c, h) && !c.subscribed && !m.Subscribe?
    requires NeededMinor(m) <= c.minor && (purpose != Checking ==> Trusted(h, c.id))
    requires Carries(m) ==> c.credentials.Some? && !c.spent
    ensures var (frame, _, h') := Exchange(net, c, h, m, purpose);
            && Lawful(h') && Only(c.id, h, h') && Fits(c.(spent := c.spent || Carries(m)), h')
            && (frame.Some? ==> h' == h + [Sent(c.id, m, purpose, true), Received(c.id, F.Whole(frame.value))])
            && Quiet(c.id, h, h', purpose == Asking)
  {
    hide MessageBytes, Carries, NeededMinor, Fits, Lawful, Send, Causes, Requests;
    SendKeeps(net, c, h, m, purpose);
    var (err, h1) := Send(net, c, h, m, purpose);
    if err.Nothing? {
      EventKeeps(c.(spent := c.spent || Carries(m)), h1, Received(c.id, net.replies(h1)));
      OneMore(h1, Received(c.id, net.replies(h1)));
    }
  }

  /** What one statement keeps, and what it may tell. */
  ghost predicate AskedWell(c: Conn, h: History, script: Str, purpose: Purpose, asked: Asked, c': Conn, h': History) {
    && Quiet(c.id, h, h', purpose == Asking)
    && Lawful(h') && Only(c.id, h, h') && Fits(c', h')
    && c' == c.(spent := c'.spent) && (c.spent || c.credentials.Nothing? ==> c' == c)
    && (asked.Elsewhere? ==> Heard(h', asked.redirect))
    && (script == CONTEXT_SCRIPT && ContextOf(asked).Some? ==>
          forall node: Sixteen :: IsNode(ContextOf(asked).value, node) ==> Vouched(h', c.id, node))
  }

  lemma AskKeeps(net: Network, c: Conn, h: History, script: Str, ps: map<Str, Value>, purpose: Purpose)
    requires Lawful(h) && Fits(c, h) && (purpose != Checking ==> Trusted(h, c.id))
    ensures var (asked, c', h') := Ask(net, c, h, script, ps, purpose); AskedWell(c, h, script, purpose, asked, c', h')
  {
    hide MessageBytes, Fits, Lawful, Exchange, Understood, IsNode, Causes, Requests;
    var (asked, c', h') := Ask(net, c, h, script, ps, purpose);
    if !c.subscribed {
      var m := Request(script, Unspent(c), ps);
      if AllAccepted(ps) {
        ExchangeKeeps(net, c, h, m, purpose);
        SpendingFits(c, m, h');
        var (frame, _, _) := Exchange(net, c, h, m, purpose);
        if frame.Some? {
          AnswerTells(h, c.id, m, purpose, frame.value);
        }
      } else {
        SpendingFits(c, m, h);
      }
    }
  }

  lemma SpendingFits(c: Conn, m: Message, h: History)
    requires Fits(c, h) || Fits(c.(spent := c.spent || Carries(m)), h)
    requires !m.Subscribe? && m.credentials == Unspent(c)
    ensures Fits(Spending(c), h)
  {
    hide Open, SpentOn, SubscribedOn;
  }

  lemma AnswerTells(h: History, id: nat, m: Message, purpose: Purpose, frame: F.Frame)
    ensures var h' := h + [Sent(id, m, purpose, true), Received(id, F.Whole(frame))];
            var asked := Understood(frame);
            && (asked.Elsewhere? ==> Heard(h', asked.redirect))
            && (m.Request? && m.script == CONTEXT_SCRIPT && ContextOf(asked).Some? ==>
                  forall node: Sixteen :: IsNode(ContextOf(asked).value, node) ==> Vouched(h', id, node))
  {
    hide Understood, IsNode;
    var h' := h + [Sent(id, m, purpose, true), Received(id, F.Whole(frame))];
    var asked := Understood(frame);
    assert h'[|h| + 1] == Received(id, F.Whole(frame)) && h'[|h|] == Sent(id, m, purpose, true);
    if asked.Elsewhere? { assert RedirectAt(h'[|h| + 1], asked.redirect); }
    forall node: Sixteen
      | m.Request? && m.script == CONTEXT_SCRIPT && ContextOf(asked).Some? && IsNode(ContextOf(asked).value, node)
      ensures Vouched(h', id, node)
    {
      assert VouchesAt(h', |h|, id, node);
    }
  }

  lemma ContextKeeps(net: Network, c: Conn, h: History)
    requires Lawful(h) && Fits(c, h)
    ensures var (context, _, c', h') := Context(net, c, h);
            && Lawful(h') && Only(c.id, h, h') && Fits(c', h') && Quiet(c.id, h, h', false)
            && c' == c.(spent := c'.spent) && (c.spent || c.credentials.Nothing? ==> c' == c)
            && (context.Some? ==> forall node: Sixteen :: IsNode(context.value, node) ==> Vouched(h', c.id, node))
  {
    hide Ask, Fits, Lawful, IsNode, ContextOf;
    AskKeeps(net, c, h, CONTEXT_SCRIPT, map[], Checking);
  }

  /** What one visit to a redirected-to node keeps. */
  ghost predicate ArrivedWell(there: Conn, h: History, asked: Asked, c: Conn, h': History) {
    && Lawful(h') && Only(there.id, h, h') && Fits(c, h') && Quiet(there.id, h, h', true)
    && c == there.(spent := c.spent)
    && (asked.Elsewhere? ==> Heard(h', asked.redirect))
    && (asked.Answered? ==> Trusted(h', there.id))
  }

  lemma OnlyTwice(id: nat, h: History, h1: History, h2: History)
    requires Only(id, h, h1) && Only(id, h1, h2)
    ensures Only(id, h, h2)
  {}

  lemma ArriveKeeps(
    net: Network, there: Conn, h: History, redirect: Redirect, selecting: Str, script: Str, ps: map<Str, Value>)
    requires Lawful(h) && Fits(there, h)
    requires there.id < |h| && h[there.id].Dialled? && h[there.id].cause == Some(redirect)
    ensures var (asked, c, h') := Arrive(net, there, h, redirect.node, selecting, script, ps);
            ArrivedWell(there, h, asked, c, h')
  {
    hide Ask, Context, Fits, Lawful, IsNode, Quiet, Heard, Vouched;
    Still(there.id, h);
    ContextKeeps(net, there, h);
    var (context, _, c1, h1) := Context(net, there, h);
    QuietTwice(there.id, h, h, h1, false);
    if context.Some? && IsNode(context.value, redirect.node) {
      assert Trusted(h1, there.id);
      if selecting == [] {
        AskKeeps(net, c1, h1, script, ps, Asking);
        var (asked, c2, h2) := Ask(net, c1, h1, script, ps, Asking);
        OnlyTwice(there.id, h, h1, h2);
        TrustedStays(h1, h2, there.id);
        QuietTwice(there.id, h, h1, h2, true);
      } else {
        AskKeeps(net, c1, h1, selecting, map[], Selecting);
        var (selected, c2, h2) := Ask(net, c1, h1, selecting, map[], Selecting);
        OnlyTwice(there.id, h, h1, h2);
        TrustedStays(h1, h2, there.id);
        QuietTwice(there.id, h, h1, h2, false);
        if !selected.Erred? {
          AskKeeps(net, c2, h2, script, ps, Asking);
          var (asked, c3, h3) := Ask(net, c2, h2, script, ps, Asking);
          OnlyTwice(there.id, h, h2, h3);
          TrustedStays(h2, h3, there.id);
          QuietTwice(there.id, h, h2, h3, true);
        }
      }
    }
  }

  lemma Still(id: nat, h: History)
    ensures Quiet(id, h, h, false)
  {}

  lemma QuietTwice(id: nat, h: History, h1: History, h2: History, mayAsk: bool)
    requires Quiet(id, h, h1, false)
    requires Quiet(id, h1, h2, mayAsk)
    ensures Quiet(id, h, h2, mayAsk) && Quiet(id, h, h2, true)
  {}

  // ---------- following ----------

  /** Epochs that never go back, from a floor. */
  predicate Climbing(floor: UInt64, hops: seq<Redirect>)
    decreases |hops|
  {
    hops == [] || (floor <= hops[0].epoch && Climbing(hops[0].epoch, hops[1..]))
  }

  /** Each of these connections was dialled after the one before it, and none before `from`. */
  predicate Rising(from: nat, ids: seq<nat>)
    decreases |ids|
  {
    ids == [] || (from <= ids[0] && Rising(ids[0] + 1, ids[1..]))
  }

  ghost predicate Untouched(id: nat, h: History, h': History) {
    h <= h' && forall i :: |h| <= i < |h'| ==> h'[i].id != id
  }

  /** At most `most` hops, under epochs that do not go back, and the request at most once on each. */
  predicate HopsWell(h: History, floor: UInt64, most: nat, h': History) {
    && Causes(h) <= Causes(h') && Requests(h) <= Requests(h')
    && var hops, sent := Causes(h')[|Causes(h)|..], Requests(h')[|Requests(h)|..];
    && |hops| <= most && Climbing(floor, hops)
    && |sent| <= |hops| && Rising(|h|, sent)
  }

  /** Every socket opened since h is closed again, but for one. */
  ghost predicate AllClosedBut(kept: nat, h: History, h': History) {
    forall i :: |h| <= i < |h'| && h'[i].Dialled? && h'[i].reached && i != kept ==> Closed(i) in h'
  }

  /** The last redirect followed was settled, and something answered. */
  predicate Moves(h: History, asked: Asked, h': History) {
    asked.Answered? && |Causes(h')| > |Causes(h)| && Causes(h')[|Causes(h')| - 1].settled
  }

  /** The caller's connection is the answering node's after a move, and otherwise what it was. */
  ghost predicate HomeWell(home: Conn, h: History, asked: Asked, home': Conn, h': History) {
    && (asked.Answered? ==> |Causes(h')| > |Causes(h)|)
    && if Moves(h, asked, h')
       then home'.id >= |h| && Fits(home', h') && Trusted(h', home'.id) && Closed(home.id) in h'
            && home' == home.(id := home'.id, minor := home'.minor, spent := home'.spent)
       else home' == home && Fits(home, h') && Untouched(home.id, h, h')
  }

  /** What following a redirect does, from the first hop to the last. */
  ghost predicate FollowedWell(
    home: Conn, h: History, floor: UInt64, most: nat, asked: Asked, home': Conn, h': History)
  {
    && Lawful(h') && h <= h' && !asked.Elsewhere?
    && HopsWell(h, floor, most, h') && AllClosedBut(home'.id, h, h') && HomeWell(home, h, asked, home', h')
  }

  lemma FitsOpen(c: Conn, h: History)
    requires Fits(c, h)
    ensures Allowed(h, Closed(c.id))
  {
    hide SpentOn, SubscribedOn;
  }

  lemma CloseKeeps(c: Conn, h: History)
    requires Lawful(h) && Fits(c, h)
    ensures Lawful(h + [Closed(c.id)]) && Closed(c.id) in h + [Closed(c.id)]
    ensures Causes(h + [Closed(c.id)]) == Causes(h) && Requests(h + [Closed(c.id)]) == Requests(h)
    ensures Only(c.id, h, h + [Closed(c.id)])
  {
    hide Lawful, Fits, Causes, Requests;
    FitsOpen(c, h);
    LawfulNext(h, Closed(c.id));
    OneMore(h, Closed(c.id));
  }

  /** After one hop that was told to go on: one more hop behind, and everything it opened closed. */
  lemma OneHopMore(
    home: Conn, h: History, h2: History, floor: UInt64, redirect: Redirect, most: nat, asked: Asked, home': Conn,
    h': History)
    requires h <= h2 && floor <= redirect.epoch && Untouched(home.id, h, h2)
    requires |h| < |h2| && Causes(h2) == Causes(h) + [redirect]
    requires Requests(h2) == Requests(h) || Requests(h2) == Requests(h) + [|h|]
    requires AllClosedBut(home'.id, h, h2)
    requires FollowedWell(home, h2, redirect.epoch, most, asked, home', h')
    ensures FollowedWell(home, h, floor, most + 1, asked, home', h')
  {
    hide Fits, Lawful, Trusted, Causes, Requests, HopsWell, AllClosedBut;
    OneHopCounted(h, h2, floor, redirect, most, h');
    OneHopClosed(home'.id, h, h2, h');
    assert Causes(h2) <= Causes(h') by { OneHopLonger(h2, redirect.epoch, most, h'); }
  }

  lemma OneHopLonger(h: History, floor: UInt64, most: nat, h': History)
    requires HopsWell(h, floor, most, h')
    ensures Causes(h) <= Causes(h')
  {
    hide Causes, Requests;
  }

  /** A list that goes on from a + b goes on from a with b in front. */
  lemma GoesOn<T>(a: seq<T>, b: seq<T>, whole: seq<T>)
    requires a + b <= whole
    ensures a <= whole && whole[|a|..] == b + whole[|a + b|..]
  {
    assert whole == a + b + whole[|a + b|..];
    assert whole[..|a|] == (a + b)[..|a|] == a;
  }

  lemma OneHopCounted(h: History, h2: History, floor: UInt64, redirect: Redirect, most: nat, h': History)
    requires |h| < |h2| && floor <= redirect.epoch
    requires Causes(h2) == Causes(h) + [redirect]
    requires Requests(h2) == Requests(h) || Requests(h2) == Requests(h) + [|h|]
    requires HopsWell(h2, redirect.epoch, most, h')
    ensures HopsWell(h, floor, most + 1, h')
  {
    hide Causes, Requests, Rising, Climbing;
    var hops2, sent2 := Causes(h')[|Causes(h2)|..], Requests(h')[|Requests(h2)|..];
    GoesOn(Causes(h), [redirect], Causes(h'));
    var asked := if Requests(h2) == Requests(h) then [] else [|h|];
    assert Requests(h2) == Requests(h) + asked;
    GoesOn(Requests(h), asked, Requests(h'));
    RisingFrom(|h|, |h2|, sent2);
    RisingFrom(|h| + 1, |h2|, sent2);
    ClimbingFrom(floor, redirect, hops2);
    if asked == [] {
      assert asked + sent2 == sent2;
    } else {
      RisingNext(|h|, sent2);
    }
  }

  lemma RisingNext(k: nat, more: seq<nat>)
    requires Rising(k + 1, more)
    ensures Rising(k, [k] + more)
  {
    assert ([k] + more)[1..] == more;
  }

  lemma ClimbingFrom(floor: UInt64, redirect: Redirect, more: seq<Redirect>)
    requires floor <= redirect.epoch && Climbing(redirect.epoch, more)
    ensures Climbing(floor, [redirect] + more)
  {
    assert ([redirect] + more)[1..] == more;
  }

  lemma OneHopClosed(kept: nat, h: History, h2: History, h': History)
    requires h <= h2 <= h'
    requires AllClosedBut(kept, h, h2) && AllClosedBut(kept, h2, h')
    ensures AllClosedBut(kept, h, h')
  {
    forall i | |h| <= i < |h'| && h'[i].Dialled? && h'[i].reached && i != kept ensures Closed(i) in h' {
      if i < |h2| {
        assert h2[i] == h'[i];
        var j :| 0 <= j < |h2| && h2[j] == Closed(i);
        assert h'[j] == Closed(i);
      }
    }
  }

  lemma RisingFrom(from: nat, later: nat, ids: seq<nat>)
    requires from <= later && Rising(later, ids)
    ensures Rising(from, ids)
  {}

  // One hop: everything that happens concerns the connection dialled for it.

  ghost predicate Past(h: History, h': History) {
    && h <= h' && |h| < |h'|
    && (forall i :: |h| <= i < |h'| ==> h'[i].id == |h|)
    && (forall i :: |h| < i < |h'| ==> !h'[i].Dialled?)
  }

  predicate Counts(h: History, redirect: Redirect, h': History) {
    && Causes(h') == Causes(h) + [redirect]
    && (Requests(h') == Requests(h) || Requests(h') == Requests(h) + [|h|])
  }

  lemma VisitFails(net: Network, home: Conn, h: History, redirect: Redirect)
    requires Lawful(h) && Fits(home, h) && Heard(h, redirect)
    ensures var (there, h1) := Dial(net, home.credentials, Some(redirect), h);
            Lawful(h1) && Fits(home, h1) && Past(h, h1) && Counts(h, redirect, h1)
  {
    hide Fits, Lawful, Heard, Causes, Requests, Dial;
    DialKeeps(net, home.credentials, Some(redirect), h);
    DialCounts(net, home.credentials, Some(redirect), h);
    var (there, h1) := Dial(net, home.credentials, Some(redirect), h);
    DiallingIsElsewhere(h, h1, home);
  }

  lemma VisitKeeps(
    net: Network, home: Conn, h: History, redirect: Redirect, selecting: Str, script: Str, ps: map<Str, Value>)
    requires Lawful(h) && Fits(home, h) && Heard(h, redirect) && home.id < |h|
    requires Dial(net, home.credentials, Some(redirect), h).0.Some?
    ensures var (there, h1) := Dial(net, home.credentials, Some(redirect), h);
            var (asked, c, h2) := Arrive(net, there.value, h1, redirect.node, selecting, script, ps);
            && Lawful(h2) && Fits(home, h2) && Fits(c, h2) && Past(h, h2) && Counts(h, redirect, h2)
            && c.id == |h| && c.credentials == home.credentials && !c.subscribed
            && (asked.Elsewhere? ==> Heard(h2, asked.redirect)) && (asked.Answered? ==> Trusted(h2, c.id))
  {
    hide Fits, Lawful, Heard, Causes, Requests, Dial, Arrive, Trusted;
    VisitFails(net, home, h, redirect);
    DialKeeps(net, home.credentials, Some(redirect), h);
    DialCounts(net, home.credentials, Some(redirect), h);
    var (there, h1) := Dial(net, home.credentials, Some(redirect), h);
    ArriveKeeps(net, there.value, h1, redirect, selecting, script, ps);
    var (asked, c, h2) := Arrive(net, there.value, h1, redirect.node, selecting, script, ps);
    OthersStay(|h|, h1, h2, home);
  }

  lemma HeardStays(h: History, h': History, r: Redirect)
    requires h <= h' && Heard(h, r)
    ensures Heard(h', r)
  {
    hide Understood;
    var i :| 0 <= i < |h| && RedirectAt(h[i], r);
    assert RedirectAt(h'[i], r);
  }

  /** Past h only connection |h| was opened. */
  lemma OneOpened(h: History, h': History, kept: nat)
    requires h <= h' && forall i :: |h| < i < |h'| ==> !h'[i].Dialled?
    requires kept == |h| || Closed(|h|) in h' || (|h| < |h'| && h'[|h|].Dialled? && !h'[|h|].reached)
    ensures AllClosedBut(kept, h, h')
  {}

  lemma CountedHop(h: History, floor: UInt64, redirect: Redirect, most: nat, h': History)
    requires Counts(h, redirect, h') && floor <= redirect.epoch && most > 0
    ensures HopsWell(h, floor, most, h')
    ensures |Causes(h')| > |Causes(h)| && Causes(h')[|Causes(h')| - 1] == redirect
  {
    hide Causes, Requests;
    assert Causes(h')[|Causes(h)|..] == [redirect];
    assert Climbing(floor, [redirect]) by { assert [redirect][1..] == []; }
    var sent := Requests(h')[|Requests(h)|..];
    if Requests(h') == Requests(h) {
      assert sent == [];
    } else {
      assert sent == [|h|] && sent[1..] == [];
      assert Rising(|h| + 1, sent[1..]);
    }
  }

  lemma NoHop(h: History, floor: UInt64, most: nat)
    ensures HopsWell(h, floor, most, h)
  {
    hide Causes, Requests;
  }

  lemma {:induction false} FollowFromKeeps(
    net: Network, home: Conn, h: History, selecting: Str, script: Str, ps: map<Str, Value>,
    redirect: Redirect, floor: UInt64, hops: nat)
    requires hops <= MOST_HOPS && Lawful(h) && Fits(home, h) && Heard(h, redirect) && home.id < |h|
    ensures var (asked, home', h') := FollowFrom(net, home, h, selecting, script, ps, redirect, floor, hops);
            FollowedWell(home, h, floor, MOST_HOPS - hops, asked, home', h')
    decreases MOST_HOPS - hops
  {
    hide Fits, Lawful, Heard, Causes, Requests, Dial, Arrive, Trusted, HopsWell, AllClosedBut;
    var most := MOST_HOPS - hops;
    if hops >= MOST_HOPS || redirect.epoch < floor {
      NoHop(h, floor, most);
      OneOpenedNone(home.id, h);
    } else {
      var (there, h1) := Dial(net, home.credentials, Some(redirect), h);
      if there.Nothing? {
        FailedHop(net, home, h, floor, redirect, most);
      } else {
        VisitKeeps(net, home, h, redirect, selecting, script, ps);
        var (asked, c, h2) := Arrive(net, there.value, h1, redirect.node, selecting, script, ps);
        if asked.Answered? && redirect.settled {
          MovingHop(home, h, h2, floor, redirect, most, asked, c);
        } else {
          LeavingHop(home, h, h2, redirect, c);
          var h3 := h2 + [Closed(c.id)];
          CountedHop(h, floor, redirect, most, h3);
          OneOpened(h, h3, home.id);
          if asked.Elsewhere? {
            HeardStays(h2, h3, asked.redirect);
            FollowFromKeeps(net, home, h3, selecting, script, ps, asked.redirect, redirect.epoch, hops + 1);
            var (asked', home', h') :=
              FollowFrom(net, home, h3, selecting, script, ps, asked.redirect, redirect.epoch, hops + 1);
            OneOpened(h, h3, home'.id);
            OneHopMore(home, h, h3, floor, redirect, most - 1, asked', home', h');
          }
        }
      }
    }
  }

  lemma OneOpenedNone(kept: nat, h: History)
    ensures AllClosedBut(kept, h, h)
  {}

  lemma FailedHop(net: Network, home: Conn, h: History, floor: UInt64, redirect: Redirect, most: nat)
    requires Lawful(h) && Fits(home, h) && Heard(h, redirect) && home.id < |h|
    requires floor <= redirect.epoch && most > 0
    requires Dial(net, home.credentials, Some(redirect), h).0.Nothing?
    ensures var h1 := Dial(net, home.credentials, Some(redirect), h).1;
            FollowedWell(home, h, floor, most, Erred(NotDialled), home, h1)
  {
    hide Fits, Lawful, Heard, Causes, Requests, Trusted, HopsWell, AllClosedBut;
    VisitFails(net, home, h, redirect);
    var h1 := Dial(net, home.credentials, Some(redirect), h).1;
    CountedHop(h, floor, redirect, most, h1);
    DialKeeps(net, home.credentials, Some(redirect), h);
    OneOpened(h, h1, home.id);
  }

  /** A settled answer: the old connection closes and the new one takes its place. */
  lemma MovingHop(
    home: Conn, h: History, h2: History, floor: UInt64, redirect: Redirect, most: nat, asked: Asked, c: Conn)
    requires Lawful(h) && Lawful(h2) && Fits(home, h2) && Fits(c, h2) && Past(h, h2) && Counts(h, redirect, h2)
    requires c.id == |h| && home.id < |h| && c.credentials == home.credentials && !c.subscribed
    requires asked.Answered? && redirect.settled && Trusted(h2, c.id) && floor <= redirect.epoch && most > 0
    ensures FollowedWell(home, h, floor, most, asked, home.(id := c.id, minor := c.minor, spent := c.spent),
                         h2 + [Closed(home.id)])
  {
    hide Lawful, Causes, Requests, Trusted, HopsWell, AllClosedBut, Open, SpentOn, SubscribedOn;
    var h3 := h2 + [Closed(home.id)];
    CloseKeeps(home, h2);
    OthersStay(home.id, h2, h3, c);
    TrustedStays(h2, h3, c.id);
    CountedHop(h, floor, redirect, most, h3);
    OneOpened(h, h3, c.id);
  }

  /** Any other answer: the new connection closes and the old one is as it was. */
  lemma LeavingHop(home: Conn, h: History, h2: History, redirect: Redirect, c: Conn)
    requires Lawful(h2) && Fits(home, h2) && Fits(c, h2) && Past(h, h2) && Counts(h, redirect, h2)
    requires c.id == |h| && home.id < |h|
    ensures var h3 := h2 + [Closed(c.id)];
            && Lawful(h3) && Fits(home, h3) && Past(h, h3) && Counts(h, redirect, h3)
            && Untouched(home.id, h, h3) && Closed(|h|) in h3
  {
    hide Lawful, Fits, Causes, Requests;
    CloseKeeps(c, h2);
    OthersStay(c.id, h2, h2 + [Closed(c.id)], home);
  }

  // ---------- whole calls ----------

  ghost predicate Home(c: Conn, h: History) {
    Lawful(h) && Fits(c, h) && Trusted(h, c.id)
  }

  lemma HomeIsOld(c: Conn, h: History)
    requires Lawful(h) && Fits(c, h)
    ensures c.id < |h|
  {
    IdsAreOld(h);
    var m: Byte :| Greeted(c.id, m) in h;
    var i :| 0 <= i < |h| && h[i] == Greeted(c.id, m);
  }

  /**
   Following a redirect: at most three hops under epochs that never go back, the request sent at most
   once on each; a settled answer moves the connection to the node that gave it, and anything else
   leaves it open where it was; whatever else was dialled is closed again. The home connection is asked
   its context and nothing else, and an answer is what the request itself was answered with, on the
   connection adopted if one is.
   */
  lemma FollowKeeps(net: Network, c: Conn, h: History, script: Str, ps: map<Str, Value>, first: Redirect)
    requires Home(c, h) && Heard(h, first)
    ensures var (asked, c', h') := Follow(net, c, h, script, ps, first);
            && Home(c', h') && h <= h' && !asked.Elsewhere?
            && HopsWell(h, 0, 3, h') && AllClosedBut(c'.id, h, h')
            && (Moves(h, asked, h') ==> c'.id >= |h| && Closed(c.id) in h')
            && (!Moves(h, asked, h') ==> c' == c.(spent := c'.spent) && Closed(c.id) !in h')
            && (c.spent && !Moves(h, asked, h') ==> c' == c)
            && OnlyTheQuestion(c, h, h')
            && (asked.Answered? ==>
                  exists id: nat :: id >= |h| && AnswerCame(h, h', id, script, ps, asked)
                    && if Moves(h, asked, h') then id == c'.id else Closed(id) in h')
  {
    hide Fits, Lawful, Heard, Causes, Requests, Trusted, HopsWell, AllClosedBut, FollowFrom, Context, Selection, Only,
      OnlyTheQuestion, AnswerCame;
    HomeIsOld(c, h);
    FollowSays(net, c, h, script, ps, first);
    ContextKeeps(net, c, h);
    var (context, err, c1, h1) := Context(net, c, h);
    ContextOnly(c.id, h, h1);
    TrustedStays(h, h1, c.id);
    HeardStays(h, h1, first);
    if context.Some? && Selection(context.value).Some? {
      var selecting := Selection(context.value).value;
      FollowFromKeeps(net, c1, h1, selecting, script, ps, first, 0, 0);
      var (asked, c', h') := FollowFrom(net, c1, h1, selecting, script, ps, first, 0, 0);
      TrustedStays(h1, h', c.id);
      LaterStart(h, h1, 0, MOST_HOPS, h', c'.id);
    } else {
      NoHop(h1, 0, MOST_HOPS);
      OneOpenedNone(c.id, h1);
      LaterStart(h, h1, 0, MOST_HOPS, h1, c.id);
    }
    OpenNotClosed(c1, h1);
    FitsNotClosed(net, c, h, script, ps, first);
  }

  lemma OpenNotClosed(c: Conn, h: History)
    requires Fits(c, h)
    ensures Closed(c.id) !in h
  {}

  lemma FitsNotClosed(net: Network, c: Conn, h: History, script: Str, ps: map<Str, Value>, first: Redirect)
    ensures var (asked, c', h') := Follow(net, c, h, script, ps, first); Fits(c', h') ==> Closed(c'.id) !in h'
  {}

  lemma ContextOnly(id: nat, h: History, h1: History)
    requires Only(id, h, h1)
    ensures h <= h1 && |h| <= |h1|
    ensures forall i :: |h| <= i < |h1| ==> !h1[i].Greeted? && !h1[i].Dialled?
  {}

  /** What holds from a little later holds from now, when nothing was dialled in between. */
  lemma LaterStart(h: History, h1: History, floor: UInt64, most: nat, h': History, kept: nat)
    requires h <= h1 <= h' && Causes(h1) == Causes(h) && Requests(h1) == Requests(h)
    requires forall i :: |h| <= i < |h1| ==> !h1[i].Dialled?
    requires HopsWell(h1, floor, most, h') && AllClosedBut(kept, h1, h')
    ensures HopsWell(h, floor, most, h') && AllClosedBut(kept, h, h')
  {
    hide Causes, Requests;
    RisingFrom(|h|, |h1|, Requests(h')[|Requests(h)|..]);
  }

  lemma ExecuteKeeps(net: Network, c: Conn, h: History, script: Str, ps: map<Str, Value>)
    requires Home(c, h)
    ensures var (asked, c', h') := Execute(net, c, h, script, ps); Home(c', h') && h <= h' && !asked.Elsewhere?
  {
    hide Fits, Lawful, Heard, Causes, Requests, Trusted, HopsWell, AllClosedBut, Ask, Follow;
    AskKeeps(net, c, h, script, ps, Asking);
    var (asked, c1, h1) := Ask(net, c, h, script, ps, Asking);
    TrustedStays(h, h1, c.id);
    if asked.Elsewhere? { FollowKeeps(net, c1, h1, script, ps, asked.redirect); }
  }

  lemma VaultKeeps(net: Network, c: Conn, h: History, place: Option<Place>, act: Act)
    requires Home(c, h)
    ensures var (asked, c', h') := VaultFrame(net, c, h, place, act); Home(c', h') && h <= h'
  {
    hide Fits, Lawful, Trusted, Exchange, Causes, Requests, Understood;
    var m := Vault(Unspent(c), place, act);
    if c.minor >= NeededMinor(m) && !c.subscribed {
      ExchangeKeeps(net, c, h, m, Asking);
      var (_, _, h') := Exchange(net, c, h, m, Asking);
      TrustedStays(h, h', c.id);
      SpendingFits(c, m, h');
    }
  }

  lemma SubscribeKeeps(net: Network, c: Conn, h: History, from: UInt64, table: Str, cursor: Str, n: Option<Narrowing>)
    requires Home(c, h)
    ensures var (_, c', h') := SubscribeFrom(net, c, h, from, table, cursor, n); Home(c', h') && h <= h'
  {
    hide Fits, Lawful, Trusted, Send, Causes, Requests;
    var m := Subscribe(from, table, cursor, n);
    if !c.subscribed && NeededMinor(m) <= c.minor {
      SendKeeps(net, c, h, m, Asking);
      var (_, h') := Send(net, c, h, m, Asking);
      TrustedStays(h, h', c.id);
    }
  }

  lemma {:induction false} RunKeeps(net: Network, c: Conn, h: History, calls: seq<Call>)
    requires Home(c, h)
    ensures var (c', h') := Run(net, c, h, calls); Home(c', h') && h <= h'
    decreases |calls|
  {
    hide Home, Execute, VaultFrame, SubscribeFrom;
    if calls != [] {
      match calls[0] {
        case Statement(script, ps) => ExecuteKeeps(net, c, h, script, ps);
        case VaultAct(place, act) => VaultKeeps(net, c, h, place, act);
        case Changes(from, table, cursor, n) => SubscribeKeeps(net, c, h, from, table, cursor, n);
      }
      var (c', h') := After(net, c, h, calls[0]);
      RunKeeps(net, c', h', calls[1..]);
    }
  }

  /** All that passes when a caller dials a node and makes these calls. */
  ghost function Conversation(net: Network, credentials: Option<Credentials>, calls: seq<Call>): History {
    var (c, h) := Dial(net, credentials, Nothing, []);
    if c.Nothing? then h else Run(net, c.value, h, calls).1
  }

  /** From the first dial to the last call of any run, against any nodes, the law holds. */
  lemma EveryRunIsLawful(net: Network, credentials: Option<Credentials>, calls: seq<Call>)
    ensures Lawful(Conversation(net, credentials, calls))
  {
    hide Run, Lawful, Fits;
    NothingIsLawful();
    DialKeeps(net, credentials, Nothing, []);
    var (c, h) := Dial(net, credentials, Nothing, []);
    if c.Some? {
      assert Trusted(h, 0);
      RunKeeps(net, c.value, h, calls);
    }
  }

  lemma NothingIsLawful()
    ensures Lawful([])
  {}

  // ---------- the law, read out ----------

  /** At most one frame on a connection carries credentials. */
  lemma OneFrameCarriesCredentials(net: Network, credentials: Option<Credentials>, calls: seq<Call>, i: nat, j: nat)
    requires var h := Conversation(net, credentials, calls);
             i < j < |h| && h[i].Sent? && h[j].Sent? && h[i].id == h[j].id
    ensures var h := Conversation(net, credentials, calls); !(Carries(h[i].message) && Carries(h[j].message))
  {
    hide Carries, NeededMinor, Conversation;
    EveryRunIsLawful(net, credentials, calls);
    var h := Conversation(net, credentials, calls);
    assert Allowed(h[..j], h[j]);
    assert h[..j][i] == h[i];
    if Carries(h[i].message) { assert CarriedAt(h[..j][i], h[j].id); }
  }

  /** Nothing is sent on a connection that was subscribed. */
  lemma NothingFollowsASubscription(net: Network, credentials: Option<Credentials>, calls: seq<Call>, i: nat, j: nat)
    requires var h := Conversation(net, credentials, calls); i < j < |h| && h[j].Sent?
    ensures var h := Conversation(net, credentials, calls); !SubscribedAt(h[i], h[j].id)
  {
    hide Carries, NeededMinor, Conversation;
    EveryRunIsLawful(net, credentials, calls);
    var h := Conversation(net, credentials, calls);
    assert Allowed(h[..j], h[j]);
    assert h[..j][i] == h[i];
  }

  /** The node on a connection announced this minor before event j. */
  ghost predicate Announced(h: History, j: nat, id: nat, minor: Byte)
    requires j <= |h|
  {
    Greeted(id, minor) in h[..j]
  }

  /**
   Every frame goes to a node that greeted first; and what an older node could not read goes only where
   every greeting announced the minor for it.
   */
  lemma NewFramesReachOnlyNewNodes(net: Network, credentials: Option<Credentials>, calls: seq<Call>, j: nat)
    requires var h := Conversation(net, credentials, calls); j < |h| && h[j].Sent?
    ensures var h := Conversation(net, credentials, calls); exists minor: Byte :: Announced(h, j, h[j].id, minor)
    ensures var h := Conversation(net, credentials, calls);
            forall minor: Byte :: Announced(h, j, h[j].id, minor) ==>
              && (h[j].message.Vault? ==> minor >= 2)
              && (h[j].message.Vault? && h[j].message.act.Declare? ==> minor >= 6)
              && (h[j].message.Subscribe? && h[j].message.narrowing.Some? ==> minor >= 4)
  {
    hide Carries, Conversation;
    EveryRunIsLawful(net, credentials, calls);
    var h := Conversation(net, credentials, calls);
    assert Allowed(h[..j], h[j]);
    var minor: Byte :| Greeted(h[j].id, minor) in h[..j];
    assert Announced(h, j, h[j].id, minor);
  }

  lemma NothingIsSentOnAClosedConnection(
    net: Network, credentials: Option<Credentials>, calls: seq<Call>, i: nat, j: nat)
    requires var h := Conversation(net, credentials, calls); i < j < |h| && h[j].Sent?
    ensures var h := Conversation(net, credentials, calls); h[i] != Closed(h[j].id)
  {
    hide Carries, NeededMinor, Conversation;
    EveryRunIsLawful(net, credentials, calls);
    var h := Conversation(net, credentials, calls);
    assert Allowed(h[..j], h[j]);
    assert h[i] == h[..j][i];
  }

  /** A request reaches a node a redirect named only after that node, asked, said it is that node. */
  lemma RequestsReachTheNodeNamed(net: Network, credentials: Option<Credentials>, calls: seq<Call>, j: nat)
    requires var h := Conversation(net, credentials, calls); j < |h| && h[j].Sent? && h[j].purpose == Asking
    ensures var h := Conversation(net, credentials, calls);
            && h[j].id < j && h[h[j].id].Dialled?
            && (h[h[j].id].cause.Some? ==> Vouched(h[..j], h[j].id, h[h[j].id].cause.value.node))
  {
    hide Conversation, Vouched, Open, SpentOn, SubscribedOn;
    EveryRunIsLawful(net, credentials, calls);
    var h := Conversation(net, credentials, calls);
    assert Allowed(h[..j], h[j]);
  }
}
