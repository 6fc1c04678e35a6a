/** Where a request goes after a redirect: to the node named, with the session's tenancy selected there (follow.go). */
module TenancyLaws {
  import opened Words
  import opened Values
  import opened Texts
  import opened Connections
  import opened MessageLaws
  import opened Exchanges
  import opened CallLaws
  import L = ConnectionLaws

  // ---------- what a request on a redirected connection has behind it ----------

  /** A whole frame came back on this connection. */
  predicate Heard(h: History, i: nat, id: nat) {
    i < |h| && h[i].Received? && h[i].id == id && h[i].arrival.Whole?
  }

  /** A context question on this connection, answered at once with this context. */
  predicate ToldAt(h: History, q: nat, id: nat, context: map<Str, Value>) {
    && q + 1 < |h| && h[q].Sent? && h[q].id == id && h[q].delivered && h[q].message.Request?
    && h[q].message.script == Ascii("RETURN session::context();") && h[q].message.parameters == map[]
    && Heard(h, q + 1, id) && Gives(Understood(h[q + 1].arrival.frame), context)
  }

  /**
   The session whose request was redirected told its context at q, and from then until k nothing happened but on
   connections dialled since.
   */
  predicate SinceTold(h: History, q: nat, k: nat, context: map<Str, Value>) {
    && 0 < q && q + 1 < k <= |h| && ToldAt(h, q, h[q].id, context)
    && Heard(h, q - 1, h[q].id) && Understood(h[q - 1].arrival.frame).Elsewhere?
    && forall i :: q + 1 < i < k ==> h[i].id > q + 1
  }

  /** On this connection that tenancy was selected, and nothing else done, and the node did not refuse it. */
  predicate SelectedAt(h: History, s: nat, id: nat, tenancy: Tenancy) {
    && s + 1 < |h| && h[s].Sent? && h[s].id == id && h[s].delivered && h[s].message.Request?
    && h[s].message.parameters == map[]
    && ReadSelection(h[s].message.script) == Some((tenancy.namespace, tenancy.database))
    && Heard(h, s + 1, id) && !Understood(h[s + 1].arrival.frame).Erred?
  }

  /** After v and before `before`, on this connection; where the session had no tenancy there is nothing to select. */
  ghost predicate Selected(h: History, id: nat, tenancy: Tenancy, v: nat, before: nat) {
    tenancy == Tenancy(Nothing, Nothing)
    || exists s: nat :: v + 1 < s && s + 1 < before && SelectedAt(h, s, id, tenancy)
  }

  /** The node said at v that it is the one the redirect named. */
  ghost predicate NamedAt(h: History, v: nat, id: nat, node: Sixteen) {
    exists there :: ToldAt(h, v, id, there) && NamesNode(there, node)
  }

  /** What the node vouched for at v, and the tenancy of the session that told its context at q, selected after it. */
  ghost predicate PreparedBy(
    h: History, id: nat, node: Sixteen, before: nat, q: nat, v: nat, context: map<Str, Value>)
  {
    && SinceTold(h, q, id, context) && id < v && v + 1 < before
    && NamedAt(h, v, id, node) && Selected(h, id, TenancyIn(context), v, before)
  }

  /** The connection was dialled by the caller; or by a redirect, and then its node and its tenancy are as they must. */
  ghost predicate Prepared(h: History, id: nat, before: nat) {
    && id < before <= |h| && h[id].Dialled?
    && (h[id].cause.Some? ==>
          exists q: nat, v: nat, context :: PreparedBy(h, id, h[id].cause.value.node, before, q, v, context))
  }

  /** Every request of a caller between these two places. */
  ghost predicate AllPrepared(h: History, from: nat, upTo: nat)
    requires upTo <= |h|
  {
    forall j :: from <= j < upTo && h[j].Sent? && h[j].purpose == Asking ==> Prepared(h, h[j].id, j)
  }

  // ---------- it stays so ----------

  lemma PreparedByLater(
    h: History, h': History, id: nat, node: Sixteen, before: nat, later: nat, q: nat, v: nat,
    context: map<Str, Value>)
    requires h <= h' && PreparedBy(h, id, node, before, q, v, context) && before <= later <= |h'|
    ensures PreparedBy(h', id, node, later, q, v, context)
  {
    hide Understood, Ascii, ReadSelection, TenancyIn, NamesNode, Gives;
    assert forall i :: 0 <= i < |h| ==> h'[i] == h[i];
    var there :| ToldAt(h, v, id, there) && NamesNode(there, node);
    assert ToldAt(h', v, id, there);
    var tenancy := TenancyIn(context);
    if tenancy != Tenancy(Nothing, Nothing) {
      var s: nat :| v + 1 < s && s + 1 < before && SelectedAt(h, s, id, tenancy);
      assert SelectedAt(h', s, id, tenancy);
    }
  }

  lemma PreparedLater(h: History, h': History, id: nat, before: nat, later: nat)
    requires h <= h' && Prepared(h, id, before) && before <= later <= |h'|
    ensures Prepared(h', id, later)
  {
    hide PreparedBy;
    if h[id].cause.Some? {
      var node := h[id].cause.value.node;
      var q: nat, v: nat, context :| PreparedBy(h, id, node, before, q, v, context);
      PreparedByLater(h, h', id, node, before, later, q, v, context);
    }
  }

  lemma TogetherPrepared(h: History, a: nat, b: nat, c: nat)
    requires a <= b <= c <= |h| && AllPrepared(h, a, b) && AllPrepared(h, b, c)
    ensures AllPrepared(h, a, c)
  {
    hide Prepared;
  }

  lemma ClosingIsPrepared(h: History, k: nat)
    requires k < |h| && h[k].Closed?
    ensures AllPrepared(h, k, k + 1)
  {
    hide Prepared;
  }

  lemma OneIsPrepared(h: History, k: nat, id: nat, end: nat)
    requires Prepared(h, id, k) && k <= end <= |h|
    requires forall i :: k <= i < end && h[i].Sent? ==> i == k && h[i].id == id
    ensures AllPrepared(h, k, end) && Prepared(h, id, end)
  {
    hide Prepared;
    PreparedLater(h, h, id, k, end);
  }

  // ---------- one request ----------

  /** One request and its reply happen on that connection, and the request is at their beginning. */
  lemma AsksHere(h: History, k: nat, voice: Voice, errand: Errand, purpose: Purpose, reply: Asked, end: nat)
    requires Asks(h, k, voice, errand, purpose, reply, end)
    ensures k <= end <= |h| && forall i :: k <= i < end ==> h[i].id == voice.id
    ensures forall i :: k <= i < end && h[i].Sent? ==> i == k && h[i].purpose == purpose
    ensures !reply.Erred? ==>
              && end == k + 2 && SentAt(h[k], voice, errand, purpose, true) && Heard(h, k + 1, voice.id)
              && Understood(h[k + 1].arrival.frame) == reply
  {
    hide Unsent, Accepted, Understood;
  }

  lemma ContextHere(h: History, k: nat, voice: Voice, reply: Asked, end: nat)
    requires AsksContext(h, k, voice, reply, end)
    ensures k <= end <= |h| && (forall i :: k <= i < end ==> h[i].id == voice.id) && AllPrepared(h, k, end)
  {
    hide Asks, Ascii, Prepared;
    AsksHere(h, k, voice, Errand(Ascii("RETURN session::context();"), map[]), Checking, reply, end);
  }

  lemma ToldHere(h: History, k: nat, voice: Voice, reply: Asked, end: nat, context: map<Str, Value>)
    requires AsksContext(h, k, voice, reply, end) && Gives(reply, context)
    ensures end == k + 2 && ToldAt(h, k, voice.id, context)
  {
    hide Asks, Understood, Ascii;
    AsksHere(h, k, voice, Errand(Ascii("RETURN session::context();"), map[]), Checking, reply, end);
  }

  lemma SelectedHere(h: History, k: nat, id: nat, use: Str, selected: Asked, end: nat, tenancy: Tenancy)
    requires Asks(h, k, Settled(id), Errand(use, map[]), Selecting, selected, end) && !selected.Erred?
    requires ReadSelection(use) == Some((tenancy.namespace, tenancy.database))
    ensures end == k + 2 && SelectedAt(h, k, id, tenancy)
  {
    hide Asks, Understood, ReadSelection;
    AsksHere(h, k, Settled(id), Errand(use, map[]), Selecting, selected, end);
  }

  // ---------- one visit ----------

  /** A node that a redirect named, dialled at id for the session that told its context at q. */
  ghost predicate Underway(h: History, id: nat, node: Sixteen, q: nat, context: map<Str, Value>) {
    && id < |h| && SinceTold(h, q, id, context)
    && h[id].Dialled? && h[id].cause.Some? && h[id].cause.value.node == node
  }

  /** The request itself, once there is no tenancy or it has been selected. */
  lemma AskIsPrepared(
    h: History, k: nat, id: nat, errand: Errand, reply: Asked, end: nat, node: Sixteen, q: nat, v: nat,
    context: map<Str, Value>)
    requires Asks(h, k, Settled(id), errand, Asking, reply, end)
    requires id < k && h[id].Dialled? && h[id].cause.Some? && h[id].cause.value.node == node
    requires PreparedBy(h, id, node, k, q, v, context)
    ensures k <= end <= |h| && AllPrepared(h, k, end) && Prepared(h, id, end)
    ensures forall i :: k <= i < end ==> h[i].id == id
  {
    hide Asks, PreparedBy, AllPrepared;
    AsksHere(h, k, Settled(id), errand, Asking, reply, end);
    assert Prepared(h, id, k);
    OneIsPrepared(h, k, id, end);
  }

  lemma SelectsPrepared(
    h: History, k: nat, id: nat, errand: Errand, reply: Asked, end: nat, node: Sixteen, q: nat, v: nat,
    context: map<Str, Value>)
    requires SelectsAndAsks(h, k, id, TenancyIn(context), errand, reply, end)
    requires Underway(h, id, node, q, context) && id < v && k == v + 2 && NamedAt(h, v, id, node)
    ensures k <= end <= |h| && AllPrepared(h, k, end) && (reply.Answered? ==> Prepared(h, id, end))
    ensures forall i :: k <= i < end ==> h[i].id == id
  {
    hide Asks, TenancyIn, SinceTold, NamedAt, Prepared, Understood, ReadSelection, SelectedAt;
    var tenancy := TenancyIn(context);
    var use: Str, selected: Asked, k2: nat :| SelectsBy(h, k, id, tenancy, errand, use, selected, k2, reply, end);
    AsksHere(h, k, Settled(id), Errand(use, map[]), Selecting, selected, k2);
    if !selected.Erred? {
      SelectedHere(h, k, id, use, selected, k2, tenancy);
      assert Selected(h, id, tenancy, v, k2);
      AskIsPrepared(h, k2, id, errand, reply, end, node, q, v, context);
    }
  }

  lemma ProceedPrepares(
    h: History, k: nat, id: nat, node: Sixteen, errand: Errand, there: map<Str, Value>, reply: Asked, end: nat, q: nat,
    context: map<Str, Value>)
    requires Proceeds(h, k, id, node, TenancyIn(context), errand, there, reply, end) && k == id + 4 <= |h|
    requires Underway(h, id, node, q, context) && ToldAt(h, id + 2, id, there)
    ensures k <= end <= |h| && AllPrepared(h, k, end) && (reply.Answered? ==> Prepared(h, id, end))
    ensures forall i :: k <= i < end ==> h[i].id == id
  {
    hide Asks, TenancyIn, SinceTold, Prepared, Understood, SelectsAndAsks, ToldAt, NamesNode;
    if NamesNode(there, node) {
      assert NamedAt(h, id + 2, id, node);
      if TenancyIn(context) == Tenancy(Nothing, Nothing) {
        assert PreparedBy(h, id, node, k, q, id + 2, context);
        AskIsPrepared(h, k, id, errand, reply, end, node, q, id + 2, context);
      } else {
        SelectsPrepared(h, k, id, errand, reply, end, node, q, id + 2, context);
      }
    }
  }

  /** All that happens on a node a redirect named: the request, if it is sent, has everything behind it. */
  lemma VisitPrepares(
    h: History, id: nat, who: Option<Credentials>, node: Sixteen, errand: Errand, reply: Asked, end: nat, q: nat,
    context: map<Str, Value>)
    requires Visits(h, id + 2, id, who, node, TenancyIn(context), errand, reply, end)
    requires Underway(h, id, node, q, context)
    ensures id + 2 <= end <= |h| && AllPrepared(h, id + 2, end) && (reply.Answered? ==> Prepared(h, id, end))
    ensures forall i :: id + 2 <= i < end ==> h[i].id == id
  {
    hide TenancyIn, Prepared, AllPrepared, Gives, AsksContext, Proceeds, Underway;
    var v, voice := id + 2, Voice(id, false, who);
    var first: Asked, k1: nat :|
      && AsksContext(h, v, voice, first, k1)
      && if Tells(first)
         then exists there :: Gives(first, there)
                              && Proceeds(h, k1, id, node, TenancyIn(context), errand, there, reply, end)
         else NotTold(first, reply) && end == k1;
    ContextHere(h, v, voice, first, k1);
    if Tells(first) {
      var there :| Gives(first, there) && Proceeds(h, k1, id, node, TenancyIn(context), errand, there, reply, end);
      ToldHere(h, v, voice, first, k1, there);
      ProceedPrepares(h, k1, id, node, errand, there, reply, end, q, context);
      TogetherPrepared(h, v, k1, end);
    }
  }

  // ---------- hop by hop ----------

  lemma HopSplits(
    h: History, k: nat, trip: Trip, redirect: Redirect, floor: UInt64, left: nat, reply: Asked, kept: nat, end: nat)
    returns (there: Asked, k1: nat)
    requires Hops(h, k, trip, redirect, floor, left, reply, kept, end)
    requires left > 0 && redirect.epoch >= floor && Met(h, k, redirect)
    ensures Hopped(h, k, trip, redirect, there, k1) && h[k1].Closed?
    ensures there.Elsewhere? ==>
              && h[k1] == Closed(k)
              && Hops(h, k1 + 1, trip, there.redirect, redirect.epoch, left - 1, reply, kept, end)
    ensures !there.Elsewhere? ==> end == k1 + 1 && (kept == trip.home || (kept == k && there.Answered?))
  {
    hide Visits, Met;
    there, k1 :|
      && Hopped(h, k, trip, redirect, there, k1)
      && if there.Elsewhere? then
           && h[k1] == Closed(k)
           && Hops(h, k1 + 1, trip, there.redirect, redirect.epoch, left - 1, reply, kept, end)
         else
           && reply == there && end == k1 + 1
           && if there.Answered? && redirect.settled then h[k1] == Closed(trip.home) && kept == k
              else h[k1] == Closed(k) && kept == trip.home;
  }

  lemma NoHopsHere(
    h: History, k: nat, trip: Trip, redirect: Redirect, floor: UInt64, left: nat, reply: Asked, kept: nat, end: nat)
    requires Hops(h, k, trip, redirect, floor, left, reply, kept, end) && k <= |h|
    requires left == 0 || redirect.epoch < floor || !Met(h, k, redirect)
    ensures k <= end <= |h| && AllPrepared(h, k, end) && kept == trip.home
  {
    hide Hopped, Met, Prepared;
  }

  /** Met at k, with the session told at q: what a visit needs to know. */
  lemma MetUnderway(h: History, k: nat, redirect: Redirect, q: nat, context: map<Str, Value>)
    requires Met(h, k, redirect) && SinceTold(h, q, k, context)
    ensures Underway(h, k, redirect.node, q, context) && AllPrepared(h, k, k + 2) && h[k].id == k && h[k + 1].id == k
  {
    hide Understood, ToldAt, Prepared;
  }

  lemma SinceMore(h: History, q: nat, k: nat, end: nat, context: map<Str, Value>)
    requires SinceTold(h, q, k, context) && k <= end <= |h| && forall i :: k <= i < end ==> h[i].id == k
    ensures SinceTold(h, q, end, context)
  {
    hide Understood, ToldAt;
  }

  lemma SinceIsShort(h: History, q: nat, k: nat, context: map<Str, Value>)
    requires SinceTold(h, q, k, context)
    ensures k <= |h|
  {}

  /** Every hop of a redirect: each request is prepared, and so is the connection that is kept. */
  lemma {:induction false} HopsPrepare(
    h: History, k: nat, trip: Trip, redirect: Redirect, floor: UInt64, left: nat, reply: Asked, kept: nat, end: nat,
    q: nat, context: map<Str, Value>)
    requires Hops(h, k, trip, redirect, floor, left, reply, kept, end)
    requires trip.tenancy == TenancyIn(context) && SinceTold(h, q, k, context)
    ensures k <= end <= |h| && AllPrepared(h, k, end) && (kept != trip.home ==> Prepared(h, kept, end))
    decreases left
  {
    hide TenancyIn, Prepared, SinceTold, Visits, Hops, Underway, AllPrepared, Met;
    SinceIsShort(h, q, k, context);
    if left == 0 || redirect.epoch < floor || !Met(h, k, redirect) {
      NoHopsHere(h, k, trip, redirect, floor, left, reply, kept, end);
    } else {
      var there, k1 := HopSplits(h, k, trip, redirect, floor, left, reply, kept, end);
      MetUnderway(h, k, redirect, q, context);
      VisitPrepares(h, k, trip.who, redirect.node, trip.errand, there, k1, q, context);
      TogetherPrepared(h, k, k + 2, k1);
      ClosingIsPrepared(h, k1);
      TogetherPrepared(h, k, k1, k1 + 1);
      if there.Elsewhere? {
        SinceMore(h, q, k, k1 + 1, context);
        HopsPrepare(h, k1 + 1, trip, there.redirect, redirect.epoch, left - 1, reply, kept, end, q, context);
        TogetherPrepared(h, k, k1 + 1, end);
      } else if kept != trip.home {
        PreparedLater(h, h, k, k1, end);
      }
    }
  }

  // ---------- whole calls ----------

  lemma GoingOnPrepares(
    h: History, k: nat, c: Conn, errand: Errand, redirect: Redirect, context: map<Str, Value>, reply: Asked, kept: nat,
    end: nat, q: nat)
    requires GoesOn(h, k, c, errand, redirect, context, reply, kept, end)
    requires SinceTold(h, q, k, context) && k == q + 2 && AllPrepared(h, q, k)
    ensures k <= end <= |h| && AllPrepared(h, q, end) && (kept != c.id ==> Prepared(h, kept, end))
  {
    hide TenancyIn, Prepared, SinceTold, Hops, AllPrepared, Plain;
    SinceIsShort(h, q, k, context);
    var tenancy := TenancyIn(context);
    if Plain(tenancy) {
      HopsPrepare(h, k, Trip(c.id, c.credentials, tenancy, errand), redirect, 0, 3, reply, kept, end, q, context);
      TogetherPrepared(h, q, k, end);
    }
  }

  /** A redirected statement, from the context question on. */
  lemma FollowPrepares(
    h: History, k: nat, c: Conn, voice: Voice, errand: Errand, redirect: Redirect, reply: Asked, kept: nat, end: nat)
    requires Follows(h, k, c, voice, errand, redirect, reply, kept, end)
    requires 0 < k && Heard(h, k - 1, voice.id) && Understood(h[k - 1].arrival.frame).Elsewhere?
    ensures k <= end <= |h| && AllPrepared(h, k, end) && (kept != c.id ==> Prepared(h, kept, end))
  {
    hide AsksContext, Gives, GoesOn, Prepared, Understood, NotTold, ToldAt, AllPrepared;
    var told: Asked, k1: nat :|
      && AsksContext(h, k, voice, told, k1)
      && if Tells(told)
         then exists context :: Gives(told, context) && GoesOn(h, k1, c, errand, redirect, context, reply, kept, end)
         else NotTold(told, reply) && kept == c.id && end == k1;
    ContextHere(h, k, voice, told, k1);
    if Tells(told) {
      var context :| Gives(told, context) && GoesOn(h, k1, c, errand, redirect, context, reply, kept, end);
      ToldHere(h, k, voice, told, k1, context);
      assert h[k].id == voice.id;
      GoingOnPrepares(h, k1, c, errand, redirect, context, reply, kept, end, k);
    }
  }

  lemma StatementPrepares(h: History, k: nat, c: Conn, errand: Errand, reply: Asked, kept: nat, end: nat)
    requires Executes(h, k, c, errand, reply, kept, end) && Prepared(h, c.id, k)
    ensures k <= end <= |h| && AllPrepared(h, k, end) && Prepared(h, kept, end)
  {
    hide Asks, Follows, Prepared, AllPrepared, Understood;
    var first: Asked, k1: nat :|
      && Asks(h, k, VoiceOf(c), errand, Asking, first, k1)
      && if first.Elsewhere? then Follows(h, k1, c, Settled(c.id), errand, first.redirect, reply, kept, end)
         else reply == first && kept == c.id && end == k1;
    AsksHere(h, k, VoiceOf(c), errand, Asking, first, k1);
    OneIsPrepared(h, k, c.id, k1);
    if first.Elsewhere? {
      FollowPrepares(h, k1, c, Settled(c.id), errand, first.redirect, reply, kept, end);
      TogetherPrepared(h, k, k1, end);
      if kept == c.id { PreparedLater(h, h, c.id, k1, end); }
    }
  }

  /** All requests so far, and any that would be sent on this connection now. */
  ghost predicate Ready(c: Conn, h: History) {
    AllPrepared(h, 0, |h|) && Prepared(h, c.id, |h|)
  }

  lemma GrownPrepared(h: History, h': History)
    requires h <= h' && AllPrepared(h, 0, |h|)
    ensures AllPrepared(h', 0, |h|)
  {
    hide Prepared;
    forall j | 0 <= j < |h| && h'[j].Sent? && h'[j].purpose == Asking ensures Prepared(h', h'[j].id, j) {
      assert h[j] == h'[j];
      PreparedLater(h, h', h'[j].id, j, j);
    }
  }

  /** One frame at most, on the caller's own connection. */
  lemma OneFrameIsReady(c: Conn, h: History, c': Conn, h': History)
    requires Ready(c, h) && c'.id == c.id && h <= h'
    requires forall i :: |h| <= i < |h'| && h'[i].Sent? ==> i == |h| && h'[i].id == c.id
    ensures Ready(c', h')
  {
    hide Prepared, AllPrepared;
    GrownPrepared(h, h');
    PreparedLater(h, h', c.id, |h|, |h|);
    OneIsPrepared(h', |h|, c.id, |h'|);
    TogetherPrepared(h', 0, |h|, |h'|);
  }

  lemma StatementIsReady(net: Network, c: Conn, h: History, script: Str, ps: map<Str, Value>)
    requires Ready(c, h)
    ensures var (_, c', h') := Execute(net, c, h, script, ps); Ready(c', h')
  {
    hide Execute, Executes, Prepared, AllPrepared;
    var (asked, c', h') := Execute(net, c, h, script, ps);
    ExecuteGoes(net, c, h, script, ps);
    PreparedLater(h, h', c.id, |h|, |h|);
    StatementPrepares(h', |h|, c, Errand(script, ps), asked, c'.id, |h'|);
    GrownPrepared(h, h');
    TogetherPrepared(h', 0, |h|, |h'|);
  }

  lemma VaultSaysOne(net: Network, c: Conn, h: History, place: Option<Place>, act: Act)
    ensures var (_, c', h') := VaultFrame(net, c, h, place, act);
            && c'.id == c.id && h <= h'
            && forall i :: |h| <= i < |h'| && h'[i].Sent? ==> i == |h| && h'[i].id == c.id
  {
    hide MessageBytes, Understood, NeededMinor, VaultFrame, AllAccepted;
    VaultIsOneExchange(net, c, h, place, act);
  }

  lemma CallIsReady(net: Network, c: Conn, h: History, call: Call)
    requires Ready(c, h)
    ensures var (c', h') := After(net, c, h, call); Ready(c', h')
  {
    hide Ready, MessageBytes, Execute, VaultFrame, Accepted, NeededMinor;
    var (c', h') := After(net, c, h, call);
    match call
    case Statement(script, ps) => StatementIsReady(net, c, h, script, ps);
    case VaultAct(place, act) =>
      VaultSaysOne(net, c, h, place, act);
      OneFrameIsReady(c, h, c', h');
    case Changes(from, table, cursor, n) => OneFrameIsReady(c, h, c', h');
  }

  lemma {:induction false} RunIsReady(net: Network, c: Conn, h: History, calls: seq<Call>)
    requires Ready(c, h)
    ensures var (c', h') := Connections.Run(net, c, h, calls); Ready(c', h')
    decreases |calls|
  {
    hide Ready, After;
    if calls != [] {
      CallIsReady(net, c, h, calls[0]);
      var (c', h') := After(net, c, h, calls[0]);
      RunIsReady(net, c', h', calls[1..]);
    }
  }

  lemma FreshIsReady(net: Network, credentials: Option<Credentials>)
    ensures var (c, h) := Dial(net, credentials, Nothing, []); c.Some? ==> Ready(c.value, h)
  {}

  /**
   In every run, against any nodes: a request on a connection that a redirect dialled comes after that node, asked,
   said it is the node of the redirect; and then, where the session that was redirected had a namespace or a database,
   after a script that selects exactly those and that the node did not refuse.
   */
  lemma EveryRequestIsPrepared(net: Network, credentials: Option<Credentials>, calls: seq<Call>, j: nat)
    requires var h := L.Conversation(net, credentials, calls);
             j < |h| && h[j].Sent? && h[j].purpose == Asking
    ensures var h := L.Conversation(net, credentials, calls); Prepared(h, h[j].id, j)
  {
    hide Connections.Run, Prepared;
    var (c, h) := Dial(net, credentials, Nothing, []);
    if c.Some? {
      FreshIsReady(net, credentials);
      RunIsReady(net, c.value, h, calls);
    }
  }
}
