/** When the first frame of a connection carries the credentials, and when they are lost (conn.go, vault_frame.go). */
module CredentialLaws {
  import opened Words
  import opened Values
  import opened Connections
  import opened Exchanges
  import opened ConnectionLaws
  import F = Frames

  /** A frame that could carry credentials: a Request or a Vault frame. */
  predicate Talks(e: Event, id: nat) {
    e.Sent? && e.id == id && !e.message.Subscribe?
  }

  ghost predicate Silent(h: History, id: nat) {
    forall i :: 0 <= i < |h| ==> !Talks(h[i], id)
  }

  /** Event j is the first such frame on this connection. */
  ghost predicate FirstOn(h: History, j: nat, id: nat) {
    j < |h| && Talks(h[j], id) && forall i :: 0 <= i < j ==> !Talks(h[i], id)
  }

  /**
   What a caller can check before a call: on a connection as it was dialled, the call would spend the
   credentials and send nothing, because a parameter cannot be written or the body is over the ceiling.
   */
  ghost predicate Spoils(dialled: Conn, call: Call) {
    match call
    case Statement(script, ps) =>
      !AllAccepted(ps) || |MessageBytes(Request(script, dialled.credentials, ps))| > F.CEILING
    case VaultAct(place, act) =>
      var m := Vault(dialled.credentials, place, act);
      dialled.minor >= NeededMinor(m) && |MessageBytes(m)| > F.CEILING
    case Changes(_, _, _, _) => false
  }

  /** Which call it was that event j belongs to. */
  ghost function CallAt(net: Network, c: Conn, h: History, calls: seq<Call>, j: nat): (k: nat)
    ensures k <= |calls|
    decreases |calls|
  {
    if calls == [] then 0
    else
      var (c1, h1) := After(net, c, h, calls[0]);
      if j < |h1| then 0 else 1 + CallAt(net, c1, h1, calls[1..], j)
  }

  // ---------- one call on a connection that has sent nothing yet ----------

  /**
   The call's frame is the first and carries what was not spent; or nothing is sent, and only a spoiling call
   spends.
   */
  ghost predicate Opens(dialled: Conn, c: Conn, h: History, call: Call, c': Conn, h': History) {
    && h <= h'
    && if |h| < |h'| && Talks(h'[|h|], c.id) then (Carries(h'[|h|].message) <==> !c.spent)
       else Silent(h', c.id) && c' == c.(spent := c'.spent, subscribed := c'.subscribed)
            && (c'.spent <==> c.spent || Spoils(dialled, call))
  }

  lemma StatementOpens(net: Network, dialled: Conn, c: Conn, h: History, script: Str, ps: map<Str, Value>)
    requires c.credentials.Some? && dialled.credentials == c.credentials && !c.subscribed && Silent(h, c.id)
             && c.id < |h|
    ensures var (c', h') := After(net, c, h, Statement(script, ps)); Opens(dialled, c, h, Statement(script, ps), c', h')
  {
    hide MessageBytes, AllAccepted, Ask, Follow, Understood;
    AskIsOneExchange(net, c, h, script, ps, Asking);
    var (asked, c1, h1) := Ask(net, c, h, script, ps, Asking);
    if asked.Elsewhere? { FollowSays(net, c1, h1, script, ps, asked.redirect); }
  }

  lemma VaultOpens(net: Network, dialled: Conn, c: Conn, h: History, place: Option<Place>, act: Act)
    requires c.credentials.Some? && dialled.credentials == c.credentials && dialled.minor == c.minor
    requires !c.subscribed && Silent(h, c.id)
    ensures var (c', h') := After(net, c, h, VaultAct(place, act)); Opens(dialled, c, h, VaultAct(place, act), c', h')
  {
    hide MessageBytes, VaultFrame, Understood;
    VaultIsOneExchange(net, c, h, place, act);
  }

  lemma ChangesOpen(net: Network, dialled: Conn, c: Conn, h: History, call: Call)
    requires call.Changes? && Silent(h, c.id)
    ensures var (c', h') := After(net, c, h, call); Opens(dialled, c, h, call, c', h')
  {
    hide MessageBytes, AllAccepted, NeededMinor;
    var (c', h') := After(net, c, h, call);
    assert |h| < |h'| ==> h'[|h|].message.Subscribe? && |h'| == |h| + 1;
  }

  lemma CallOpens(net: Network, dialled: Conn, c: Conn, h: History, call: Call)
    requires c.credentials.Some? && dialled.credentials == c.credentials && dialled.minor == c.minor
    requires !c.subscribed && Silent(h, c.id) && c.id < |h|
    ensures var (c', h') := After(net, c, h, call); Opens(dialled, c, h, call, c', h')
  {
    hide Opens, Execute, VaultFrame, SubscribeFrom, Silent;
    match call
    case Statement(script, ps) => StatementOpens(net, dialled, c, h, script, ps);
    case VaultAct(place, act) => VaultOpens(net, dialled, c, h, place, act);
    case Changes(_, _, _, _) => ChangesOpen(net, dialled, c, h, call);
  }

  /** A subscribed connection is spoken on no more. */
  lemma {:induction false} SubscribedIsDone(net: Network, c: Conn, h: History, calls: seq<Call>)
    requires c.subscribed
    ensures Run(net, c, h, calls) == (c, h)
    decreases |calls|
  {
    hide MessageBytes, AllAccepted, Exchange, Send, Follow, Understood;
    if calls != [] {
      assert After(net, c, h, calls[0]) == (c, h);
      SubscribedIsDone(net, c, h, calls[1..]);
    }
  }

  // ---------- a whole run ----------

  lemma CallGrows(net: Network, c: Conn, h: History, call: Call)
    requires c.id < |h|
    ensures var (c', h') := After(net, c, h, call); h <= h' && c'.id < |h'|
  {
    hide MessageBytes, AllAccepted, Ask, Follow, VaultFrame, Understood, NeededMinor;
    match call
    case Statement(script, ps) =>
      AskIsOneExchange(net, c, h, script, ps, Asking);
      var (asked, c1, h1) := Ask(net, c, h, script, ps, Asking);
      if asked.Elsewhere? { FollowSays(net, c1, h1, script, ps, asked.redirect); }
    case VaultAct(place, act) => VaultIsOneExchange(net, c, h, place, act);
    case Changes(_, _, _, _) =>
  }

  lemma {:induction false} RunGrows(net: Network, c: Conn, h: History, calls: seq<Call>)
    requires c.id < |h|
    ensures h <= Run(net, c, h, calls).1
    decreases |calls|
  {
    hide After;
    if calls != [] {
      CallGrows(net, c, h, calls[0]);
      var (c1, h1) := After(net, c, h, calls[0]);
      RunGrows(net, c1, h1, calls[1..]);
    }
  }

  lemma FirstIsAfter(h: History, h': History, id: nat, j: nat)
    requires h <= h' && Silent(h, id) && FirstOn(h', j, id)
    ensures j >= |h|
    ensures |h| < |h'| && Talks(h'[|h|], id) ==> j == |h|
  {
    assert forall i :: 0 <= i < |h| ==> !Talks(h'[i], id);
  }

  lemma SilentHasNoFirst(h: History, j: nat, id: nat)
    requires Silent(h, id)
    ensures !FirstOn(h, j, id)
  {}

  /** From the first sending call on it is settled what the first frame carried. */
  lemma {:induction false} RunOpens(net: Network, dialled: Conn, c: Conn, h: History, calls: seq<Call>, j: nat)
    requires dialled.credentials.Some? && c == dialled.(spent := c.spent, subscribed := c.subscribed)
    requires Silent(h, c.id) && c.id < |h| && FirstOn(Run(net, c, h, calls).1, j, c.id)
    ensures Carries(Run(net, c, h, calls).1[j].message) <==>
              !c.spent && forall k :: 0 <= k < CallAt(net, c, h, calls, j) ==> !Spoils(dialled, calls[k])
    decreases |calls|
  {
    hide After, Carries, Spoils, Silent, FirstOn;
    SilentHasNoFirst(h, j, c.id);
    if c.subscribed { SubscribedIsDone(net, c, h, calls); }
    CallOpens(net, dialled, c, h, calls[0]);
    var (c1, h1) := After(net, c, h, calls[0]);
    CallGrows(net, c, h, calls[0]);
    RunGrows(net, c1, h1, calls[1..]);
    var h' := Run(net, c1, h1, calls[1..]).1;
    FirstIsAfter(h, h', c.id, j);
    if |h| < |h1| && Talks(h1[|h|], c.id) {
      assert CallAt(net, c, h, calls, j) == 0;
    } else {
      FirstIsAfter(h1, h', c.id, j);
      RunOpens(net, dialled, c1, h1, calls[1..], j);
      var n := CallAt(net, c1, h1, calls[1..], j);
      assert CallAt(net, c, h, calls, j) == 1 + n;
      assert forall k :: 0 <= k < n ==> calls[1..][k] == calls[k + 1];
      FromTheSecond(dialled, calls, n);
    }
  }

  lemma FromTheSecond(dialled: Conn, calls: seq<Call>, n: nat)
    requires n < |calls|
    ensures (forall k :: 0 <= k < 1 + n ==> !Spoils(dialled, calls[k])) <==>
              !Spoils(dialled, calls[0]) && forall k :: 0 <= k < n ==> !Spoils(dialled, calls[1..][k])
  {
    hide Spoils;
    forall k | 0 < k < 1 + n ensures calls[k] == calls[1..][k - 1] {}
  }

  // ---------- connections a redirect dialled ----------

  /** On every connection but the caller's first, the first frame carries. */
  ghost predicate OthersOpen(h: History, home: nat) {
    forall j: nat, id: nat :: id != home && FirstOn(h, j, id) ==> Carries(h[j].message)
  }

  predicate IdsBelow(h: History) {
    forall i :: 0 <= i < |h| ==> h[i].id < |h|
  }

  /** Frames on one connection: the home, one that has spoken before, or one whose first frame carries. */
  lemma SpokenOpens(h: History, h': History, id: nat, home: nat)
    requires OthersOpen(h, home) && Spoken(id, h, h')
    requires id == home || !Silent(h, id) || (|h| < |h'| ==> Talks(h'[|h|], id) && Carries(h'[|h|].message))
    ensures OthersOpen(h', home)
  {
    hide Carries;
    forall j: nat, other: nat | other != home && FirstOn(h', j, other) ensures Carries(h'[j].message) {
      if j < |h| {
        assert FirstOn(h, j, other);
      } else {
        assert other == id && forall i :: 0 <= i < |h| ==> h[i] == h'[i];
        assert Silent(h, id);
      }
    }
  }

  lemma QuietOpens(h: History, h': History, home: nat)
    requires OthersOpen(h, home) && h <= h' && forall i :: |h| <= i < |h'| ==> !h'[i].Sent?
    ensures OthersOpen(h', home)
  {
    hide Carries;
    forall j: nat, other: nat | other != home && FirstOn(h', j, other) ensures Carries(h'[j].message) {
      assert FirstOn(h, j, other);
    }
  }

  lemma SpokenIds(h: History, h': History, id: nat)
    requires IdsBelow(h) && Spoken(id, h, h') && id < |h|
    ensures IdsBelow(h')
  {}

  /** The context question comes first, with the credentials of a connection just dialled. */
  lemma ArriveOpens(
    net: Network, there: Conn, h: History, node: Sixteen, selecting: Str, script: Str, ps: map<Str, Value>)
    requires there.credentials.Some? && !there.spent
    ensures var (asked, c, h') := Arrive(net, there, h, node, selecting, script, ps);
            && Spoken(there.id, h, h') && c.id == there.id
            && (|h| < |h'| ==> Talks(h'[|h|], there.id) && Carries(h'[|h|].message))
  {
    hide Ask, IsNode, Context, CONTEXT_SCRIPT, MessageBytes, AllAccepted, Understood;
    ArriveIsSpoken(net, there, h, node, selecting, script, ps);
    ContextIsSpoken(net, there, h);
    var (context, _, c1, h1) := Context(net, there, h);
    var asked1: Asked :| OneExchange(there, h, Request(CONTEXT_SCRIPT, Unspent(there), map[]), Checking, asked1, h1);
    var (asked, c, h') := Arrive(net, there, h, node, selecting, script, ps);
    if context.Some? { ArriveGoesOn(net, there, h, node, selecting, script, ps); }
  }

  lemma ArriveGoesOn(
    net: Network, there: Conn, h: History, node: Sixteen, selecting: Str, script: Str, ps: map<Str, Value>)
    ensures Context(net, there, h).3 <= Arrive(net, there, h, node, selecting, script, ps).2
  {
    hide Ask, IsNode, Context;
    var (context, _, c1, h1) := Context(net, there, h);
    if context.Some? && IsNode(context.value, node) {
      if selecting == [] {
        AskIsSpoken(net, c1, h1, script, ps, Asking);
      } else {
        AskIsSpoken(net, c1, h1, selecting, map[], Selecting);
        var (_, c2, h2) := Ask(net, c1, h1, selecting, map[], Selecting);
        AskIsSpoken(net, c2, h2, script, ps, Asking);
      }
    }
  }

  /** What following keeps of the connections it dials. */
  ghost predicate FollowedOpen(mine: Conn, home: nat, c': Conn, h': History) {
    OthersOpen(h', home) && IdsBelow(h') && c'.id < |h'| && c'.credentials == mine.credentials
  }

  lemma {:induction false} FollowFromOpens(
    net: Network, mine: Conn, h: History, selecting: Str, script: Str, ps: map<Str, Value>,
    redirect: Redirect, floor: UInt64, hops: nat, home: nat)
    requires hops <= MOST_HOPS && mine.id < |h| && mine.credentials.Some? && home < |h|
    requires OthersOpen(h, home) && IdsBelow(h)
    ensures var (_, c', h') := FollowFrom(net, mine, h, selecting, script, ps, redirect, floor, hops);
            FollowedOpen(mine, home, c', h')
    decreases MOST_HOPS - hops
  {
    hide Dial, Arrive, OthersOpen, Carries, Silent;
    if hops < MOST_HOPS && redirect.epoch >= floor {
      DialIsAway(net, mine.credentials, Some(redirect), h, mine.id);
      var (there, h1) := Dial(net, mine.credentials, Some(redirect), h);
      QuietOpens(h, h1, home);
      if there.Some? {
        ArriveOpens(net, there.value, h1, redirect.node, selecting, script, ps);
        var (asked, c, h2) := Arrive(net, there.value, h1, redirect.node, selecting, script, ps);
        SpokenOpens(h1, h2, c.id, home);
        SpokenIds(h1, h2, c.id);
        var h3 := h2 + [Closed(if asked.Answered? && redirect.settled then mine.id else c.id)];
        QuietOpens(h2, h3, home);
        if asked.Elsewhere? {
          FollowFromOpens(net, mine, h3, selecting, script, ps, asked.redirect, redirect.epoch, hops + 1, home);
        }
      }
    }
  }

  /** Between calls: the caller's connection is its first one, or has spoken already. */
  ghost predicate Between(c: Conn, h: History, home: nat) {
    && OthersOpen(h, home) && IdsBelow(h) && c.id < |h| && home < |h| && c.credentials.Some?
    && (c.id == home || !Silent(h, c.id))
  }

  lemma NotSilentStays(h: History, h': History, id: nat)
    requires h <= h' && !Silent(h, id)
    ensures !Silent(h', id)
  {
    var i :| 0 <= i < |h| && Talks(h[i], id);
    assert Talks(h'[i], id);
  }

  lemma AskedIsBetween(c: Conn, h: History, home: nat, c': Conn, h': History)
    requires Between(c, h, home) && Spoken(c.id, h, h') && c'.id == c.id && c'.credentials == c.credentials
    ensures Between(c', h', home)
  {
    hide Carries, Silent, OthersOpen;
    SpokenOpens(h, h', c.id, home);
    SpokenIds(h, h', c.id);
    if c.id != home { NotSilentStays(h, h', c.id); }
  }

  lemma AnswerIsTalk(h: History, h': History, id: nat, script: Str, ps: map<Str, Value>, asked: Asked)
    requires AnswerCame(h, h', id, script, ps, asked)
    ensures !Silent(h', id)
  {
    hide Understood;
    var i :| |h| <= i && i + 1 < |h'| && AnsweredAt(h', i, id, script, ps, asked);
    assert Talks(h'[i], id);
  }

  lemma FollowIsBetween(net: Network, c: Conn, h: History, script: Str, ps: map<Str, Value>, first: Redirect, home: nat)
    requires Between(c, h, home)
    ensures var (_, c', h') := Follow(net, c, h, script, ps, first); Between(c', h', home)
  {
    hide Context, FollowFrom, Selection, OthersOpen, Carries, Silent, OneExchange, CONTEXT_SCRIPT, OnlyTheQuestion,
      AnswerCame;
    FollowSays(net, c, h, script, ps, first);
    ContextIsSpoken(net, c, h);
    var (context, _, c1, h1) := Context(net, c, h);
    AskedIsBetween(c, h, home, c1, h1);
    if context.Some? && Selection(context.value).Some? {
      var selecting := Selection(context.value).value;
      FollowFromOpens(net, c1, h1, selecting, script, ps, first, 0, 0, home);
      var (asked, c', h') := FollowFrom(net, c1, h1, selecting, script, ps, first, 0, 0);
      if c'.id != c.id {
        var id: nat :| id >= |h| && AnswerCame(h, h', id, script, ps, asked)
          && if c'.id != c.id then id == c'.id else Closed(id) in h';
        AnswerIsTalk(h, h', id, script, ps, asked);
      } else if c.id != home {
        FollowFromIsAway(net, c1, h1, selecting, script, ps, first, 0, 0);
        NotSilentStays(h1, h', c.id);
      }
    }
  }

  lemma CallIsBetween(net: Network, c: Conn, h: History, call: Call, home: nat)
    requires Between(c, h, home)
    ensures var (c', h') := After(net, c, h, call); Between(c', h', home)
  {
    hide Between, Ask, Follow, VaultFrame, SubscribeFrom, OneExchange, NeededMinor;
    match call
    case Statement(script, ps) =>
      var (asked, c1, h1) := Ask(net, c, h, script, ps, Asking);
      AskIsOneExchange(net, c, h, script, ps, Asking);
      OneIsSpoken(c, h, Request(script, Unspent(c), ps), Asking, asked, h1);
      AskedIsBetween(c, h, home, c1, h1);
      if asked.Elsewhere? { FollowIsBetween(net, c1, h1, script, ps, asked.redirect, home); }
    case VaultAct(place, act) =>
      VaultIsOneExchange(net, c, h, place, act);
      var (asked, c1, h1) := VaultFrame(net, c, h, place, act);
      if c.minor >= NeededMinor(Vault(Unspent(c), place, act)) {
        OneIsSpoken(c, h, Vault(Unspent(c), place, act), Asking, asked, h1);
        AskedIsBetween(c, h, home, c1, h1);
      }
    case Changes(from, table, cursor, n) =>
      SubscribeIsSpoken(net, c, h, from, table, cursor, n);
      var (_, c1, h1) := SubscribeFrom(net, c, h, from, table, cursor, n);
      AskedIsBetween(c, h, home, c1, h1);
  }

  lemma SubscribeIsSpoken(
    net: Network, c: Conn, h: History, from: UInt64, table: Str, cursor: Str, n: Option<Narrowing>)
    ensures var (_, c', h') := SubscribeFrom(net, c, h, from, table, cursor, n);
            Spoken(c.id, h, h') && c' == c.(subscribed := c'.subscribed)
  {
    hide MessageBytes, AllAccepted, NeededMinor;
  }

  lemma {:induction false} RunIsBetween(net: Network, c: Conn, h: History, calls: seq<Call>, home: nat)
    requires Between(c, h, home)
    ensures OthersOpen(Run(net, c, h, calls).1, home)
    decreases |calls|
  {
    hide After, OthersOpen, Silent;
    if calls != [] {
      CallIsBetween(net, c, h, calls[0], home);
      var (c1, h1) := After(net, c, h, calls[0]);
      RunIsBetween(net, c1, h1, calls[1..], home);
    }
  }

  // ---------- the theorem ----------

  /** The connection a caller with these credentials gets, and the history by then. */
  ghost function Dialling(net: Network, who: Credentials): (Option<Conn>, History) {
    Dial(net, Some(who), Nothing, [])
  }

  lemma DialledIsFresh(net: Network, who: Credentials)
    ensures var (c, h) := Dialling(net, who);
            && (forall id: nat :: Silent(h, id)) && (forall home: nat :: OthersOpen(h, home)) && |h| > 0 && IdsBelow(h)
            && (c.Some? ==>
                  c.value.id == 0 && c.value.credentials == Some(who) && !c.value.spent && !c.value.subscribed)
  {
    hide Carries;
    var (c, h) := Dialling(net, who);
    assert forall i :: 0 <= i < |h| ==> !h[i].Sent? && h[i].id == 0;
  }

  /**
   On the connection a caller dialled with credentials, the first Request or Vault frame carries them if
   and only if no earlier call had a parameter that cannot be written or a body over the ceiling. On every
   connection a redirect dialled the first frame carries them.
   */
  lemma FirstFrameCarries(net: Network, who: Credentials, calls: seq<Call>, j: nat, id: nat)
    requires FirstOn(Conversation(net, Some(who), calls), j, id)
    ensures var (c, h) := Dialling(net, who);
            var sent := Conversation(net, Some(who), calls)[j].message;
            && c.Some?
            && (id == 0 ==>
                  (Carries(sent)
                   <==> forall k :: 0 <= k < CallAt(net, c.value, h, calls, j) ==> !Spoils(c.value, calls[k])))
            && (id != 0 ==> Carries(sent))
  {
    hide Run, Dial, Carries, Spoils, Silent;
    DialledIsFresh(net, who);
    var (c, h) := Dialling(net, who);
    if c.Nothing? {
      SilentHasNoFirst(h, j, id);
    } else {
      if id == 0 { RunOpens(net, c.value, c.value, h, calls, j); }
      RunIsBetween(net, c.value, h, calls, 0);
    }
  }

  // ---------- credentials lost ----------

  ghost predicate NeverCarries(h: History, h': History, id: nat) {
    h <= h' && forall i :: |h| <= i < |h'| ==> !CarriedAt(h'[i], id)
  }

  /** A call on a connection that is spent, or on another one, sends no credentials here. */
  lemma CallNeverCarries(net: Network, c: Conn, h: History, call: Call, id: nat)
    requires c.id < |h| && id < |h| && (c.id == id ==> c.spent)
    ensures var (c', h') := After(net, c, h, call);
            NeverCarries(h, h', id) && (c'.id == id ==> c'.spent) && c'.id < |h'|
  {
    hide MessageBytes, AllAccepted, Ask, Follow, VaultFrame, SubscribeFrom, Understood, NeededMinor, AnswerCame,
      CONTEXT_SCRIPT;
    CallGrows(net, c, h, call);
    match call
    case Statement(script, ps) =>
      AskIsOneExchange(net, c, h, script, ps, Asking);
      var (asked, c1, h1) := Ask(net, c, h, script, ps, Asking);
      assert NeverCarries(h, h1, id);
      if asked.Elsewhere? {
        FollowSays(net, c1, h1, script, ps, asked.redirect);
        FollowSpends(net, c1, h1, script, ps, asked.redirect);
      }
    case VaultAct(place, act) => VaultIsOneExchange(net, c, h, place, act);
    case Changes(from, table, cursor, n) => SubscribeCarriesNothing(net, c, h, from, table, cursor, n);
  }

  lemma SubscribeCarriesNothing(
    net: Network, c: Conn, h: History, from: UInt64, table: Str, cursor: Str, n: Option<Narrowing>)
    ensures var (_, c', h') := SubscribeFrom(net, c, h, from, table, cursor, n);
            && h <= h' && c' == c.(subscribed := c'.subscribed)
            && forall i :: |h| <= i < |h'| ==> h'[i].Sent? && h'[i].message.Subscribe?
  {
    hide MessageBytes, AllAccepted, NeededMinor;
  }

  lemma FollowSpends(net: Network, c: Conn, h: History, script: Str, ps: map<Str, Value>, first: Redirect)
    requires c.id < |h|
    ensures var (_, c', h') := Follow(net, c, h, script, ps, first);
            (c.spent && c'.id == c.id ==> c'.spent) && (c'.id != c.id ==> c'.id >= |h|)
  {
    hide Context, FollowFrom, Selection, AnswerCame, OneExchange, CONTEXT_SCRIPT;
    FollowSays(net, c, h, script, ps, first);
    ContextIsSpoken(net, c, h);
    var (context, _, c1, h1) := Context(net, c, h);
    if context.Some? && Selection(context.value).Some? {
      FollowFromStays(net, c1, h1, Selection(context.value).value, script, ps, first, 0, 0);
    }
  }

  /** A connection that is not left is as it was. */
  lemma {:induction false} FollowFromStays(
    net: Network, home: Conn, h: History, selecting: Str, script: Str, ps: map<Str, Value>,
    redirect: Redirect, floor: UInt64, hops: nat)
    requires hops <= MOST_HOPS && home.id < |h|
    ensures var (_, c', h') := FollowFrom(net, home, h, selecting, script, ps, redirect, floor, hops);
            c' == home || c'.id >= |h|
    decreases MOST_HOPS - hops
  {
    hide Dial, Arrive;
    if hops < MOST_HOPS && redirect.epoch >= floor {
      DialIsAway(net, home.credentials, Some(redirect), h, home.id);
      var (there, h1) := Dial(net, home.credentials, Some(redirect), h);
      if there.Some? {
        ArriveIsSpoken(net, there.value, h1, redirect.node, selecting, script, ps);
        var (asked, c, h2) := Arrive(net, there.value, h1, redirect.node, selecting, script, ps);
        if asked.Elsewhere? {
          FollowFromStays(net, home, h2 + [Closed(c.id)], selecting, script, ps, asked.redirect, redirect.epoch,
                          hops + 1);
        }
      }
    }
  }

  lemma {:induction false} RunNeverCarries(net: Network, c: Conn, h: History, calls: seq<Call>, id: nat)
    requires c.id < |h| && id < |h| && (c.id == id ==> c.spent)
    ensures NeverCarries(h, Run(net, c, h, calls).1, id)
    decreases |calls|
  {
    hide After, Carries;
    if calls != [] {
      CallNeverCarries(net, c, h, calls[0], id);
      var (c1, h1) := After(net, c, h, calls[0]);
      RunNeverCarries(net, c1, h1, calls[1..], id);
    }
  }

  /** A first call that spoils loses the credentials: no frame ever carries them on the connection dialled with them. */
  lemma SpoiledIsLost(net: Network, who: Credentials, call: Call, calls: seq<Call>, j: nat)
    requires Dialling(net, who).0.Some? && Spoils(Dialling(net, who).0.value, call)
    requires j < |Conversation(net, Some(who), [call] + calls)|
    ensures !CarriedAt(Conversation(net, Some(who), [call] + calls)[j], 0)
  {
    hide After, Dial, Spoils;
    DialledIsFresh(net, who);
    var (c, h) := (Dialling(net, who).0.value, Dialling(net, who).1);
    CallOpens(net, c, c, h, call);
    SpoilingSendsNothing(net, c, h, call);
    var (c1, h1) := After(net, c, h, call);
    assert ([call] + calls)[1..] == calls;
    CallGrows(net, c, h, call);
    RunNeverCarries(net, c1, h1, calls, 0);
  }

  lemma SpoilingSendsNothing(net: Network, c: Conn, h: History, call: Call)
    requires c.credentials.Some? && !c.spent && !c.subscribed && Spoils(c, call)
    ensures After(net, c, h, call).1 == h && After(net, c, h, call).0 == Spending(c)
  {
    hide MessageBytes, AllAccepted, Ask, Follow, VaultFrame, Understood, NeededMinor;
    match call
    case Statement(script, ps) => AskIsOneExchange(net, c, h, script, ps, Asking);
    case VaultAct(place, act) => VaultIsOneExchange(net, c, h, place, act);
  }

  /** So it is for a first statement with a nil parameter, whatever is asked after it. */
  lemma NilParameterLosesCredentials(net: Network, who: Credentials, script: Str, name: Str, calls: seq<Call>, j: nat)
    requires Dialling(net, who).0.Some?
    requires j < |Conversation(net, Some(who), [Statement(script, map[name := NoValue])] + calls)|
    ensures !CarriedAt(Conversation(net, Some(who), [Statement(script, map[name := NoValue])] + calls)[j], 0)
  {
    hide Conversation, Dial, MessageBytes, Carries;
    var ps := map[name := NoValue];
    assert name in ps && !Accepted(ps[name]);
    SpoiledIsLost(net, who, Statement(script, ps), calls, j);
  }
}
