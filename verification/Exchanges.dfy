/** What each call puts on the wire, and on which connection (conn.go, follow.go, vault_frame.go). */
module Exchanges {
  import opened Words
  import opened Values
  import opened Connections
  import F = Frames

  /** A request that is never sent: a subscribed connection, a parameter that cannot be written, a body too large. */
  ghost predicate Unsendable(c: Conn, m: Message) {
    c.subscribed || (m.Request? && !AllAccepted(m.parameters)) || |MessageBytes(m)| > F.CEILING
  }

  /** One message on one connection, and at most one frame back. */
  ghost predicate OneExchange(c: Conn, h: History, m: Message, purpose: Purpose, asked: Asked, h': History) {
    if Unsendable(c, m) then h' == h && asked.Erred?
    else SaidOnce(c.id, h, m, purpose, h') && (asked.Answered? ==> AnsweredWith(h, asked, h'))
  }

  ghost predicate SaidOnce(id: nat, h: History, m: Message, purpose: Purpose, h': History) {
    && h <= h' && |h| + 1 <= |h'| <= |h| + 2
    && h'[|h|] == Sent(id, m, purpose, |h'| == |h| + 2)
    && (|h'| == |h| + 2 ==> h'[|h| + 1].Received? && h'[|h| + 1].id == id)
  }

  predicate AnsweredWith(h: History, asked: Asked, h': History) {
    |h'| == |h| + 2 && h'[|h| + 1].Received? && h'[|h| + 1].arrival.Whole?
    && Understood(h'[|h| + 1].arrival.frame) == asked
  }

  lemma ExchangeIsOne(net: Network, c: Conn, h: History, m: Message, purpose: Purpose)
    requires |MessageBytes(m)| <= F.CEILING
    ensures var (frame, _, h') := Exchange(net, c, h, m, purpose);
            && SaidOnce(c.id, h, m, purpose, h')
            && (frame.Some? ==> |h'| == |h| + 2 && h'[|h| + 1] == Received(c.id, F.Whole(frame.value)))
  {
    hide MessageBytes;
  }

  lemma NothingTooLarge(net: Network, c: Conn, h: History, m: Message, purpose: Purpose)
    requires |MessageBytes(m)| > F.CEILING
    ensures Exchange(net, c, h, m, purpose) == (Nothing, TooLarge, h)
  {
    hide MessageBytes;
  }

  lemma AskIsOneExchange(net: Network, c: Conn, h: History, script: Str, ps: map<Str, Value>, purpose: Purpose)
    ensures var (asked, c', h') := Ask(net, c, h, script, ps, purpose);
            && OneExchange(c, h, Request(script, Unspent(c), ps), purpose, asked, h')
            && c' == if c.subscribed then c else Spending(c)
  {
    hide MessageBytes, AllAccepted, Understood, Exchange;
    var m := Request(script, Unspent(c), ps);
    if !c.subscribed && AllAccepted(ps) {
      if |MessageBytes(m)| > F.CEILING {
        NothingTooLarge(net, c, h, m, purpose);
      } else {
        ExchangeIsOne(net, c, h, m, purpose);
      }
    }
  }

  lemma VaultIsOneExchange(net: Network, c: Conn, h: History, place: Option<Place>, act: Act)
    ensures var m := Vault(Unspent(c), place, act);
            var (asked, c', h') := VaultFrame(net, c, h, place, act);
            if c.minor < NeededMinor(m) then c' == c && h' == h
            else OneExchange(c, h, m, Asking, asked, h') && c' == if c.subscribed then c else Spending(c)
  {
    hide MessageBytes, Understood, Exchange, NeededMinor;
    var m := Vault(Unspent(c), place, act);
    if c.minor >= NeededMinor(m) && !c.subscribed {
      if |MessageBytes(m)| > F.CEILING {
        NothingTooLarge(net, c, h, m, Asking);
      } else {
        ExchangeIsOne(net, c, h, m, Asking);
        var (frame, err, h') := Exchange(net, c, h, m, Asking);
        var (asked, _, _) := VaultFrame(net, c, h, place, act);
        assert asked.Answered? ==> AnsweredWith(h, asked, h');
      }
    }
  }

  /** Only frames on one connection, sent and received. */
  ghost predicate Spoken(id: nat, h: History, h': History) {
    h <= h' && forall i :: |h| <= i < |h'| ==> h'[i].id == id && (h'[i].Sent? || h'[i].Received?)
  }

  lemma OneIsSpoken(c: Conn, h: History, m: Message, purpose: Purpose, asked: Asked, h': History)
    requires OneExchange(c, h, m, purpose, asked, h')
    ensures Spoken(c.id, h, h')
  {
    hide MessageBytes, AllAccepted, Understood;
  }

  lemma SpokenTwice(id: nat, h: History, h1: History, h2: History)
    requires Spoken(id, h, h1) && Spoken(id, h1, h2)
    ensures Spoken(id, h, h2)
  {}

  // ---------- where an answer came ----------

  /** The caller's own request was sent here, and the very next frame is what it was answered with. */
  predicate AnsweredAt(h: History, i: nat, id: nat, script: Str, ps: map<Str, Value>, asked: Asked)
    requires i + 1 < |h|
  {
    && h[i].Sent? && h[i].id == id && h[i].delivered && h[i].purpose == Asking
    && h[i].message.Request? && h[i].message.script == script && h[i].message.parameters == ps
    && h[i + 1].Received? && h[i + 1].id == id && h[i + 1].arrival.Whole?
    && Understood(h[i + 1].arrival.frame) == asked
  }

  ghost predicate AnswerCame(h: History, h': History, id: nat, script: Str, ps: map<Str, Value>, asked: Asked) {
    exists i :: |h| <= i && i + 1 < |h'| && AnsweredAt(h', i, id, script, ps, asked)
  }

  lemma AnswerStays(
    h: History, h1: History, h2: History, h3: History, id: nat, script: Str, ps: map<Str, Value>, asked: Asked)
    requires |h| <= |h1| && h2 <= h3 && AnswerCame(h1, h2, id, script, ps, asked)
    ensures AnswerCame(h, h3, id, script, ps, asked)
  {
    hide Understood;
    var i :| |h1| <= i && i + 1 < |h2| && AnsweredAt(h2, i, id, script, ps, asked);
    assert AnsweredAt(h3, i, id, script, ps, asked);
  }

  lemma ExchangeAnswers(c: Conn, h: History, script: Str, ps: map<Str, Value>, asked: Asked, h': History)
    requires OneExchange(c, h, Request(script, Unspent(c), ps), Asking, asked, h') && asked.Answered?
    ensures AnswerCame(h, h', c.id, script, ps, asked)
  {
    hide MessageBytes, AllAccepted, Understood;
    assert AnsweredAt(h', |h|, c.id, script, ps, asked);
  }

  lemma ContextIsSpoken(net: Network, c: Conn, h: History)
    ensures var (context, _, c', h') := Context(net, c, h);
            && Spoken(c.id, h, h') && c' == (if c.subscribed then c else Spending(c))
            && (exists asked: Asked ::
                  OneExchange(c, h, Request(CONTEXT_SCRIPT, Unspent(c), map[]), Checking, asked, h'))
            && (context.Some? ==> |h| < |h'|)
  {
    hide MessageBytes, AllAccepted, Ask, CONTEXT_SCRIPT;
    AskIsOneExchange(net, c, h, CONTEXT_SCRIPT, map[], Checking);
    var (asked, _, h') := Ask(net, c, h, CONTEXT_SCRIPT, map[], Checking);
    OneIsSpoken(c, h, Request(CONTEXT_SCRIPT, Unspent(c), map[]), Checking, asked, h');
  }

  lemma AskIsSpoken(net: Network, c: Conn, h: History, script: Str, ps: map<Str, Value>, purpose: Purpose)
    ensures var (asked, c', h') := Ask(net, c, h, script, ps, purpose);
            && Spoken(c.id, h, h') && c'.id == c.id
            && (purpose == Asking && asked.Answered? ==> AnswerCame(h, h', c.id, script, ps, asked))
  {
    hide OneExchange, Ask;
    AskIsOneExchange(net, c, h, script, ps, purpose);
    var (asked, _, h') := Ask(net, c, h, script, ps, purpose);
    OneIsSpoken(c, h, Request(script, Unspent(c), ps), purpose, asked, h');
    if purpose == Asking && asked.Answered? { ExchangeAnswers(c, h, script, ps, asked, h'); }
  }

  lemma ArriveIsSpoken(
    net: Network, there: Conn, h: History, node: Sixteen, selecting: Str, script: Str, ps: map<Str, Value>)
    ensures var (asked, c, h') := Arrive(net, there, h, node, selecting, script, ps);
            && Spoken(there.id, h, h') && c.id == there.id
            && (asked.Answered? ==> AnswerCame(h, h', there.id, script, ps, asked))
  {
    hide Ask, Context, IsNode, AnswerCame;
    ContextIsSpoken(net, there, h);
    var (context, _, c1, h1) := Context(net, there, h);
    if context.Some? && IsNode(context.value, node) {
      if selecting == [] {
        AskIsSpoken(net, c1, h1, script, ps, Asking);
        var (asked, _, h2) := Ask(net, c1, h1, script, ps, Asking);
        SpokenTwice(there.id, h, h1, h2);
        if asked.Answered? { AnswerStays(h, h1, h2, h2, there.id, script, ps, asked); }
      } else {
        AskIsSpoken(net, c1, h1, selecting, map[], Selecting);
        var (selected, c2, h2) := Ask(net, c1, h1, selecting, map[], Selecting);
        SpokenTwice(there.id, h, h1, h2);
        if !selected.Erred? {
          AskIsSpoken(net, c2, h2, script, ps, Asking);
          var (asked, _, h3) := Ask(net, c2, h2, script, ps, Asking);
          SpokenTwice(there.id, h, h2, h3);
          if asked.Answered? { AnswerStays(h, h2, h3, h3, there.id, script, ps, asked); }
        }
      }
    }
  }

  /** Everything past h concerns connections dialled past h, but for the closing of the home connection. */
  ghost predicate Away(home: nat, h: History, h': History) {
    h <= h' && forall i :: |h| <= i < |h'| ==> h'[i].id >= |h| || h'[i] == Closed(home)
  }

  lemma DialIsAway(net: Network, credentials: Option<Credentials>, cause: Option<Redirect>, h: History, home: nat)
    ensures var (c, h') := Dial(net, credentials, cause, h);
            && Away(home, h, h') && |h| < |h'| && (forall i :: |h| <= i < |h'| ==> !h'[i].Sent? && h'[i].id == |h|)
            && (c.Some? ==>
                  c.value.id == |h| && c.value.credentials == credentials && !c.value.spent && !c.value.subscribed)
  {}

  lemma AwayTwice(home: nat, h: History, h1: History, h2: History)
    requires Away(home, h, h1) && Away(home, h1, h2)
    ensures Away(home, h, h2)
  {}

  lemma SpokenIsAway(home: nat, id: nat, h: History, h1: History, h2: History)
    requires Away(home, h, h1) && Spoken(id, h1, h2) && id >= |h|
    ensures Away(home, h, h2)
  {}

  /**
   Following from a hop on: nothing more is said on the home connection, and an answer is the answer to
   the caller's request on a connection dialled for it, which is the one adopted if one is.
   */
  lemma {:induction false} FollowFromIsAway(
    net: Network, home: Conn, h: History, selecting: Str, script: Str, ps: map<Str, Value>,
    redirect: Redirect, floor: UInt64, hops: nat)
    requires hops <= MOST_HOPS && home.id < |h|
    ensures var (asked, home', h') := FollowFrom(net, home, h, selecting, script, ps, redirect, floor, hops);
            && Away(home.id, h, h') && home'.id < |h'|
            && (home'.id != home.id ==> asked.Answered?)
            && (asked.Answered? ==>
                  exists id: nat :: id >= |h| && AnswerCame(h, h', id, script, ps, asked)
                    && if home'.id != home.id then id == home'.id else Closed(id) in h')
    decreases MOST_HOPS - hops
  {
    hide Dial, Arrive, AnswerCame;
    if hops < MOST_HOPS && redirect.epoch >= floor {
      DialIsAway(net, home.credentials, Some(redirect), h, home.id);
      var (there, h1) := Dial(net, home.credentials, Some(redirect), h);
      if there.Some? {
        ArriveIsSpoken(net, there.value, h1, redirect.node, selecting, script, ps);
        var (asked, c, h2) := Arrive(net, there.value, h1, redirect.node, selecting, script, ps);
        SpokenIsAway(home.id, c.id, h, h1, h2);
        var h3 := h2 + [Closed(if asked.Answered? && redirect.settled then home.id else c.id)];
        assert Away(home.id, h, h3);
        if asked.Answered? {
          AnswerStays(h, h1, h2, h3, c.id, script, ps, asked);
        }
        if asked.Elsewhere? {
          FollowFromIsAway(net, home, h3, selecting, script, ps, asked.redirect, redirect.epoch, hops + 1);
          var (asked', home', h') :=
            FollowFrom(net, home, h3, selecting, script, ps, asked.redirect, redirect.epoch, hops + 1);
          AwayTwice(home.id, h, h3, h');
          if asked'.Answered? {
            var id: nat :| id >= |h3| && AnswerCame(h3, h', id, script, ps, asked')
              && if home'.id != home.id then id == home'.id else Closed(id) in h';
            AnswerStays(h, h3, h', h', id, script, ps, asked');
          }
        }
      }
    }
  }

  /** What is said on the home connection while following: the one context question at most. */
  ghost predicate OnlyTheQuestion(c: Conn, h: History, h': History) {
    forall i :: |h| <= i < |h'| && h'[i].Sent? && h'[i].id == c.id ==>
      i == |h| && h'[i].message == Request(CONTEXT_SCRIPT, Unspent(c), map[]) && h'[i].purpose == Checking
  }

  lemma FollowSays(net: Network, c: Conn, h: History, script: Str, ps: map<Str, Value>, first: Redirect)
    requires c.id < |h|
    ensures var (asked, c', h') := Follow(net, c, h, script, ps, first);
            && h <= h' && c'.id < |h'| && OnlyTheQuestion(c, h, h')
            && (forall i :: |h| <= i < |h'| ==> h'[i].id == c.id || h'[i].id >= |h|)
            && (c'.id != c.id ==> asked.Answered?)
            && (asked.Answered? ==>
                  exists id: nat :: id >= |h| && AnswerCame(h, h', id, script, ps, asked)
                    && if c'.id != c.id then id == c'.id else Closed(id) in h')
  {
    hide Context, FollowFrom, Selection, AnswerCame, CONTEXT_SCRIPT, MessageBytes, AllAccepted;
    ContextIsSpoken(net, c, h);
    var (context, _, c1, h1) := Context(net, c, h);
    var asked1: Asked :| OneExchange(c, h, Request(CONTEXT_SCRIPT, Unspent(c), map[]), Checking, asked1, h1);
    assert OnlyTheQuestion(c, h, h1);
    if context.Some? && Selection(context.value).Some? {
      var selecting := Selection(context.value).value;
      FollowFromIsAway(net, c1, h1, selecting, script, ps, first, 0, 0);
      var (asked, c', h') := FollowFrom(net, c1, h1, selecting, script, ps, first, 0, 0);
      assert OnlyTheQuestion(c, h, h');
      if asked.Answered? {
        var id: nat :| id >= |h1| && AnswerCame(h1, h', id, script, ps, asked)
          && if c'.id != c.id then id == c'.id else Closed(id) in h';
        AnswerStays(h, h1, h', h', id, script, ps, asked);
      }
    }
  }
}
