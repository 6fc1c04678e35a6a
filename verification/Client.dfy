/**
 The connection as the client runs it (conn.go, follow.go, narrowed.go, vault_frame.go): fields updated
 in place, proved against the functions of the history.
 */
module Client {
  import opened Words
  import opened Values
  import opened Encoding
  import opened Decoding
  import opened Outcomes
  import opened Connections
  import opened Reading
  import opened VaultStatuses
  import F = Frames
  import W = Writing
  import AnswerReading

  /** The network, and everything that has passed over it. */
  class Wire {
    const net: Network
    var history: History

    constructor (net: Network)
      ensures this.net == net && history == []
    {
      this.net := net;
      history := [];
    }

    method Note(e: Event)
      modifies this
      ensures history == old(history) + [e]
    {
      history := history + [e];
    }

    /** writeFrame on a connection: `body` is what m is on the wire. */
    method Write(id: nat, body: Str, m: Message, purpose: Purpose) returns (error: Option<Error>)
      requires body == MessageBytes(m)
      modifies this
      ensures forall c: Conn :: c.id == id ==> (error, history) == Send(net, c, old(history), m, purpose)
    {
      var frame := F.WriteFrame(KindOf(m), body);
      if frame.Nothing? { return Some(TooLarge); }
      var delivered := net.takes(history, m);
      Note(Sent(id, m, purpose, delivered));
      error := if delivered then Nothing else Some(Transport);
    }

    /** readFrame on a connection. */
    method Read(id: nat) returns (arrival: F.Arrival)
      modifies this
      ensures arrival == net.replies(old(history)) && history == old(history) + [Received(id, arrival)]
    {
      arrival := net.replies(history);
      Note(Received(id, arrival));
    }
  }

  // ---------- message bodies ----------

  method PutCredentials(w: W.Writer, c: Option<Credentials>)
    modifies w
    ensures w.buf == old(w.buf) + CredentialsBytes(c)
  {
    hide Lengthed;
    match c
    case Nothing => w.U8(0);
    case Some(who) =>
      w.U8(1);
      w.PutLengthed(who.user);
      w.PutLengthed(who.password);
  }

  method PutParameters(w: W.Writer, ps: map<Str, Value>) returns (ok: bool)
    modifies w
    ensures ok <==> AllAccepted(ps)
    ensures ok ==> w.buf == old(w.buf) + ParametersBytes(Sorted(ps.Keys), ps)
  {
    hide Lengthed, ValueBytes, Accepted, Sorted, ParametersBytes;
    var names := SortNames(ps.Keys);
    var i := 0;
    while i < |names|
      invariant 0 <= i <= |names|
      invariant forall k :: 0 <= k < i ==> Accepted(ps[names[k]])
      invariant w.buf + ParametersBytes(names[i..], ps) == old(w.buf) + ParametersBytes(names, ps)
    {
      OneParameter(w.buf, names, i, ps);
      w.PutLengthed(names[i]);
      var encoded := W.Encode(ps[names[i]]);
      if encoded.Nothing? { return false; }
      w.PutLengthed(encoded.value);
      i := i + 1;
    }
    NoMoreParameters(names, ps);
    assert w.buf + [] == w.buf;
    forall k | k in ps ensures Accepted(ps[k]) {
      assert k in names;
      var j :| 0 <= j < |names| && names[j] == k;
    }
    ok := true;
  }

  lemma OneParameter(was: Str, names: seq<Str>, i: nat, ps: map<Str, Value>)
    requires i < |names| && forall n :: n in names ==> n in ps
    ensures was + ParametersBytes(names[i..], ps)
         == was + Lengthed(names[i]) + Lengthed(ValueBytes(ps[names[i]])) + ParametersBytes(names[i + 1..], ps)
  {
    hide Lengthed, ValueBytes;
    assert names[i..][1..] == names[i + 1..];
    Assoc(was, Lengthed(names[i]) + Lengthed(ValueBytes(ps[names[i]])), ParametersBytes(names[i + 1..], ps));
    Assoc(was, Lengthed(names[i]), Lengthed(ValueBytes(ps[names[i]])));
  }

  lemma NoMoreParameters(names: seq<Str>, ps: map<Str, Value>)
    ensures ParametersBytes(names[|names|..], ps) == []
  {}

  method PutPlace(w: W.Writer, place: Option<Place>)
    modifies w
    ensures w.buf == old(w.buf) + PlaceBytes(place)
  {
    hide Lengthed;
    match place
    case Nothing => w.U8(0);
    case Some(at) =>
      w.U8(1);
      w.PutLengthed(at.namespace);
      w.PutLengthed(at.database);
      w.PutLengthed(at.vault);
  }

  method PutAct(w: W.Writer, act: Act)
    modifies w
    ensures w.buf == old(w.buf) + ActBytes(act)
  {
    hide Lengthed;
    ghost var was := w.buf;
    match act
    case Status => w.U8(1);
    case Unseal(p) =>
      w.U8(2);
      w.PutLengthed(p);
      Assoc(was, [2], Lengthed(p));
    case Seal => w.U8(3);
    case Change(c, n) =>
      w.U8(4);
      w.PutLengthed(c);
      Assoc(was, [4], Lengthed(c));
      w.PutLengthed(n);
      Assoc(was, [4] + Lengthed(c), Lengthed(n));
    case Declare(p) =>
      w.U8(5);
      w.PutLengthed(p);
      Assoc(was, [5], Lengthed(p));
  }

  method VaultBody(c: Option<Credentials>, place: Option<Place>, act: Act) returns (body: Str)
    ensures body == MessageBytes(Vault(c, place, act))
  {
    hide CredentialsBytes, PlaceBytes, ActBytes;
    var w := new W.Writer();
    PutCredentials(w, c);
    PutPlace(w, place);
    PutAct(w, act);
    body := w.buf;
  }

  /** The parameters are one value, an object. */
  method PutNarrowing(w: W.Writer, narrowing: Narrowing) returns (ok: bool)
    modifies w
    ensures ok <==> AllAccepted(narrowing.parameters)
    ensures ok ==>
              w.buf == old(w.buf) + (Lengthed(narrowing.condition) + Lengthed(ValueBytes(Object(narrowing.parameters))))
  {
    hide Lengthed, ValueBytes;
    ghost var was := w.buf;
    w.PutLengthed(narrowing.condition);
    var encoded := W.Encode(Object(narrowing.parameters));
    if encoded.Nothing? { return false; }
    w.PutLengthed(encoded.value);
    Assoc(was, Lengthed(narrowing.condition), Lengthed(encoded.value));
    ok := true;
  }

  method SubscribeBody(from: UInt64, table: Str, cursor: Str, narrowing: Option<Narrowing>) returns (body: Option<Str>)
    ensures body.Some? <==> narrowing.Nothing? || AllAccepted(narrowing.value.parameters)
    ensures body.Some? ==> body.value == MessageBytes(Subscribe(from, table, cursor, narrowing))
  {
    hide Lengthed, U64, ValueBytes, AllAccepted, MessageBytes;
    SubscribeText(from, table, cursor, narrowing);
    var w := new W.Writer();
    w.PutU64(from);
    ghost var start := w.buf;
    if table == [] {
      w.U8(0);
    } else {
      w.U8(1);
      w.PutLengthed(table);
      Assoc(start, [1], Lengthed(table));
    }
    ghost var named := w.buf;
    if cursor != [] || narrowing.Some? { w.PutLengthed(cursor); }
    if narrowing.Some? {
      var ok := PutNarrowing(w, narrowing.value);
      if !ok { return Nothing; }
    }
    body := Some(w.buf);
  }

  lemma SubscribeText(from: UInt64, table: Str, cursor: Str, narrowing: Option<Narrowing>)
    ensures var named := [] + U64(from) + if table == [] then [0] else [1] + Lengthed(table);
            var placed := if cursor != [] || narrowing.Some? then named + Lengthed(cursor) else named;
            MessageBytes(Subscribe(from, table, cursor, narrowing)) ==
              match narrowing
              case Some(n) => placed + (Lengthed(n.condition) + Lengthed(ValueBytes(Object(n.parameters))))
              case Nothing => placed
  {
    hide Lengthed, U64, ValueBytes;
    assert [] + U64(from) == U64(from);
  }

  method GetElsewhere(body: Str) returns (redirect: Option<Redirect>)
    ensures redirect == ReadElsewhere(body)
  {
    hide ReadU64, ReadText, ReadFixed, ReadU8;
    var r := new Reader(body);
    assert r.Rest() == body;
    var node := r.GetFixed(16);
    if node.Nothing? { return Nothing; }
    assert |node.value| == 16 by { FixedIsFull(body, 16); }
    var epoch := r.GetU64();
    if epoch.Nothing? { return Nothing; }
    var settlement := r.GetU8();
    if settlement.Nothing? { return Nothing; }
    if settlement.value != 1 && settlement.value != 2 { return Nothing; }
    var endpoint := r.GetText();
    if endpoint.Nothing? { return Nothing; }
    redirect := Some(Redirect(node.value, epoch.value, settlement.value == 1, endpoint.value));
  }

  lemma FixedIsFull(bs: Str, n: nat)
    ensures ReadFixed(bs, n).Parsed? ==> |ReadFixed(bs, n).value| == n
  {}

  method Understand(frame: F.Frame) returns (asked: Asked)
    ensures asked == Understood(frame)
  {
    hide ReadAnswer, ReadElsewhere;
    if frame.kind == F.ANSWER {
      var outcomes := AnswerReading.GetAnswer(frame.body);
      asked := if outcomes.Some? then Answered(outcomes.value) else Erred(Protocol);
    } else if frame.kind == F.REFUSAL {
      asked := Erred(Refused(frame.body));
    } else if frame.kind == F.ELSEWHERE {
      var redirect := GetElsewhere(frame.body);
      asked := if redirect.Some? then Elsewhere(redirect.value) else Erred(Protocol);
    } else {
      asked := Erred(Protocol);
    }
  }

  /** The USE statements that select a context's tenancy again. */
  method Select(context: map<Str, Value>) returns (script: Option<Str>)
    ensures script == Selection(context)
  {
    hide Use;
    var pairs := [("NAMESPACE", "namespace"), ("DATABASE", "database")];
    var text: Str := [];
    var i := 0;
    while i < 2
      invariant 0 <= i <= 2
      invariant i >= 1 ==> Use(context, "NAMESPACE", "namespace").Some?
      invariant i == 0 ==> text == []
      invariant i == 1 ==> text == Use(context, "NAMESPACE", "namespace").value
      invariant i == 2 ==> Use(context, "DATABASE", "database").Some?
      invariant i == 2 ==>
                  text == Use(context, "NAMESPACE", "namespace").value + Use(context, "DATABASE", "database").value
    {
      var part := Use(context, pairs[i].0, pairs[i].1);
      if part.Nothing? { return Nothing; }
      text := text + part.value;
      i := i + 1;
    }
    script := Some(text);
  }

  // ---------- the connection ----------

  lemma RequestText(script: Str, who: Option<Credentials>, ps: map<Str, Value>)
    ensures MessageBytes(Request(script, who, ps))
         == [] + Lengthed(script) + CredentialsBytes(who) + U32(|ps|) + ParametersBytes(Sorted(ps.Keys), ps)
  {
    hide Lengthed, CredentialsBytes, U32, ParametersBytes, Sorted;
    assert [] + Lengthed(script) == Lengthed(script);
  }

  lemma VaultNeeds(c: Option<Credentials>, place: Option<Place>, act: Act)
    ensures NeededMinor(Vault(c, place, act)) == if act.Declare? then F.DECLARE_MINOR else F.VAULT_MINOR
  {}

  class Connection {
    const wire: Wire
    const credentials: Option<Credentials>
    var id: nat
    var spent: bool
    var subscribed: bool
    var peerMinor: Byte

    constructor (wire: Wire, id: nat, credentials: Option<Credentials>, peerMinor: Byte)
      ensures this.wire == wire
      ensures State() == Conn(id, credentials, false, false, peerMinor)
    {
      this.wire := wire;
      this.id := id;
      this.credentials := credentials;
      this.peerMinor := peerMinor;
      spent := false;
      subscribed := false;
    }

    ghost function State(): Conn
      reads this
    {
      Conn(id, credentials, spent, subscribed, peerMinor)
    }

    /** dial: the greeting is exchanged before there is a connection to speak of. */
    static method Open(wire: Wire, credentials: Option<Credentials>, cause: Option<Redirect>) returns (c: Connection?)
      modifies wire
      ensures c == null <==> Dial(wire.net, credentials, cause, old(wire.history)).0.Nothing?
      ensures wire.history == Dial(wire.net, credentials, cause, old(wire.history)).1
      ensures c != null ==> fresh(c) && c.wire == wire
      ensures c != null ==> c.State() == Dial(wire.net, credentials, cause, old(wire.history)).0.value
    {
      var id := |wire.history|;
      var reached := wire.net.reaches(wire.history, cause);
      wire.Note(Dialled(id, cause, reached));
      if !reached { return null; }
      var greeting := F.ReadGreeting(wire.net.greets(wire.history));
      if !greeting.Peer? {
        wire.Note(Closed(id));
        return null;
      }
      wire.Note(Greeted(id, greeting.minor));
      c := new Connection(wire, id, credentials, greeting.minor);
    }

    method Close()
      modifies wire
      ensures wire.history == old(wire.history) + [Closed(id)]
    {
      wire.Note(Closed(id));
    }

    /** The request's body; the credential counts as spent even when a parameter then cannot be written. */
    method RequestBody(script: Str, ps: map<Str, Value>) returns (body: Option<Str>)
      modifies this`spent
      ensures State() == Spending(old(State()))
      ensures body.Some? <==> AllAccepted(ps)
      ensures body.Some? ==> body.value == MessageBytes(Request(script, Unspent(old(State())), ps))
    {
      hide Lengthed, CredentialsBytes, ParametersBytes, AllAccepted, Sorted, U32, MessageBytes;
      RequestText(script, Unspent(State()), ps);
      var w := new W.Writer();
      w.PutLengthed(script);
      if credentials.Some? && !spent {
        PutCredentials(w, credentials);
        spent := true;
      } else {
        PutCredentials(w, Nothing);
      }
      w.PutU32(|ps|);
      var ok := PutParameters(w, ps);
      body := if ok then Some(w.buf) else Nothing;
    }

    /** One request and its reply; a redirect is reported, not followed. */
    method Ask(script: Str, ps: map<Str, Value>, purpose: Purpose) returns (asked: Asked)
      modifies wire, this`spent
      ensures (asked, State(), wire.history)
           == Connections.Ask(wire.net, old(State()), old(wire.history), script, ps, purpose)
    {
      hide MessageBytes, AllAccepted, Understood;
      if subscribed { return Erred(IsSubscribed); }
      ghost var c := State();
      var m := Request(script, if credentials.Some? && !spent then credentials else Nothing, ps);
      var body := RequestBody(script, ps);
      if body.Nothing? { return Erred(Unwritable); }
      var error := wire.Write(id, body.value, m, purpose);
      if error.Some? { return Erred(error.value); }
      var arrival := wire.Read(id);
      if !arrival.Whole? { return Erred(Transport); }
      asked := Understand(arrival.frame);
    }

    /** What session::context() answers here. */
    method Context() returns (context: Option<map<Str, Value>>, error: Error)
      modifies wire, this`spent
      ensures (context, error, State(), wire.history) == Connections.Context(wire.net, old(State()), old(wire.history))
    {
      hide Connections.Ask;
      var asked := Ask(CONTEXT_SCRIPT, map[], Checking);
      error := if asked.Erred? then asked.error else Protocol;
      if asked.Answered? && |asked.outcomes| > 0 {
        var last := asked.outcomes[|asked.outcomes| - 1];
        if last.ValueOutcome? && last.value.Object? { return Some(last.value.fields), error; }
      }
      context := Nothing;
    }

    /** Check this is the node, select the tenancy, send the request. */
    method Arrive(node: Sixteen, selecting: Str, script: Str, ps: map<Str, Value>) returns (asked: Asked)
      modifies wire, this`spent
      ensures (asked, State(), wire.history)
           == Connections.Arrive(wire.net, old(State()), old(wire.history), node, selecting, script, ps)
    {
      hide Connections.Ask, Connections.Context, NODE;
      var context, error := Context();
      if context.Nothing? { return Erred(error); }
      if NODE !in context.value || context.value[NODE] != Uuid(node) { return Erred(WrongNode); }
      if selecting != [] {
        asked := Ask(selecting, map[], Selecting);
        if asked.Erred? { return; }
      }
      asked := Ask(script, ps, Asking);
    }

    /** Send the request where the redirect says, and on, until something answers. */
    method Follow(script: Str, ps: map<Str, Value>, first: Redirect) returns (asked: Asked)
      modifies wire, this`id, this`spent, this`peerMinor
      ensures (asked, State(), wire.history)
           == Connections.Follow(wire.net, old(State()), old(wire.history), script, ps, first)
    {
      hide Connections.Ask, Connections.Context, Connections.Arrive, Selection, Dial;
      var here, error := Context();
      if here.Nothing? { return Erred(error); }
      var selecting := Select(here.value);
      if selecting.Nothing? { return Erred(NotFollowable); }
      var redirect, floor, hops := first, 0, 0;
      ghost var goal := FollowFrom(wire.net, State(), wire.history, selecting.value, script, ps, first, 0, 0);
      while true
        invariant 0 <= hops <= MOST_HOPS
        invariant FollowFrom(wire.net, State(), wire.history, selecting.value, script, ps, redirect, floor, hops)
               == goal
        decreases MOST_HOPS - hops
      {
        if hops >= MOST_HOPS { return Erred(Loop); }
        if redirect.epoch < floor { return Erred(Stale); }
        floor := redirect.epoch;
        var there := Open(wire, credentials, Some(redirect));
        if there == null { return Erred(NotDialled); }
        asked := there.Arrive(redirect.node, selecting.value, script, ps);
        if asked.Erred? {
          there.Close();
          return;
        }
        if asked.Answered? {
          if redirect.settled {
            Close();
            id, peerMinor, spent := there.id, there.peerMinor, there.spent;
          } else {
            there.Close();
          }
          return;
        }
        there.Close();
        redirect := asked.redirect;
        hops := hops + 1;
      }
    }

    method Execute(script: Str, ps: map<Str, Value>) returns (asked: Asked)
      modifies wire, this`id, this`spent, this`peerMinor
      ensures (asked, State(), wire.history)
           == Connections.Execute(wire.net, old(State()), old(wire.history), script, ps)
    {
      hide Connections.Ask, Connections.Follow;
      asked := Ask(script, ps, Asking);
      if asked.Elsewhere? { asked := Follow(script, ps, asked.redirect); }
    }

    /** One vault act, gated by the node's minor, and the status it answers with. */
    method VaultFrame(place: Option<Place>, act: Act)
      returns (asked: Asked, status: Option<VaultStatus>, ghost said: Option<Saying>)
      modifies wire, this`spent
      ensures (asked, State(), wire.history)
           == Connections.VaultFrame(wire.net, old(State()), old(wire.history), place, act)
      ensures status == if said.Some? then Some(Handed(said.value)) else Nothing
      ensures if asked.Answered?
              then |asked.outcomes| == 1 && asked.outcomes[0].ValueOutcome? && Says(asked.outcomes[0].value, said)
              else said.Nothing?
    {
      hide Connections.VaultFrame, Says, Handed;
      status, said := Nothing, Nothing;
      asked := VaultExchange(place, act);
      if asked.Answered? {
        status, said := ReadVaultStatus(asked.outcomes[0].value);
      }
    }

    /** The frame and the one value that answers it. */
    method VaultExchange(place: Option<Place>, act: Act) returns (asked: Asked)
      modifies wire, this`spent
      ensures (asked, State(), wire.history)
           == Connections.VaultFrame(wire.net, old(State()), old(wire.history), place, act)
      ensures asked.Answered? ==> |asked.outcomes| == 1 && asked.outcomes[0].ValueOutcome?
    {
      hide MessageBytes, Understood, Send, NeededMinor;
      VaultNeeds(Unspent(State()), place, act);
      if peerMinor < F.VAULT_MINOR { return Erred(TooOld); }
      if act.Declare? && peerMinor < F.DECLARE_MINOR { return Erred(TooOld); }
      if subscribed { return Erred(IsSubscribed); }
      var carried: Option<Credentials> := Nothing;
      if credentials.Some? && !spent {
        carried := credentials;
        spent := true;
      }
      var body := VaultBody(carried, place, act);
      var error := wire.Write(id, body, Vault(carried, place, act), Asking);
      if error.Some? { return Erred(error.value); }
      var arrival := wire.Read(id);
      if !arrival.Whole? { return Erred(Transport); }
      asked := Understand(arrival.frame);
      if asked.Elsewhere? { return Erred(Protocol); }
      if asked.Answered? && !(|asked.outcomes| == 1 && asked.outcomes[0].ValueOutcome?) { return Erred(Protocol); }
    }

    /** The Subscribe frame; only one that was sent consumes the connection. */
    method SendSubscribe(from: UInt64, table: Str, cursor: Str, narrowing: Option<Narrowing>)
      returns (error: Option<Error>)
      requires !subscribed && peerMinor as int >= NeededMinor(Subscribe(from, table, cursor, narrowing))
      modifies wire, this`subscribed
      ensures (error, State(), wire.history)
           == SubscribeFrom(wire.net, old(State()), old(wire.history), from, table, cursor, narrowing)
    {
      hide MessageBytes, AllAccepted;
      var body := SubscribeBody(from, table, cursor, narrowing);
      if body.Nothing? { return Some(Unwritable); }
      error := wire.Write(id, body.value, Subscribe(from, table, cursor, narrowing), Asking);
      if error.Nothing? { subscribed := true; }
    }

    method Changes(resumeAfter: UInt64, fromStart: bool, table: Str) returns (error: Option<Error>)
      modifies wire, this`subscribed
      ensures (error, State(), wire.history)
           == SubscribeFrom(wire.net, old(State()), old(wire.history), ResumeFrom(resumeAfter, fromStart), table, [],
                            Nothing)
    {
      hide Send;
      if subscribed { return Some(IsSubscribed); }
      var from: UInt64 := (resumeAfter + 1) % TWO_64;
      if fromStart { from := 0; }
      error := SendSubscribe(from, table, [], Nothing);
    }

    method ChangesAt(cursor: Str, table: Str) returns (error: Option<Error>)
      modifies wire, this`subscribed
      ensures (error, State(), wire.history)
           == SubscribeFrom(wire.net, old(State()), old(wire.history), 0, table, cursor, Nothing)
    {
      hide Send;
      if subscribed { return Some(IsSubscribed); }
      error := SendSubscribe(0, table, cursor, Nothing);
    }

    method ChangesWhere(resumeAfter: UInt64, fromStart: bool, table: Str, narrowing: Narrowing)
      returns (error: Option<Error>)
      modifies wire, this`subscribed
      ensures (error, State(), wire.history)
           == SubscribeFrom(wire.net, old(State()), old(wire.history), ResumeFrom(resumeAfter, fromStart), table, [],
                            Some(narrowing))
    {
      hide SubscribeFrom;
      var from: UInt64 := (resumeAfter + 1) % TWO_64;
      if fromStart { from := 0; }
      error := Narrowed(from, [], table, narrowing);
    }

    method ChangesWhereAt(cursor: Str, table: Str, narrowing: Narrowing) returns (error: Option<Error>)
      modifies wire, this`subscribed
      ensures (error, State(), wire.history)
           == SubscribeFrom(wire.net, old(State()), old(wire.history), 0, table, cursor, Some(narrowing))
    {
      error := Narrowed(0, cursor, table, narrowing);
    }

    method Narrowed(from: UInt64, cursor: Str, table: Str, narrowing: Narrowing) returns (error: Option<Error>)
      modifies wire, this`subscribed
      ensures (error, State(), wire.history)
           == SubscribeFrom(wire.net, old(State()), old(wire.history), from, table, cursor, Some(narrowing))
    {
      hide Send;
      if subscribed { return Some(IsSubscribed); }
      if peerMinor < F.CONDITION_MINOR { return Some(TooOld); }
      error := SendSubscribe(from, table, cursor, Some(narrowing));
    }
  }
}
