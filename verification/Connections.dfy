/**
 A connection's conversation as functions of the history so far (conn.go, follow.go, narrowed.go,
 vault_frame.go). What the nodes do is any function of that history.
 */
module Connections {
  import opened Words
  import opened Values
  import opened Encoding
  import opened Decoding
  import opened Outcomes
  import opened Texts
  import F = Frames

  // ---------- messages ----------

  datatype Credentials = Credentials(user: Str, password: Str)

  datatype Place = Place(namespace: Str, database: Str, vault: Str)

  datatype Act = Status | Unseal(passphrase: Str) | Seal | Change(current: Str, next: Str) | Declare(passphrase: Str)

  datatype Narrowing = Narrowing(condition: Str, parameters: map<Str, Value>)

  datatype Message =
    | Request(script: Str, credentials: Option<Credentials>, parameters: map<Str, Value>)
    | Vault(credentials: Option<Credentials>, place: Option<Place>, act: Act)
    | Subscribe(from: UInt64, table: Str, cursor: Str, narrowing: Option<Narrowing>)

  function CredentialsBytes(c: Option<Credentials>): Str {
    match c
    case Nothing => [0]
    case Some(who) => [1] + Lengthed(who.user) + Lengthed(who.password)
  }

  ghost function ParametersBytes(names: seq<Str>, parameters: map<Str, Value>): Str
    requires forall n :: n in names ==> n in parameters
  {
    if names == [] then [] else
      Lengthed(names[0]) + Lengthed(ValueBytes(parameters[names[0]])) + ParametersBytes(names[1..], parameters)
  }

  function PlaceBytes(p: Option<Place>): Str {
    match p
    case Nothing => [0]
    case Some(at) => [1] + Lengthed(at.namespace) + Lengthed(at.database) + Lengthed(at.vault)
  }

  function ActBytes(a: Act): Str {
    match a
    case Status => [1]
    case Unseal(p) => [2] + Lengthed(p)
    case Seal => [3]
    case Change(c, n) => [4] + Lengthed(c) + Lengthed(n)
    case Declare(p) => [5] + Lengthed(p)
  }

  /** A cursor takes its place, empty or not, once a condition follows it. */
  ghost function SubscribeBytes(from: UInt64, table: Str, cursor: Str, narrowing: Option<Narrowing>): Str {
    U64(from)
    + (if table == [] then [0] else [1] + Lengthed(table))
    + (if cursor != [] || narrowing.Some? then Lengthed(cursor) else [])
    + (if narrowing.Some?
       then Lengthed(narrowing.value.condition) + Lengthed(ValueBytes(Object(narrowing.value.parameters)))
       else [])
  }

  ghost function MessageBytes(m: Message): Str {
    match m
    case Request(script, c, ps) =>
      Lengthed(script) + CredentialsBytes(c) + U32(|ps|) + ParametersBytes(Sorted(ps.Keys), ps)
    case Vault(c, place, act) => CredentialsBytes(c) + PlaceBytes(place) + ActBytes(act)
    case Subscribe(from, table, cursor, narrowing) => SubscribeBytes(from, table, cursor, narrowing)
  }

  /** The kind of frame that carries it. */
  function KindOf(m: Message): Byte {
    match m
    case Request(_, _, _) => F.REQUEST
    case Vault(_, _, _) => F.VAULT
    case Subscribe(_, _, _, _) => F.SUBSCRIBE
  }

  predicate AllAccepted(ps: map<Str, Value>) {
    forall k :: k in ps ==> Accepted(ps[k])
  }

  predicate Carries(m: Message) {
    !m.Subscribe? && m.credentials.Some?
  }

  /** The minor a node must have announced before this message may reach it. */
  function NeededMinor(m: Message): nat {
    match m
    case Request(_, _, _) => 0
    case Vault(_, _, act) => if act.Declare? then F.DECLARE_MINOR else F.VAULT_MINOR
    case Subscribe(_, _, _, narrowing) => if narrowing.Some? then F.CONDITION_MINOR else 0
  }

  // ---------- histories ----------

  datatype Redirect = Redirect(node: Sixteen, epoch: UInt64, settled: bool, endpoint: Str)

  /** Why a frame was sent: to learn which node this is, to select a tenancy, or for the caller. */
  datatype Purpose = Checking | Selecting | Asking

  /** A connection is named by the place in the history at which it was dialled. */
  datatype Event =
    | Dialled(id: nat, cause: Option<Redirect>, reached: bool)
    | Greeted(id: nat, minor: Byte)
    | Sent(id: nat, message: Message, purpose: Purpose, delivered: bool)
    | Received(id: nat, arrival: F.Arrival)
    | Closed(id: nat)

  type History = seq<Event>

  /** The nodes and the network, free to depend on everything that happened. */
  datatype Network = Network(
    reaches: (History, Option<Redirect>) -> bool,
    greets: History -> Str,
    takes: (History, Message) -> bool,
    replies: History -> F.Arrival)

  datatype Conn = Conn(id: nat, credentials: Option<Credentials>, spent: bool, subscribed: bool, minor: Byte)

  datatype Error =
    | IsSubscribed | TooOld | Unwritable | TooLarge | NotDialled | Transport | Protocol | Refused(body: Str)
    | Loop | Stale | WrongNode | NotFollowable

  datatype Asked = Answered(outcomes: seq<Outcome>) | Elsewhere(redirect: Redirect) | Erred(error: Error)

  // ---------- one exchange ----------

  /** A socket that was opened and did not greet as a node does is closed again. */
  function Dial(net: Network, credentials: Option<Credentials>, cause: Option<Redirect>, h: History)
    : (Option<Conn>, History)
  {
    var id, reached := |h|, net.reaches(h, cause);
    var h' := h + [Dialled(id, cause, reached)];
    if !reached then (Nothing, h')
    else
      match F.ReadGreeting(net.greets(h'))
      case Peer(minor) => (Some(Conn(id, credentials, false, false, minor)), h' + [Greeted(id, minor)])
      case _ => (Nothing, h' + [Closed(id)])
  }

  /** Nothing is sent of a body over the ceiling. */
  ghost function Send(net: Network, c: Conn, h: History, m: Message, purpose: Purpose): (Option<Error>, History) {
    if |MessageBytes(m)| > F.CEILING then (Some(TooLarge), h)
    else if net.takes(h, m) then (Nothing, h + [Sent(c.id, m, purpose, true)])
    else (Some(Transport), h + [Sent(c.id, m, purpose, false)])
  }

  ghost function Exchange(net: Network, c: Conn, h: History, m: Message, purpose: Purpose)
    : (Option<F.Frame>, Error, History)
  {
    var (err, h') := Send(net, c, h, m, purpose);
    if err.Some? then (Nothing, err.value, h')
    else
      var arrival := net.replies(h');
      (if arrival.Whole? then Some(arrival.frame) else Nothing, Transport, h' + [Received(c.id, arrival)])
  }

  /** The credentials a frame sent now would carry. */
  function Unspent(c: Conn): Option<Credentials> {
    if c.spent then Nothing else c.credentials
  }

  function Spending(c: Conn): Conn {
    c.(spent := c.spent || c.credentials.Some?)
  }

  function ReadElsewhere(body: Str): Option<Redirect> {
    match ReadFixed(body, 16)
    case Failed => Nothing
    case Parsed(node, r, _) =>
      match ReadU64(r)
      case Failed => Nothing
      case Parsed(epoch, r', _) =>
        match ReadU8(r')
        case Failed => Nothing
        case Parsed(settlement, r'', _) =>
          if settlement != 1 && settlement != 2 then Nothing else
            match ReadText(r'')
            case Failed => Nothing
            case Parsed(endpoint, _, _) => Some(Redirect(node, epoch, settlement == 1, endpoint))
  }

  function Understood(frame: F.Frame): Asked {
    if frame.kind == F.ANSWER then
      match ReadAnswer(frame.body)
      case Nothing => Erred(Protocol)
      case Some(outcomes) => Answered(outcomes)
    else if frame.kind == F.REFUSAL then Erred(Refused(frame.body))
    else if frame.kind == F.ELSEWHERE then
      match ReadElsewhere(frame.body)
      case Nothing => Erred(Protocol)
      case Some(redirect) => Elsewhere(redirect)
    else Erred(Protocol)
  }

  /** The credential counts as spent from the moment the request is begun. */
  ghost function Ask(net: Network, c: Conn, h: History, script: Str, ps: map<Str, Value>, purpose: Purpose)
    : (Asked, Conn, History)
  {
    if c.subscribed then (Erred(IsSubscribed), c, h)
    else
      var m, c' := Request(script, Unspent(c), ps), Spending(c);
      if !AllAccepted(ps) then (Erred(Unwritable), c', h)
      else
        var (frame, err, h') := Exchange(net, c, h, m, purpose);
        (if frame.Some? then Understood(frame.value) else Erred(err), c', h')
  }

  // ---------- following a redirect ----------

  const MOST_HOPS := 3

  const CONTEXT_SCRIPT := Ascii("RETURN session::context();")
  const NODE := Ascii("node")

  /** The object a context question was answered with. */
  function ContextOf(asked: Asked): Option<map<Str, Value>> {
    if asked.Answered? && asked.outcomes != [] then
      var last := asked.outcomes[|asked.outcomes| - 1];
      if last.ValueOutcome? && last.value.Object? then Some(last.value.fields) else Nothing
    else Nothing
  }

  predicate IsNode(context: map<Str, Value>, node: Sixteen) {
    NODE in context && context[NODE] == Uuid(node)
  }

  ghost function Context(net: Network, c: Conn, h: History): (Option<map<Str, Value>>, Error, Conn, History) {
    var (asked, c', h') := Ask(net, c, h, CONTEXT_SCRIPT, map[], Checking);
    (ContextOf(asked), if asked.Erred? then asked.error else Protocol, c', h')
  }

  /** `USE what name; `, or nothing for a context without that name; a name that is not plain is refused. */
  function Use(context: map<Str, Value>, what: string, key: string): Option<Str> {
    if Ascii(key) in context && context[Ascii(key)].Text? then
      var name := context[Ascii(key)].text;
      if PlainName(name) then Some(Ascii("USE ") + Ascii(what) + Ascii(" ") + name + Ascii("; ")) else Nothing
    else Some([])
  }

  function Selection(context: map<Str, Value>): Option<Str> {
    match Use(context, "NAMESPACE", "namespace")
    case Nothing => Nothing
    case Some(a) =>
      match Use(context, "DATABASE", "database")
      case Nothing => Nothing
      case Some(b) => Some(a + b)
  }

  /** Check the node, select the tenancy, and only then send the request. */
  ghost function Arrive(
    net: Network, there: Conn, h: History, node: Sixteen, selecting: Str, script: Str, ps: map<Str, Value>)
    : (Asked, Conn, History)
  {
    var (context, err, c1, h1) := Context(net, there, h);
    if context.Nothing? then (Erred(err), c1, h1)
    else if !IsNode(context.value, node) then (Erred(WrongNode), c1, h1)
    else if selecting == [] then Ask(net, c1, h1, script, ps, Asking)
    else
      var (selected, c2, h2) := Ask(net, c1, h1, selecting, map[], Selecting);
      if selected.Erred? then (selected, c2, h2) else Ask(net, c2, h2, script, ps, Asking)
  }

  ghost function FollowFrom(
    net: Network, home: Conn, h: History, selecting: Str, script: Str, ps: map<Str, Value>,
    redirect: Redirect, floor: UInt64, hops: nat): (Asked, Conn, History)
    requires hops <= MOST_HOPS
    decreases MOST_HOPS - hops
  {
    if hops >= MOST_HOPS then (Erred(Loop), home, h)
    else if redirect.epoch < floor then (Erred(Stale), home, h)
    else
      var (there, h1) := Dial(net, home.credentials, Some(redirect), h);
      if there.Nothing? then (Erred(NotDialled), home, h1)
      else
        var (asked, c, h2) := Arrive(net, there.value, h1, redirect.node, selecting, script, ps);
        if asked.Answered? && redirect.settled then
          (asked, home.(id := c.id, minor := c.minor, spent := c.spent), h2 + [Closed(home.id)])
        else if asked.Elsewhere? then
          FollowFrom(net, home, h2 + [Closed(c.id)], selecting, script, ps, asked.redirect, redirect.epoch, hops + 1)
        else (asked, home, h2 + [Closed(c.id)])
  }

  ghost function Follow(
    net: Network, c: Conn, h: History, script: Str, ps: map<Str, Value>, first: Redirect): (Asked, Conn, History)
  {
    var (context, err, c', h') := Context(net, c, h);
    if context.Nothing? then (Erred(err), c', h')
    else
      match Selection(context.value)
      case Nothing => (Erred(NotFollowable), c', h')
      case Some(selecting) => FollowFrom(net, c', h', selecting, script, ps, first, 0, 0)
  }

  // ---------- what a caller may do ----------

  ghost function Execute(net: Network, c: Conn, h: History, script: Str, ps: map<Str, Value>): (Asked, Conn, History) {
    var (asked, c', h') := Ask(net, c, h, script, ps, Asking);
    if asked.Elsewhere? then Follow(net, c', h', script, ps, asked.redirect) else (asked, c', h')
  }

  /** One vault act; its answer is one value. */
  ghost function VaultFrame(net: Network, c: Conn, h: History, place: Option<Place>, act: Act): (Asked, Conn, History) {
    var m, c' := Vault(Unspent(c), place, act), Spending(c);
    if c.minor < NeededMinor(m) then (Erred(TooOld), c, h)
    else if c.subscribed then (Erred(IsSubscribed), c, h)
    else
      var (frame, err, h') := Exchange(net, c, h, m, Asking);
      if frame.Nothing? then (Erred(err), c', h')
      else
        var asked := Understood(frame.value);
        if asked.Elsewhere? || (asked.Answered? && !(|asked.outcomes| == 1 && asked.outcomes[0].ValueOutcome?))
        then (Erred(Protocol), c', h')
        else (asked, c', h')
  }

  /** A subscription, narrowed or not. */
  ghost function SubscribeFrom(
    net: Network, c: Conn, h: History, from: UInt64, table: Str, cursor: Str, narrowing: Option<Narrowing>)
    : (Option<Error>, Conn, History)
  {
    var m := Subscribe(from, table, cursor, narrowing);
    if c.subscribed then (Some(IsSubscribed), c, h)
    else if c.minor < NeededMinor(m) then (Some(TooOld), c, h)
    else if narrowing.Some? && !AllAccepted(narrowing.value.parameters) then (Some(Unwritable), c, h)
    else
      var (err, h') := Send(net, c, h, m, Asking);
      (err, c.(subscribed := err.Nothing?), h')
  }

  /** The protocol's own field is inclusive; the step past the last change is taken here, and wraps as a uint64. */
  function ResumeFrom(resumeAfter: UInt64, fromStart: bool): UInt64 {
    if fromStart then 0 else (resumeAfter + 1) % TWO_64
  }

  datatype Call =
    | Statement(script: Str, parameters: map<Str, Value>)
    | VaultAct(place: Option<Place>, act: Act)
    | Changes(from: UInt64, table: Str, cursor: Str, narrowing: Option<Narrowing>)

  ghost function After(net: Network, c: Conn, h: History, call: Call): (Conn, History) {
    match call
    case Statement(script, ps) => var (_, c', h') := Execute(net, c, h, script, ps); (c', h')
    case VaultAct(place, act) => var (_, c', h') := VaultFrame(net, c, h, place, act); (c', h')
    case Changes(from, table, cursor, n) =>
      var (_, c', h') := SubscribeFrom(net, c, h, from, table, cursor, n);
      (c', h')
  }

  ghost function Run(net: Network, c: Conn, h: History, calls: seq<Call>): (Conn, History)
    decreases |calls|
  {
    if calls == [] then (c, h) else
      var (c', h') := After(net, c, h, calls[0]);
      Run(net, c', h', calls[1..])
  }
}
