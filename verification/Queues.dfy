/**
 A queue worker (queue.go): claim, handle, settle, and hand back on a stop. The store, the handler and
 the stop are any functions of what has happened so far.
 */
module Queues {
  import opened Words
  import opened Values
  import opened Texts
  import opened Outcomes
  import opened Statements

  datatype Job = Job(identity: Str, work: map<Str, Value>, attempts: nat)

  /** What a claim is answered with: records, a refusal of class retry, or anything else. */
  datatype Claim = Rows(rows: seq<Row>) | Retry | Broken

  /** What a handler decides. RunAuto's nil is Finish, and its error a HandBack at once. */
  datatype Verdict = Finish | HandBack(afterNanos: int) | Leave

  datatype How = Deleted | Released(notBeforeMillis: nat)

  /** A delivery is one job of one claim: the claim's place in the history, and the job's place in the claim. */
  datatype Event =
    | Claimed(jobs: seq<Job>)
    | NothingClaimed
    | Waited(millis: nat)
    | Handled(claim: nat, index: nat, verdict: Verdict)
    | Settled(claim: nat, index: nat, how: How, ok: bool)

  type History = seq<Event>

  datatype World = World(
    claims: History -> Claim,
    fails: (History, Job) -> bool,
    decides: (History, Job) -> Verdict,
    settles: History -> bool,
    stopped: History -> bool)

  const FIRST_WAIT := 50
  const LONGEST_WAIT := 1000
  const MOST_CLAIMED := 500

  // ---------- jobs ----------

  const HOLD: set<Str> := {Ascii("attempts"), Ascii("claimed_until"), Ascii("claimed_by")}

  /** A record as work: its own fields without the engine's hold, and how often it was handed out. */
  function AsJob(row: Row): Option<Job> {
    if !row.value.Object? then Nothing
    else
      var fields := row.value.fields;
      if Ascii("attempts") !in fields || !fields[Ascii("attempts")].Integer? || fields[Ascii("attempts")].number < 0
      then Nothing
      else Some(Job(row.identity, fields - HOLD, fields[Ascii("attempts")].number))
  }

  /** A record that counts its attempts is a job: its identity, the count, and every other field of its own. */
  ghost predicate IsWork(row: Row, job: Option<Job>) {
    match row.value
    case Object(fields) =>
      var attempts := Ascii("attempts");
      && (job.Some? <==> attempts in fields && fields[attempts].Integer? && fields[attempts].number >= 0)
      && (job.Some? ==>
            && job.value.identity == row.identity && job.value.attempts == fields[attempts].number
            && (forall n :: n in job.value.work <==>
                  n in fields && n != attempts && n != Ascii("claimed_until") && n != Ascii("claimed_by"))
            && forall n :: n in job.value.work ==> job.value.work[n] == fields[n])
    case _ => job.Nothing?
  }

  lemma JobIsWork(row: Row)
    ensures IsWork(row, AsJob(row))
  {
    hide Ascii;
  }

  method ToJob(row: Row) returns (job: Option<Job>)
    ensures job == AsJob(row) && IsWork(row, job)
  {
    JobIsWork(row);
    hide Ascii, IsWork;
    if !row.value.Object? { return Nothing; }
    var fields := row.value.fields;
    var attempts := Ascii("attempts");
    if attempts !in fields || !fields[attempts].Integer? || fields[attempts].number < 0 { return Nothing; }
    var work: map<Str, Value> := map[];
    var left := fields.Keys;
    while left != {}
      invariant left <= fields.Keys
      invariant forall n :: n in work <==> n in fields && n !in left && n !in HOLD
      invariant forall n :: n in work ==> work[n] == fields[n]
      decreases |left|
    {
      var name :| name in left;
      left := left - {name};
      if name !in HOLD { work := work[name := fields[name]]; }
    }
    assert work == fields - HOLD;
    job := Some(Job(row.identity, work, fields[attempts].number));
  }

  /** Only a delay of a millisecond or more is written; the rest is at once. */
  function DelayOf(afterNanos: int): nat {
    if afterNanos >= 1_000_000 then afterNanos / 1_000_000 else 0
  }

  function SettlementOf(v: Verdict): Option<How> {
    match v
    case Finish => Some(Deleted)
    case HandBack(after) => Some(Released(DelayOf(after)))
    case Leave => Nothing
  }

  // ---------- what a history says of one delivery ----------

  predicate IsDelivery(h: History, c: nat, i: nat) {
    c < |h| && h[c].Claimed? && i < |h[c].jobs|
  }

  predicate HandledAt(e: Event, c: nat, i: nat) {
    e.Handled? && e.claim == c && e.index == i
  }

  predicate SettledAt(e: Event, c: nat, i: nat) {
    e.Settled? && e.claim == c && e.index == i
  }

  ghost predicate NotHandled(h: History, c: nat, i: nat) {
    forall k :: 0 <= k < |h| ==> !HandledAt(h[k], c, i)
  }

  ghost predicate NotSettled(h: History, c: nat, i: nat) {
    forall k :: 0 <= k < |h| ==> !SettledAt(h[k], c, i)
  }

  /** The handler saw it once, and decided this. */
  ghost predicate HandledOnce(h: History, c: nat, i: nat, v: Verdict) {
    exists k :: 0 <= k < |h| && h[k] == Handled(c, i, v) && forall j :: 0 <= j < |h| && HandledAt(h[j], c, i) ==> j == k
  }

  /** It was settled once, in this way. */
  ghost predicate SettledOnce(h: History, c: nat, i: nat, how: How) {
    exists k ::
      && 0 <= k < |h| && h[k] == Settled(c, i, how, true)
      && forall j :: 0 <= j < |h| && SettledAt(h[j], c, i) ==> j == k
  }

  ghost predicate SettledAs(h: History, c: nat, i: nat, how: Option<How>) {
    if how.Some? then SettledOnce(h, c, i, how.value) else NotSettled(h, c, i)
  }

  /** Settled as the handler decided, or handed back unseen. */
  ghost predicate Resolved(h: History, c: nat, i: nat) {
    || (exists v :: HandledOnce(h, c, i, v) && SettledAs(h, c, i, SettlementOf(v)))
    || (NotHandled(h, c, i) && SettledOnce(h, c, i, Released(0)))
  }

  ghost predicate AtMostOnce(h: History) {
    forall j, k :: 0 <= j < k < |h| && h[j].Settled? && h[k].Settled? ==>
      (h[j].claim, h[j].index) != (h[k].claim, h[k].index)
  }

  predicate Precedes(c: nat, i: nat, d: nat, j: nat) {
    c < d || (c == d && i < j)
  }

  /** Handlers ran in the order of the claims, and never twice for one delivery. */
  ghost predicate InClaimOrder(h: History) {
    forall j, k :: 0 <= j < k < |h| && h[j].Handled? && h[k].Handled? ==>
      Precedes(h[j].claim, h[j].index, h[k].claim, h[k].index)
  }

  // ---------- the frontier ----------

  predicate About(e: Event) {
    e.Handled? || e.Settled?
  }

  /** Nothing has happened yet to the deliveries at (c, i) and after. */
  ghost predicate Untouched(h: History, c: nat, i: nat) {
    forall k :: 0 <= k < |h| && About(h[k]) ==> Precedes(h[k].claim, h[k].index, c, i)
  }

  /** Everything before (c, i) is resolved, and nothing at it or after it has begun. */
  ghost predicate Frontier(h: History, c: nat, i: nat) {
    && Untouched(h, c, i)
    && (forall d, j :: IsDelivery(h, d, j) && Precedes(d, j, c, i) ==> Resolved(h, d, j))
    && AtMostOnce(h) && InClaimOrder(h)
  }

  ghost predicate AllResolved(h: History) {
    forall c, i :: IsDelivery(h, c, i) ==> Resolved(h, c, i)
  }

  /** RunAuto's handlers only succeed or fail. */
  ghost predicate Automatic(h: History) {
    forall k :: 0 <= k < |h| && h[k].Handled? ==> h[k].verdict == Finish || h[k].verdict == HandBack(0)
  }

  // ---------- what the world answered ----------

  /** How long a claim that came back with nothing is waited on: double the wait before that claim, up to a second. */
  function NextWait(h: History): nat {
    if h == [] || !h[|h| - 1].Waited? then FIRST_WAIT
    else if h[|h| - 1].millis * 2 < LONGEST_WAIT then h[|h| - 1].millis * 2 else LONGEST_WAIT
  }

  /** The last claim found no work, or was refused with class retry. */
  ghost predicate CameEmpty(world: World, h: History) {
    h != [] && (h[|h| - 1] == Claimed([]) || (h[|h| - 1].NothingClaimed? && world.claims(h[..|h| - 1]).Retry?))
  }

  /** The handler has just decided this of it. */
  predicate JustDecided(h: History, c: nat, i: nat, how: How) {
    h != [] && HandledAt(h[|h| - 1], c, i) && SettlementOf(h[|h| - 1].verdict) == Some(how)
  }

  /** The run was seen stopped once an earlier job of the batch had had its turn. */
  ghost predicate StoppedEarlier(world: World, h: History, c: nat, i: nat) {
    exists k :: 0 < k <= |h| && world.stopped(h[..k]) && About(h[k - 1]) && h[k - 1].claim == c && h[k - 1].index < i
  }

  /**
   An event is what the store, the handler or the wait made of the history before it. Nothing is claimed once
   the run is stopped, and no handler follows another job of its batch; a settlement follows the decision it
   carries out, and only a stop after an earlier job of the batch hands back what the handler never saw.
   */
  ghost predicate TrueTo(world: World, auto: bool, h: History, e: Event) {
    match e
    case Claimed(jobs) =>
      var answer := world.claims(h);
      && !world.stopped(h)
      && answer.Rows? && |jobs| == |answer.rows|
      && forall i :: 0 <= i < |jobs| ==> AsJob(answer.rows[i]) == Some(jobs[i])
    case NothingClaimed =>
      var answer := world.claims(h);
      !world.stopped(h) && (answer.Rows? ==> exists i :: 0 <= i < |answer.rows| && AsJob(answer.rows[i]).Nothing?)
    case Waited(millis) => CameEmpty(world, h) && millis == NextWait(h[..|h| - 1])
    case Handled(c, i, v) =>
      && IsDelivery(h, c, i) && v == Decision(world, auto, h, h[c].jobs[i])
      && (About(h[|h| - 1]) ==> !world.stopped(h))
    case Settled(c, i, how, ok) =>
      && IsDelivery(h, c, i) && ok == world.settles(h)
      && (JustDecided(h, c, i, how) || (how == Released(0) && NotHandled(h, c, i) && StoppedEarlier(world, h, c, i)))
  }

  function Decision(world: World, auto: bool, h: History, job: Job): Verdict {
    if !auto then world.decides(h, job) else if world.fails(h, job) then HandBack(0) else Finish
  }

  ghost predicate Genuine(world: World, auto: bool, h: History) {
    forall k :: 0 <= k < |h| ==> TrueTo(world, auto, h[..k], h[k])
  }

  lemma GenuineNext(world: World, auto: bool, h: History, e: Event)
    requires Genuine(world, auto, h) && TrueTo(world, auto, h, e)
    ensures Genuine(world, auto, h + [e])
  {
    hide TrueTo;
    var h' := h + [e];
    forall k | 0 <= k < |h'| ensures TrueTo(world, auto, h'[..k], h'[k]) {
      assert h'[..k] == if k < |h| then h[..k] else h;
    }
  }

  /** A handler's call is genuine where it may be made, and the delivery is still there after it. */
  lemma HandledIsTrue(world: World, auto: bool, h: History, c: nat, i: nat, job: Job)
    requires Genuine(world, auto, h) && IsDelivery(h, c, i) && h[c].jobs[i] == job
    requires About(h[|h| - 1]) ==> !world.stopped(h)
    ensures var h' := h + [Handled(c, i, Decision(world, auto, h, job))];
            Genuine(world, auto, h') && IsDelivery(h', c, i)
    ensures var v := Decision(world, auto, h, job); var how := SettlementOf(v);
            how.Some? ==> JustDecided(h + [Handled(c, i, v)], c, i, how.value)
  {
    hide Genuine, Decision;
    GenuineNext(world, auto, h, Handled(c, i, Decision(world, auto, h, job)));
  }

  lemma SettledIsTrue(world: World, auto: bool, h: History, c: nat, i: nat, how: How)
    requires Genuine(world, auto, h) && IsDelivery(h, c, i)
    requires JustDecided(h, c, i, how) || (how == Released(0) && NotHandled(h, c, i) && StoppedEarlier(world, h, c, i))
    ensures Genuine(world, auto, h + [Settled(c, i, how, world.settles(h))])
  {
    hide Genuine, NotHandled, StoppedEarlier;
    GenuineNext(world, auto, h, Settled(c, i, how, world.settles(h)));
  }

  lemma GenuineIsAutomatic(world: World, h: History)
    requires Genuine(world, true, h)
    ensures Automatic(h)
  {
    forall k | 0 <= k < |h| && h[k].Handled? ensures h[k].verdict == Finish || h[k].verdict == HandBack(0) {
      assert TrueTo(world, true, h[..k], h[k]);
    }
  }

  ghost predicate StoppedIn(world: World, h: History) {
    exists k :: 0 <= k <= |h| && world.stopped(h[..k])
  }

  /** The last thing that happened went wrong. */
  predicate Broke(h: History) {
    h != [] && (h[|h| - 1].NothingClaimed? || (h[|h| - 1].Settled? && !h[|h| - 1].ok))
  }

  /** How many claims the store answered. */
  function Claims(h: History): nat {
    if h == [] then 0 else Claims(h[..|h| - 1]) + if h[|h| - 1].Claimed? || h[|h| - 1].NothingClaimed? then 1 else 0
  }

  lemma OneMoreClaim(h: History, e: Event)
    ensures Claims(h + [e]) == Claims(h) + if e.Claimed? || e.NothingClaimed? then 1 else 0
  {
    assert (h + [e])[..|h|] == h;
  }

  lemma StoppedHere(world: World, h: History)
    requires world.stopped(h)
    ensures StoppedIn(world, h)
  {
    assert h[..|h|] == h;
  }

  // ---------- one event more ----------

  /** An event about another delivery changes nothing about this one. */
  lemma OthersStayResolved(h: History, e: Event, c: nat, i: nat)
    requires Resolved(h, c, i) && !HandledAt(e, c, i) && !SettledAt(e, c, i)
    ensures Resolved(h + [e], c, i)
  {
    var h' := h + [e];
    if NotHandled(h, c, i) && SettledOnce(h, c, i, Released(0)) {
      StaysSettled(h, e, c, i, Some(Released(0)));
    } else {
      var v :| HandledOnce(h, c, i, v) && SettledAs(h, c, i, SettlementOf(v));
      StaysHandled(h, e, c, i, v);
      StaysSettled(h, e, c, i, SettlementOf(v));
    }
  }

  lemma StaysHandled(h: History, e: Event, c: nat, i: nat, v: Verdict)
    requires HandledOnce(h, c, i, v) && !HandledAt(e, c, i)
    ensures HandledOnce(h + [e], c, i, v)
  {
    var k :| 0 <= k < |h| && h[k] == Handled(c, i, v) && forall j :: 0 <= j < |h| && HandledAt(h[j], c, i) ==> j == k;
    assert (h + [e])[k] == Handled(c, i, v);
  }

  lemma StaysSettled(h: History, e: Event, c: nat, i: nat, how: Option<How>)
    requires SettledAs(h, c, i, how) && !SettledAt(e, c, i)
    ensures SettledAs(h + [e], c, i, how)
  {
    if how.Some? {
      var k :| 0 <= k < |h| && h[k] == Settled(c, i, how.value, true)
               && forall j :: 0 <= j < |h| && SettledAt(h[j], c, i) ==> j == k;
      assert (h + [e])[k] == Settled(c, i, how.value, true);
    }
  }

  /** A new event about nothing, or about what stands at the frontier. */
  lemma FrontierStays(h: History, e: Event, c: nat, i: nat)
    requires Frontier(h, c, i) && !About(e) && (e.Claimed? ==> c == |h| && i == 0)
    ensures Frontier(h + [e], c, i)
  {
    hide Resolved;
    forall d: nat, j: nat | IsDelivery(h + [e], d, j) && Precedes(d, j, c, i) ensures Resolved(h + [e], d, j) {
      assert IsDelivery(h, d, j);
      OthersStayResolved(h, e, d, j);
    }
  }

  lemma HandledNow(h: History, c: nat, i: nat, v: Verdict)
    requires NotHandled(h, c, i)
    ensures HandledOnce(h + [Handled(c, i, v)], c, i, v)
  {
    assert (h + [Handled(c, i, v)])[|h|] == Handled(c, i, v);
  }

  lemma SettledNow(h: History, c: nat, i: nat, how: How)
    requires NotSettled(h, c, i)
    ensures SettledOnce(h + [Settled(c, i, how, true)], c, i, how)
  {
    assert (h + [Settled(c, i, how, true)])[|h|] == Settled(c, i, how, true);
  }

  lemma UntouchedIsUnseen(h: History, c: nat, i: nat)
    requires Untouched(h, c, i)
    ensures NotHandled(h, c, i) && NotSettled(h, c, i)
  {}

  /** What is about to happen to the delivery at the frontier: the handler's call and the settlement. */
  function Turn(c: nat, i: nat, v: Verdict, ok: bool): seq<Event> {
    [Handled(c, i, v)] + if SettlementOf(v).Some? then [Settled(c, i, SettlementOf(v).value, ok)] else []
  }

  lemma Orderly(h: History, c: nat, i: nat, e: Event)
    requires Untouched(h, c, i) && AtMostOnce(h) && InClaimOrder(h)
    requires About(e) && e.claim == c && e.index == i
    ensures AtMostOnce(h + [e]) && InClaimOrder(h + [e]) && Untouched(h + [e], c, i + 1)
  {}

  /** After Handled, the settlement of the same delivery still follows in order. */
  lemma OrderlyAgain(h: History, c: nat, i: nat, v: Verdict, how: How, ok: bool)
    requires Untouched(h, c, i) && AtMostOnce(h) && InClaimOrder(h)
    ensures var h' := h + [Handled(c, i, v)] + [Settled(c, i, how, ok)];
            AtMostOnce(h') && InClaimOrder(h') && Untouched(h', c, i + 1)
  {
    Orderly(h, c, i, Handled(c, i, v));
  }

  lemma TurnResolves(h: History, c: nat, i: nat, v: Verdict)
    requires Frontier(h, c, i)
    ensures Frontier(h + Turn(c, i, v, true), c, i + 1)
  {
    hide Resolved, SettledOnce, HandledOnce, AtMostOnce, InClaimOrder, Untouched;
    var h1 := h + [Handled(c, i, v)];
    var how := SettlementOf(v);
    UntouchedIsUnseen(h, c, i);
    Orderly(h, c, i, Handled(c, i, v));
    HandledNow(h, c, i, v);
    StaysSettled(h, Handled(c, i, v), c, i, Nothing);
    if how.Some? {
      var e := Settled(c, i, how.value, true);
      assert h + Turn(c, i, v, true) == h1 + [e];
      OrderlyAgain(h, c, i, v, how.value, true);
      SettledNow(h1, c, i, how.value);
      StaysHandled(h1, e, c, i, v);
      ThisIsResolved(h1 + [e], c, i, v);
      forall d: nat, j: nat | IsDelivery(h1 + [e], d, j) && Precedes(d, j, c, i + 1) ensures Resolved(h1 + [e], d, j) {
        if (d, j) != (c, i) {
          assert IsDelivery(h, d, j);
          OthersStayResolved(h, Handled(c, i, v), d, j);
          OthersStayResolved(h1, e, d, j);
        }
      }
    } else {
      assert h + Turn(c, i, v, true) == h1;
      ThisIsResolved(h1, c, i, v);
      forall d: nat, j: nat | IsDelivery(h1, d, j) && Precedes(d, j, c, i + 1) ensures Resolved(h1, d, j) {
        if (d, j) != (c, i) {
          assert IsDelivery(h, d, j);
          OthersStayResolved(h, Handled(c, i, v), d, j);
        }
      }
    }
  }

  lemma ThisIsResolved(h: History, c: nat, i: nat, v: Verdict)
    requires HandledOnce(h, c, i, v) && SettledAs(h, c, i, SettlementOf(v))
    ensures Resolved(h, c, i)
  {}

  /** Handing back a delivery the handler never saw. */
  lemma HandBackResolves(h: History, c: nat, i: nat)
    requires Frontier(h, c, i)
    ensures Frontier(h + [Settled(c, i, Released(0), true)], c, i + 1)
  {
    hide Resolved, SettledOnce, HandledOnce, AtMostOnce, InClaimOrder, Untouched;
    var e := Settled(c, i, Released(0), true);
    UntouchedIsUnseen(h, c, i);
    Orderly(h, c, i, e);
    SettledNow(h, c, i, Released(0));
    assert NotHandled(h + [e], c, i);
    UnseenIsResolved(h + [e], c, i);
    forall d: nat, j: nat | IsDelivery(h + [e], d, j) && Precedes(d, j, c, i + 1) ensures Resolved(h + [e], d, j) {
      if (d, j) != (c, i) {
        assert IsDelivery(h, d, j);
        OthersStayResolved(h, e, d, j);
      }
    }
  }

  lemma UnseenIsResolved(h: History, c: nat, i: nat)
    requires NotHandled(h, c, i) && SettledOnce(h, c, i, Released(0))
    ensures Resolved(h, c, i)
  {}

  /** Once a batch is through, the frontier stands past everything claimed. */
  lemma BatchIsThrough(h: History, c: nat, n: nat)
    requires Frontier(h, c, n) && c < |h| && h[c].Claimed? && |h[c].jobs| == n
    requires OfLastClaim(h, c)
    ensures Frontier(h, |h|, 0)
  {
    hide Resolved, AtMostOnce, InClaimOrder;
  }

  lemma FrontierAtEnd(h: History)
    requires Frontier(h, |h|, 0)
    ensures AllResolved(h)
  {
    hide Resolved, AtMostOnce, InClaimOrder;
  }

  lemma NewClaim(h: History, jobs: seq<Job>)
    requires Frontier(h, |h|, 0)
    ensures Frontier(h + [Claimed(jobs)], |h|, 0)
  {
    FrontierStays(h, Claimed(jobs), |h|, 0);
  }

  lemma NothingNew(h: History, e: Event)
    requires Frontier(h, |h|, 0) && (e.NothingClaimed? || e.Waited? || e == Claimed([]))
    ensures Frontier(h + [e], |h| + 1, 0)
  {
    hide Resolved, AtMostOnce, InClaimOrder;
    FrontierStays(h, e, |h|, 0);
    assert forall d: nat, j: nat :: IsDelivery(h + [e], d, j) ==> IsDelivery(h, d, j);
    assert forall k :: 0 <= k < |h + [e]| && About((h + [e])[k]) ==> k < |h|;
  }

  lemma FailedTurn(h: History, c: nat, i: nat, v: Verdict, ok: bool)
    requires Frontier(h, c, i) && OfLastClaim(h, c)
    ensures AtMostOnce(h + Turn(c, i, v, ok)) && InClaimOrder(h + Turn(c, i, v, ok))
    ensures Broke(h + Turn(c, i, v, ok)) ==> CutShort(h + Turn(c, i, v, ok))
  {
    hide BrokeAt;
    FrontierBreaks(h, c, i);
    OthersStillResolved(h, Handled(c, i, v), c, i);
    Orderly(h, c, i, Handled(c, i, v));
    var how := SettlementOf(v);
    if how.Some? {
      OrderlyAgain(h, c, i, v, how.value, ok);
      assert h + Turn(c, i, v, ok) == h + [Handled(c, i, v)] + [Settled(c, i, how.value, ok)];
      OthersStillResolved(h + [Handled(c, i, v)], Settled(c, i, how.value, ok), c, i);
    }
  }

  // ---------- what a run did ----------

  /** It was handed back unseen, after a stop that came before its turn and after an earlier job of its batch. */
  ghost predicate NeverSeen(world: World, h: History, c: nat, i: nat) {
    && NotHandled(h, c, i) && SettledOnce(h, c, i, Released(0))
    && exists k :: 0 <= k < |h| && SettledAt(h[k], c, i) && StoppedEarlier(world, h[..k], c, i)
  }

  /** The handler saw it at k, and at no other time. */
  ghost predicate HandledOnlyAt(h: History, k: nat, c: nat, i: nat) {
    k < |h| && HandledAt(h[k], c, i) && forall j :: 0 <= j < |h| && HandledAt(h[j], c, i) ==> j == k
  }

  /** Whole milliseconds, none for less than one. */
  predicate InMillis(nanos: int, millis: nat) {
    if nanos < 1_000_000 then millis == 0 else millis * 1_000_000 <= nanos < (millis + 1) * 1_000_000
  }

  /** What the handler said when it was called at k, and what became of the delivery. */
  ghost predicate CarriedOut(world: World, auto: bool, h: History, k: nat, c: nat, i: nat)
    requires k <= |h| && IsDelivery(h, c, i)
  {
    var job := h[c].jobs[i];
    if auto then
      if world.fails(h[..k], job) then SettledOnce(h, c, i, Released(0)) else SettledOnce(h, c, i, Deleted)
    else
      match world.decides(h[..k], job)
      case Finish => SettledOnce(h, c, i, Deleted)
      case HandBack(after) => exists millis: nat :: InMillis(after, millis) && SettledOnce(h, c, i, Released(millis))
      case Leave => NotSettled(h, c, i)
  }

  /** The handler saw it once and it was settled as the handler had it, or a stop came before its turn. */
  ghost predicate Served(world: World, auto: bool, h: History, c: nat, i: nat)
    requires IsDelivery(h, c, i)
  {
    || (exists k :: HandledOnlyAt(h, k, c, i) && CarriedOut(world, auto, h, k, c, i))
    || NeverSeen(world, h, c, i)
  }

  ghost predicate AllServed(world: World, auto: bool, h: History) {
    forall c, i :: IsDelivery(h, c, i) ==> Served(world, auto, h, c, i)
  }

  /** A wait follows a claim that came back with nothing: 50 milliseconds at first, then twice the last, up to 1000. */
  predicate WaitsAt(h: History, k: nat)
    requires k < |h| && h[k].Waited?
  {
    && k >= 1 && (h[k - 1] == Claimed([]) || h[k - 1].NothingClaimed?)
    && (k >= 2 && h[k - 2].Waited? ==> h[k].millis == if h[k - 2].millis < 500 then 2 * h[k - 2].millis else 1000)
    && (!(k >= 2 && h[k - 2].Waited?) ==> h[k].millis == 50)
  }

  predicate WaitsDouble(h: History) {
    forall k :: 0 <= k < |h| && h[k].Waited? ==> WaitsAt(h, k)
  }

  lemma GenuineWaits(world: World, auto: bool, h: History)
    requires Genuine(world, auto, h)
    ensures WaitsDouble(h)
  {
    forall k | 0 <= k < |h| && h[k].Waited? ensures WaitsAt(h, k) {
      assert TrueTo(world, auto, h[..k], h[k]);
      assert h[..k][..k - 1] == h[..k - 1];
    }
  }

  /** Every decision is the handler's, and the settlement sent for it is the one it asks for, failing or not. */
  ghost predicate HandlersHeeded(world: World, auto: bool, h: History) {
    && (forall k :: 0 <= k < |h| && h[k].Handled? ==> Heeded(world, auto, h, k))
    && (forall k :: 0 < k < |h| && h[k].Settled? && HandledAt(h[k - 1], h[k].claim, h[k].index) ==>
          match h[k - 1].verdict
          case Finish => h[k].how == Deleted
          case HandBack(after) => h[k].how.Released? && InMillis(after, h[k].how.notBeforeMillis)
          case Leave => false)
  }

  ghost predicate Heeded(world: World, auto: bool, h: History, k: nat)
    requires k < |h| && h[k].Handled?
  {
    var c, i := h[k].claim, h[k].index;
    && IsDelivery(h, c, i)
    && h[k].verdict ==
         if auto then (if world.fails(h[..k], h[c].jobs[i]) then HandBack(0) else Finish)
         else world.decides(h[..k], h[c].jobs[i])
  }

  lemma GenuineIsHeeded(world: World, auto: bool, h: History)
    requires Genuine(world, auto, h)
    ensures HandlersHeeded(world, auto, h)
  {
    forall k | 0 <= k < |h| && h[k].Handled? ensures Heeded(world, auto, h, k) {
      assert TrueTo(world, auto, h[..k], h[k]);
      assert h[..k][h[k].claim] == h[h[k].claim];
    }
    forall k | 0 < k < |h| && h[k].Settled? && HandledAt(h[k - 1], h[k].claim, h[k].index)
      ensures match h[k - 1].verdict
              case Finish => h[k].how == Deleted
              case HandBack(after) => h[k].how.Released? && InMillis(after, h[k].how.notBeforeMillis)
              case Leave => false
    {
      assert TrueTo(world, auto, h[..k], h[k]);
      assert h[..k][k - 1] == h[k - 1];
    }
  }

  /** A decision is carried out as the handler had it. */
  lemma DecidedIsCarriedOut(world: World, auto: bool, h: History, k: nat, c: nat, i: nat, v: Verdict)
    requires Genuine(world, auto, h) && k < |h| && h[k] == Handled(c, i, v) && IsDelivery(h, c, i)
    requires SettledAs(h, c, i, SettlementOf(v))
    ensures CarriedOut(world, auto, h, k, c, i)
  {
    hide SettledOnce, NotSettled;
    assert TrueTo(world, auto, h[..k], h[k]);
    assert h[..k][c] == h[c];
    if v.HandBack? { assert InMillis(v.afterNanos, DelayOf(v.afterNanos)); }
  }

  /** In a genuine run only a stop hands back what the handler never saw. */
  lemma OnlyAStop(world: World, auto: bool, h: History, c: nat, i: nat)
    requires Genuine(world, auto, h) && NotHandled(h, c, i) && SettledOnce(h, c, i, Released(0))
    ensures NeverSeen(world, h, c, i)
  {
    hide StoppedEarlier, Decision;
    var k :| 0 <= k < |h| && h[k] == Settled(c, i, Released(0), true);
    assert TrueTo(world, auto, h[..k], h[k]);
    assert StoppedEarlier(world, h[..k], c, i) && SettledAt(h[k], c, i);
  }

  lemma ThisIsServed(world: World, auto: bool, h: History, c: nat, i: nat)
    requires Genuine(world, auto, h) && Resolved(h, c, i) && IsDelivery(h, c, i)
    ensures Served(world, auto, h, c, i)
  {
    hide Genuine, NotHandled, SettledOnce, SettledAs, NeverSeen, CarriedOut;
    if NotHandled(h, c, i) && SettledOnce(h, c, i, Released(0)) {
      OnlyAStop(world, auto, h, c, i);
    } else {
      var v :| HandledOnce(h, c, i, v) && SettledAs(h, c, i, SettlementOf(v));
      var k :| 0 <= k < |h| && h[k] == Handled(c, i, v) && forall j :: 0 <= j < |h| && HandledAt(h[j], c, i) ==> j == k;
      DecidedIsCarriedOut(world, auto, h, k, c, i, v);
      assert HandledOnlyAt(h, k, c, i);
    }
  }

  lemma ResolvedIsServed(world: World, auto: bool, h: History)
    requires Genuine(world, auto, h) && AllResolved(h)
    ensures AllServed(world, auto, h)
  {
    hide Genuine, Resolved, Served;
    forall c: nat, i: nat | IsDelivery(h, c, i) ensures Served(world, auto, h, c, i) {
      ThisIsServed(world, auto, h, c, i);
    }
  }

  /** A run that failed at this delivery: all before it was resolved, and nothing after it begun. */
  ghost predicate BrokeAt(h: History, c: nat, i: nat) {
    Untouched(h, c, i + 1) && forall d, j :: IsDelivery(h, d, j) && Precedes(d, j, c, i) ==> Resolved(h, d, j)
  }

  /** The delivery is of the last claim. */
  predicate OfLastClaim(h: History, c: nat) {
    forall d :: c < d < |h| ==> !h[d].Claimed?
  }

  ghost predicate CutShort(h: History) {
    && Broke(h)
    && match h[|h| - 1]
       case Settled(c, i, _, _) => OfLastClaim(h, c) && BrokeAt(h, c, i)
       case _ => AllResolved(h)
  }

  lemma OthersStillResolved(h: History, e: Event, c: nat, i: nat)
    requires BrokeAt(h, c, i) && About(e) && e.claim == c && e.index == i
    ensures BrokeAt(h + [e], c, i)
  {
    hide Resolved;
    forall d: nat, j: nat | IsDelivery(h + [e], d, j) && Precedes(d, j, c, i) ensures Resolved(h + [e], d, j) {
      assert IsDelivery(h, d, j);
      OthersStayResolved(h, e, d, j);
    }
  }

  /**
   The run ended at what failed: at a claim, with everything claimed before it served; or at a settlement
   of the last batch, with everything before that delivery served and nothing after it begun.
   */
  ghost predicate EndedAtFailure(world: World, auto: bool, h: History) {
    && Broke(h)
    && match h[|h| - 1]
       case Settled(c, i, _, _) =>
         && OfLastClaim(h, c) && Untouched(h, c, i + 1)
         && forall d, j :: IsDelivery(h, d, j) && Precedes(d, j, c, i) ==> Served(world, auto, h, d, j)
       case _ => AllServed(world, auto, h)
  }

  lemma CutShortIsServed(world: World, auto: bool, h: History)
    requires Genuine(world, auto, h) && CutShort(h)
    ensures EndedAtFailure(world, auto, h)
  {
    hide Genuine, Resolved, Served, AllServed, AllResolved, Untouched, OfLastClaim;
    if !h[|h| - 1].Settled? { ResolvedIsServed(world, auto, h); }
    forall c: nat, i: nat | IsDelivery(h, c, i) && Resolved(h, c, i) ensures Served(world, auto, h, c, i) {
      ThisIsServed(world, auto, h, c, i);
    }
  }

  /** The first job of every batch was given to the handler: a stop is looked for only after it. */
  ghost predicate FirstsReached(h: History) {
    forall c :: IsDelivery(h, c, 0) ==> !NotHandled(h, c, 0)
  }

  lemma ServedFirstIsReached(world: World, auto: bool, h: History, c: nat)
    requires IsDelivery(h, c, 0) && Served(world, auto, h, c, 0)
    ensures !NotHandled(h, c, 0)
  {
    hide SettledOnce, CarriedOut;
    if k: nat :| HandledOnlyAt(h, k, c, 0) && CarriedOut(world, auto, h, k, c, 0) {
      assert HandledAt(h[k], c, 0);
    }
  }

  lemma FailedFirstIsReached(world: World, auto: bool, h: History, c: nat)
    requires Genuine(world, auto, h) && h != [] && SettledAt(h[|h| - 1], c, 0)
    ensures !NotHandled(h, c, 0)
  {
    hide NotHandled, Decision;
    var was := h[..|h| - 1];
    assert TrueTo(world, auto, was, h[|h| - 1]);
    assert !StoppedEarlier(world, was, c, 0);
    HandledBefore(h, c);
  }

  lemma HandledBefore(h: History, c: nat)
    requires |h| >= 2 && HandledAt(h[|h| - 2], c, 0)
    ensures !NotHandled(h, c, 0)
  {}

  lemma FirstsAreReached(world: World, auto: bool, h: History)
    requires Genuine(world, auto, h) && (AllServed(world, auto, h) || EndedAtFailure(world, auto, h))
    ensures FirstsReached(h)
  {
    hide Genuine, Served, NotHandled, Untouched;
    forall c: nat | IsDelivery(h, c, 0) ensures !NotHandled(h, c, 0) {
      if Served(world, auto, h, c, 0) {
        ServedFirstIsReached(world, auto, h, c);
      } else {
        assert !AllServed(world, auto, h);
        assert SettledAt(h[|h| - 1], c, 0);
        FailedFirstIsReached(world, auto, h, c);
      }
    }
  }

  lemma FrontierBreaks(h: History, c: nat, i: nat)
    requires Frontier(h, c, i)
    ensures BrokeAt(h, c, i)
  {
    hide Resolved, AtMostOnce, InClaimOrder;
  }

  // ---------- the worker ----------

  datatype End = Returned | Failed | Unfinished

  datatype Next = Took(jobs: seq<Job>) | Stopped | NotTaken | StillWaiting

  class Queue {
    const world: World
    var history: History
    var batch: int
    var narrowed: Filter

    constructor (world: World)
      ensures this.world == world && batch == 10 && narrowed == NoFilter && history == []
    {
      this.world := world;
      batch, narrowed, history := 10, NoFilter, [];
    }

    method Batch(n: int)
      modifies this`batch
      ensures batch == n
    {
      batch := n;
    }

    method Only(f: Filter)
      modifies this`narrowed
      ensures narrowed == f
    {
      narrowed := f;
    }

    method Note(e: Event)
      modifies this`history
      ensures history == old(history) + [e]
    {
      history := history + [e];
    }

    /** Up to `count` jobs; nothing is sent for a count or a filter that cannot be written. */
    method Claim(count: int, where: Filter) returns (jobs: Option<seq<Job>>, retry: bool)
      modifies this`history
      ensures jobs.Some? ==> history == old(history) + [Claimed(jobs.value)]
      ensures jobs.Some? ==> world.claims(old(history)).Rows?
      ensures jobs.Some? ==> |jobs.value| == |world.claims(old(history)).rows|
      ensures jobs.Some? ==> forall i :: 0 <= i < |jobs.value| ==>
                AsJob(world.claims(old(history)).rows[i]) == Some(jobs.value[i])
      ensures jobs.Nothing? ==> history == old(history) || history == old(history) + [NothingClaimed]
      ensures forall auto :: history != old(history) && !world.stopped(old(history)) ==>
                TrueTo(world, auto, old(history), history[|old(history)|])
      ensures 1 <= count <= 500 && (where == NoFilter || FilterFault(where).Nothing?) ==>
                history != old(history)
      ensures !(1 <= count <= 500) || (where != NoFilter && FilterFault(where).Some?) ==>
                jobs.Nothing? && !retry && history == old(history)
      ensures retry ==> jobs.Nothing? && world.claims(old(history)).Retry?
    {
      hide AsJob, FilterFault;
      retry := false;
      if count < 1 || count > MOST_CLAIMED { return Nothing, false; }
      if where != NoFilter && FilterFault(where).Some? { return Nothing, false; }
      var answer := world.claims(history);
      if answer.Retry? {
        Note(NothingClaimed);
        return Nothing, true;
      }
      if answer.Broken? {
        Note(NothingClaimed);
        return Nothing, false;
      }
      var taken: seq<Job> := [];
      for i := 0 to |answer.rows|
        invariant |taken| == i && forall j :: 0 <= j < i ==> AsJob(answer.rows[j]) == Some(taken[j])
        invariant history == old(history)
      {
        var job := ToJob(answer.rows[i]);
        if job.Nothing? {
          Note(NothingClaimed);
          return Nothing, false;
        }
        taken := taken + [job.value];
      }
      Note(Claimed(taken));
      jobs := Some(taken);
    }

    /** The next jobs, waiting while there are none; a refusal of class retry is waited on like an empty queue. */
    method TakeNext(auto: bool, fuel: nat) returns (next: Next)
      requires Frontier(history, |history|, 0) && Genuine(world, auto, history)
      requires history != [] ==> !history[|history| - 1].Waited?
      modifies this`history
      ensures next.Took? ==> history != [] && next.jobs != [] && history[|history| - 1] == Claimed(next.jobs)
      ensures next.Took? ==> Frontier(history, |history| - 1, 0)
      ensures !next.Took? ==> Frontier(history, |history|, 0)
      ensures Genuine(world, auto, history)
      ensures next.Took? ==> Claims(history) >= Claims(old(history)) + 1
      ensures next.Stopped? ==> world.stopped(history)
      ensures next.NotTaken? ==> (history != [] && history[|history| - 1].NothingClaimed?) || !CanClaim()
      ensures next.StillWaiting? ==> Claims(history) >= Claims(old(history)) + fuel
    {
      hide Frontier, TrueTo, Genuine, Claims;
      var wait, left := FIRST_WAIT, fuel;
      while left > 0
        invariant wait == NextWait(history)
        invariant Frontier(history, |history|, 0) && Genuine(world, auto, history)
        invariant left <= fuel && Claims(history) >= Claims(old(history)) + (fuel - left)
      {
        if world.stopped(history) { return Stopped; }
        ghost var h := history;
        var jobs, retry := Claim(batch, narrowed);
        if history != h {
          GenuineNext(world, auto, h, history[|h|]);
          OneMoreClaim(h, history[|h|]);
        }
        if jobs.Nothing? && history != h { NothingNew(h, NothingClaimed); }
        if jobs.Nothing? && !retry { return NotTaken; }
        if jobs.Some? {
          if |jobs.value| > 0 {
            NewClaim(h, jobs.value);
            return Took(jobs.value);
          }
          NothingNew(h, Claimed([]));
        }
        NothingNew(history, Waited(wait));
        TrueWait(world, auto, h, history, wait);
        GenuineNext(world, auto, history, Waited(wait));
        OneMoreClaim(history, Waited(wait));
        Note(Waited(wait));
        wait := if wait * 2 < LONGEST_WAIT then wait * 2 else LONGEST_WAIT;
        left := left - 1;
      }
      next := StillWaiting;
    }

    /** Whether a claim of these settings is sent at all. */
    predicate CanClaim()
      reads this`batch, this`narrowed
    {
      1 <= batch <= 500 && (narrowed == NoFilter || FilterFault(narrowed).Nothing?)
    }

    method Settle(c: nat, i: nat, how: How) returns (ok: bool)
      modifies this`history
      ensures history == old(history) + [Settled(c, i, how, ok)] && ok == world.settles(old(history))
    {
      ok := world.settles(history);
      Note(Settled(c, i, how, ok));
    }

    /** One job through its handler, and then settled as the handler decided. */
    method Each(auto: bool, c: nat, i: nat, job: Job) returns (ok: bool, ghost v: Verdict)
      requires IsDelivery(history, c, i) && history[c].jobs[i] == job && Genuine(world, auto, history)
      requires About(history[|history| - 1]) ==> !world.stopped(history)
      modifies this`history
      ensures history == old(history) + Turn(c, i, v, ok) && Genuine(world, auto, history)
      ensures v == Decision(world, auto, old(history), job)
      ensures !ok ==> Broke(history)
    {
      hide Genuine, TrueTo, IsDelivery, About;
      var verdict := Leave;
      if auto {
        verdict := if world.fails(history, job) then HandBack(0) else Finish;
      } else {
        verdict := world.decides(history, job);
      }
      v := verdict;
      HandledIsTrue(world, auto, history, c, i, job);
      Note(Handled(c, i, verdict));
      ok := true;
      match verdict
      case Finish =>
        SettledIsTrue(world, auto, history, c, i, Deleted);
        ok := Settle(c, i, Deleted);
      case HandBack(after) =>
        SettledIsTrue(world, auto, history, c, i, Released(DelayOf(after)));
        ok := Settle(c, i, Released(DelayOf(after)));
      case Leave =>
    }

    /** What a stop leaves of a batch goes back, one statement each. */
    method HandBackRest(auto: bool, c: nat, from: nat, jobs: seq<Job>) returns (ok: bool)
      requires from <= |jobs| && Frontier(history, c, from) && c < |history| && history[c] == Claimed(jobs)
      requires OfLastClaim(history, c)
      requires Genuine(world, auto, history) && StoppedEarlier(world, history, c, from)
      modifies this`history
      ensures AtMostOnce(history) && InClaimOrder(history) && Genuine(world, auto, history)
      ensures old(history) <= history
      ensures if ok then AllResolved(history) else CutShort(history)
    {
      hide Resolved, AtMostOnce, InClaimOrder, Untouched, Frontier, Genuine, StoppedEarlier, CutShort, NotHandled;
      FrontierOrders(history, c, from);
      for i := from to |jobs|
        invariant Frontier(history, c, i) && c < |history| && history[c] == Claimed(jobs)
        invariant AtMostOnce(history) && InClaimOrder(history)
        invariant OfLastClaim(history, c)
        invariant old(history) <= history && Genuine(world, auto, history)
        invariant StoppedEarlier(world, history, c, i)
      {
        ghost var h := history;
        FrontierIsUnseen(h, c, i);
        SettledIsTrue(world, auto, h, c, i, Released(0));
        ok := Settle(c, i, Released(0));
        StillStopped(world, h, Settled(c, i, Released(0), ok), c, i);
        FailedHandBack(h, c, i, ok);
        if !ok { return; }
        HandBackResolves(h, c, i);
      }
      BatchIsThrough(history, c, |jobs|);
      FrontierAtEnd(history);
      ok := true;
    }

    /** One batch through the handler: over early when something fails or the run is stopped. */
    method RunBatch(auto: bool, c: nat, jobs: seq<Job>) returns (over: Option<End>)
      requires Frontier(history, c, 0) && c + 1 == |history| && history[c] == Claimed(jobs)
               && Genuine(world, auto, history)
      requires jobs != []
      modifies this`history
      ensures AtMostOnce(history) && InClaimOrder(history) && Genuine(world, auto, history)
      ensures over.Nothing? ==> Frontier(history, |history|, 0) && Claims(history) == Claims(old(history))
      ensures over.Nothing? ==> history != [] && About(history[|history| - 1])
      ensures over.Some? ==> !over.value.Unfinished?
      ensures over == Some(Returned) ==> AllResolved(history) && StoppedIn(world, history)
      ensures over == Some(Failed) ==> CutShort(history)
    {
      hide Resolved, AtMostOnce, InClaimOrder, Untouched, Frontier, Genuine, StoppedIn, StoppedEarlier, Claims,
        Decision, CutShort, AllResolved;
      FrontierOrders(history, c, 0);
      for i := 0 to |jobs|
        invariant Frontier(history, c, i) && c < |history| && history[c] == Claimed(jobs)
        invariant AtMostOnce(history) && InClaimOrder(history)
        invariant OfLastClaim(history, c)
        invariant Genuine(world, auto, history) && Claims(history) == Claims(old(history))
        invariant if i == 0 then history[|history| - 1] == Claimed(jobs)
                  else About(history[|history| - 1]) && !world.stopped(history)
      {
        ghost var h := history;
        var ok; ghost var v;
        ok, v := Each(auto, c, i, jobs[i]);
        FailedTurn(h, c, i, v, ok);
        TurnClaims(h, c, i, v, ok);
        if !ok { return Some(Failed); }
        TurnResolves(h, c, i, v);
        if world.stopped(history) {
          ghost var at := history;
          StoppedNow(world, h, c, i, v);
          var done := HandBackRest(auto, c, i + 1, jobs);
          StoppedBefore(world, at, history);
          return Some(if done then Returned else Failed);
        }
      }
      BatchIsThrough(history, c, |jobs|);
      over := Nothing;
    }

    /**
     Returned when stopped, Failed at the first refusal or transport failure, Unfinished when the fuel
     runs out first.
     */
    method Run(auto: bool, fuel: nat) returns (end: End)
      modifies this`history
      ensures AtMostOnce(history) && InClaimOrder(history) && Genuine(world, auto, history) && FirstsReached(history)
      ensures WaitsDouble(history) && HandlersHeeded(world, auto, history)
      ensures end.Returned? ==> AllServed(world, auto, history) && StoppedIn(world, history)
      ensures end.Failed? ==> EndedAtFailure(world, auto, history) || (!CanClaim() && AllServed(world, auto, history))
      ensures end.Unfinished? ==> AllServed(world, auto, history) && Claims(history) >= fuel
    {
      hide Resolved, AtMostOnce, InClaimOrder, Untouched, Frontier, Genuine, StoppedIn, CanClaim, Claims, Broke,
        AllResolved, AllServed, EndedAtFailure, CutShort, FirstsReached, WaitsDouble, HandlersHeeded;
      history := [];
      NothingHappened(world, auto);
      var left := fuel;
      while left > 0
        invariant Frontier(history, |history|, 0) && Genuine(world, auto, history)
        invariant history != [] ==> !history[|history| - 1].Waited?
        invariant left <= fuel && Claims(history) + left >= fuel
      {
        var next := TakeNext(auto, left);
        if !next.Took? {
          FrontierOrders(history, |history|, 0);
          FrontierAtEnd(history);
          ResolvedIsServed(world, auto, history);
          if next.Stopped? { StoppedHere(world, history); }
          FirstsAreReached(world, auto, history);
          GenuineWaits(world, auto, history);
          GenuineIsHeeded(world, auto, history);
          if next.NotTaken? && history != []
          && history[|history| - 1].NothingClaimed? { FailedClaim(world, auto, history); }
          return match next case Stopped => Returned case NotTaken => Failed case _ => Unfinished;
        }
        var over := RunBatch(auto, |history| - 1, next.jobs);
        if over == Some(Returned) { ResolvedIsServed(world, auto, history); }
        if over == Some(Failed) { CutShortIsServed(world, auto, history); }
        if over.Some? {
          FirstsAreReached(world, auto, history);
          GenuineWaits(world, auto, history);
          GenuineIsHeeded(world, auto, history);
          return over.value;
        }
        left := left - 1;
      }
      FrontierOrders(history, |history|, 0);
      FrontierAtEnd(history);
      ResolvedIsServed(world, auto, history);
      FirstsAreReached(world, auto, history);
      GenuineWaits(world, auto, history);
      GenuineIsHeeded(world, auto, history);
      end := Unfinished;
    }

    method RunAuto(fuel: nat) returns (end: End)
      modifies this`history
      ensures AtMostOnce(history) && InClaimOrder(history) && Automatic(history) && Genuine(world, true, history)
      ensures FirstsReached(history)
      ensures WaitsDouble(history) && HandlersHeeded(world, true, history)
      ensures end.Returned? ==> AllServed(world, true, history) && StoppedIn(world, history)
      ensures end.Failed? ==> EndedAtFailure(world, true, history) || (!CanClaim() && AllServed(world, true, history))
      ensures end.Unfinished? ==> AllServed(world, true, history) && Claims(history) >= fuel
    {
      hide AllServed, EndedAtFailure, StoppedIn, Claims, HandlersHeeded, WaitsDouble;
      end := Run(true, fuel);
      GenuineIsAutomatic(world, history);
    }

    method RunManual(fuel: nat) returns (end: End)
      modifies this`history
      ensures AtMostOnce(history) && InClaimOrder(history) && Genuine(world, false, history) && FirstsReached(history)
      ensures WaitsDouble(history) && HandlersHeeded(world, false, history)
      ensures end.Returned? ==> AllServed(world, false, history) && StoppedIn(world, history)
      ensures end.Failed? ==> EndedAtFailure(world, false, history) || (!CanClaim() && AllServed(world, false, history))
      ensures end.Unfinished? ==> AllServed(world, false, history) && Claims(history) >= fuel
    {
      end := Run(false, fuel);
    }
  }

  lemma FrontierIsUnseen(h: History, c: nat, i: nat)
    requires Frontier(h, c, i)
    ensures NotHandled(h, c, i)
  {
    hide Resolved, AtMostOnce, InClaimOrder;
  }

  lemma StillStopped(world: World, h: History, e: Event, c: nat, i: nat)
    requires StoppedEarlier(world, h, c, i)
    ensures StoppedEarlier(world, h + [e], c, i + 1)
  {
    var k :| 0 < k <= |h| && world.stopped(h[..k]) && About(h[k - 1]) && h[k - 1].claim == c && h[k - 1].index < i;
    assert (h + [e])[..k] == h[..k] && (h + [e])[k - 1] == h[k - 1];
  }

  lemma StoppedNow(world: World, h: History, c: nat, i: nat, v: Verdict)
    requires world.stopped(h + Turn(c, i, v, true))
    ensures StoppedEarlier(world, h + Turn(c, i, v, true), c, i + 1)
  {
    var h' := h + Turn(c, i, v, true);
    assert h'[..|h'|] == h' && h'[|h'| - 1] == Turn(c, i, v, true)[|Turn(c, i, v, true)| - 1];
  }

  lemma FailedClaim(world: World, auto: bool, h: History)
    requires AllResolved(h) && Genuine(world, auto, h) && h != [] && h[|h| - 1].NothingClaimed?
    ensures EndedAtFailure(world, auto, h)
  {
    hide Genuine, AllResolved;
    CutShortIsServed(world, auto, h);
  }

  lemma TrueWait(world: World, auto: bool, before: History, h: History, millis: nat)
    requires h == before + [Claimed([])] || (h == before + [NothingClaimed] && world.claims(before).Retry?)
    requires millis == NextWait(before)
    ensures TrueTo(world, auto, h, Waited(millis))
  {
    assert h[..|h| - 1] == before;
  }

  lemma TurnClaims(h: History, c: nat, i: nat, v: Verdict, ok: bool)
    ensures Claims(h + Turn(c, i, v, ok)) == Claims(h)
  {
    hide Claims;
    OneMoreClaim(h, Handled(c, i, v));
    var how := SettlementOf(v);
    if how.Some? {
      OneMoreClaim(h + [Handled(c, i, v)], Settled(c, i, how.value, ok));
      assert h + Turn(c, i, v, ok) == h + [Handled(c, i, v)] + [Settled(c, i, how.value, ok)];
    } else {
      assert h + Turn(c, i, v, ok) == h + [Handled(c, i, v)];
    }
  }

  lemma StoppedBefore(world: World, at: History, h: History)
    requires world.stopped(at) && at <= h
    ensures StoppedIn(world, h)
  {
    assert h[..|at|] == at;
  }

  lemma FrontierOrders(h: History, c: nat, i: nat)
    requires Frontier(h, c, i)
    ensures AtMostOnce(h) && InClaimOrder(h)
  {}

  lemma FailedHandBack(h: History, c: nat, i: nat, ok: bool)
    requires Frontier(h, c, i) && OfLastClaim(h, c)
    ensures var h' := h + [Settled(c, i, Released(0), ok)]; AtMostOnce(h') && InClaimOrder(h') && (!ok ==> CutShort(h'))
  {
    hide BrokeAt;
    FrontierBreaks(h, c, i);
    OthersStillResolved(h, Settled(c, i, Released(0), ok), c, i);
    Orderly(h, c, i, Settled(c, i, Released(0), ok));
  }

  lemma NothingHappened(world: World, auto: bool)
    ensures Frontier([], 0, 0) && Genuine(world, auto, [])
  {}
}
