/** Leases (cache.go): a lock is a key that always expires, taken, kept and given back by conditional writes. */
module Leases {
  import opened Words
  import opened Values
  import opened Texts
  import opened Caches
  import opened CacheStatements

  /** What a caller asks for under some holder's name. */
  datatype Call =
    | Lock(key: Str, holder: Str, ttl: Int64)
    | Extend(key: Str, holder: Str, ttl: Int64)
    | Release(key: Str, holder: Str)

  /**
   What it is told: yes or no, nothing because its ttl was refused, or nothing because the statement or the reply
   was lost.
   */
  datatype Reply = Told(yes: bool) | Refused | Lost

  /** A call and what befalls its statement, or time passing. */
  datatype Step = Ask(call: Call, fault: Fault) | Tick(nanos: nat)

  /** A call refused for its ttl sends nothing. */
  function WriteOf(call: Call): Option<Write> {
    match call
    case Lock(key, holder, ttl) => if ttl > 0 then Some(IfAbsent(key, Text(holder), ttl)) else Nothing
    case Extend(key, holder, ttl) => if ttl > 0 then Some(IfEquals(key, Text(holder), Text(holder), ttl)) else Nothing
    case Release(key, holder) => Some(IfEquals(key, Text(holder), FREE, RELEASE_NANOS))
  }

  /**
   The store; until when it granted each holder each key, whether the holder heard of it or not; and until when
   each holder may count on each key from what it was told.
   */
  datatype World = World(store: Store, grants: map<(Str, Str), nat>, beliefs: map<(Str, Str), nat>)

  /** The store runs the write: whether it landed, and what is then granted. */
  function Ran(store: Store, grants: map<(Str, Str), nat>, call: Call): (Store, map<(Str, Str), nat>, bool)
    requires WriteOf(call).Some?
  {
    var (store', landed) := Apply(store, WriteOf(call).value);
    var name := (call.key, call.holder);
    (store',
     if !landed then grants else if call.Release? then grants - {name} else grants[name := store.now + call.ttl],
     landed)
  }

  /**
   What a holder still counts on while it waits for an answer: nothing it gives back, and no more than it asks for.
   */
  function Waiting(w: World, call: Call): map<(Str, Str), nat> {
    var name := (call.key, call.holder);
    match call
    case Lock(_, _, _) => w.beliefs
    case Release(_, _) => w.beliefs - {name}
    case Extend(_, _, ttl) =>
      if name in w.beliefs && ttl > 0 && w.store.now + ttl < w.beliefs[name] then w.beliefs[name := w.store.now + ttl]
      else w.beliefs
  }

  /** The world after a call, and what the caller is told. */
  function Answer(w: World, call: Call, fault: Fault): (World, Reply) {
    if WriteOf(call).Nothing? then (w, Refused)
    else if fault.LostBefore? then (w.(beliefs := Waiting(w, call)), Lost)
    else
      var (store, grants, landed) := Ran(w.store, w.grants, call);
      var beliefs := Waiting(w, call);
      if fault.LostAfter? then (World(store, grants, beliefs), Lost)
      else if landed && !call.Release? then
        (World(store, grants, beliefs[(call.key, call.holder) := w.store.now + call.ttl]), Told(true))
      else (World(store, grants, beliefs), Told(landed))
  }

  function Next(w: World, step: Step): World {
    match step
    case Ask(call, fault) => Answer(w, call, fault).0
    case Tick(nanos) => w.(store := w.store.(now := w.store.now + nanos))
  }

  function Run(w: World, steps: seq<Step>): World
    decreases |steps|
  {
    if steps == [] then w else Run(Next(w, steps[0]), steps[1..])
  }

  predicate Stands(store: Store, leases: map<(Str, Str), nat>, key: Str, holder: Str) {
    (key, holder) in leases && store.now < leases[(key, holder)]
  }

  /** The store has granted the holder the key, and the time is not over. */
  predicate Granted(w: World, key: Str, holder: Str) {
    Stands(w.store, w.grants, key, holder)
  }

  /** What the holder was told still stands. */
  predicate Believes(w: World, key: Str, holder: Str) {
    Stands(w.store, w.beliefs, key, holder)
  }

  predicate Named(step: Step) {
    step.Tick? || Text(step.call.holder) != FREE
  }

  ghost predicate AllNamed(steps: seq<Step>) {
    forall i :: 0 <= i < |steps| ==> Named(steps[i])
  }

  /** A grant and the store's entry are the same thing seen from two sides. */
  ghost predicate Written(store: Store, grants: map<(Str, Str), nat>) {
    && (forall key, holder :: Stands(store, grants, key, holder) ==>
          key in store.entries && store.entries[key] == Entry(Text(holder), Some(grants[(key, holder)])))
    && (forall key :: Holds(store, key) ==>
          var value := store.entries[key].value;
          value == FREE || (value.Text? && Stands(store, grants, key, value.text)))
    && (forall key, holder :: (key, holder) in grants ==> Text(holder) != FREE)
    && (forall key :: key in store.entries ==> store.entries[key].expires.Some?)
  }

  /** Nobody counts on more than the store granted. */
  ghost predicate Backed(w: World) {
    forall key, holder :: Believes(w, key, holder) ==>
      (key, holder) in w.grants && w.beliefs[(key, holder)] <= w.grants[(key, holder)]
  }

  ghost predicate Agree(w: World) {
    Written(w.store, w.grants) && Backed(w)
  }

  const NEW := World(Store(0, map[]), map[], map[])

  lemma NewAgrees()
    ensures Agree(NEW)
  {}

  lemma TickAgrees(w: World, nanos: nat)
    requires Agree(w)
    ensures Agree(Next(w, Tick(nanos)))
  {
    var w' := Next(w, Tick(nanos));
    forall key, holder | Believes(w', key, holder) ensures Believes(w, key, holder) {}
    forall key, holder | Granted(w', key, holder) ensures Granted(w, key, holder) {}
    forall key | Holds(w'.store, key)
      ensures var value := w'.store.entries[key].value; value == FREE || (value.Text? && Granted(w', key, value.text))
    {
      assert Holds(w.store, key);
      var value := w.store.entries[key].value;
      if value != FREE { assert Granted(w, key, value.text); }
    }
  }

  /** What a write leaves behind, landed or not. */
  lemma RanIsWritten(store: Store, grants: map<(Str, Str), nat>, call: Call)
    requires Written(store, grants) && Text(call.holder) != FREE && WriteOf(call).Some?
    ensures var (store', grants', _) := Ran(store, grants, call); Written(store', grants')
  {
    hide FREE;
    var (store', grants', landed) := Ran(store, grants, call);
    if landed {
      var key := call.key;
      assert forall holder :: Stands(store, grants, key, holder) ==> store.entries[key].value == Text(holder);
      forall k, holder | Stands(store', grants', k, holder)
        ensures k in store'.entries && store'.entries[k] == Entry(Text(holder), Some(grants'[(k, holder)]))
      {
        if k == key {
          assert holder == call.holder || Stands(store, grants, key, holder);
        } else {
          assert Stands(store, grants, k, holder);
        }
      }
      forall k | Holds(store', k)
        ensures var value := store'.entries[k].value;
                value == FREE || (value.Text? && Stands(store', grants', k, value.text))
      {
        if k != key {
          assert Holds(store, k);
          var value := store.entries[k].value;
          if value != FREE { assert Stands(store, grants, k, value.text); }
        }
      }
    }
  }

  /** A holder whose grant stands is the one the entry names, so a lock does not land on it. */
  lemma GrantHolds(store: Store, grants: map<(Str, Str), nat>, key: Str, holder: Str)
    requires Written(store, grants) && Stands(store, grants, key, holder)
    ensures Holds(store, key) && store.entries[key] == Entry(Text(holder), Some(grants[(key, holder)]))
  {}

  /** What others believe is as it was, and what was granted them too. */
  lemma OtherIsBacked(w: World, call: Call, fault: Fault, k: Str, holder: Str)
    requires Backed(w) && (k, holder) != (call.key, call.holder)
    requires Believes(Answer(w, call, fault).0, k, holder)
    ensures var w' := Answer(w, call, fault).0;
            (k, holder) in w'.grants && w'.beliefs[(k, holder)] <= w'.grants[(k, holder)]
  {
    hide FREE, Lands, Holds;
    assert Believes(w, k, holder);
  }

  lemma OwnIsBacked(w: World, call: Call, fault: Fault)
    requires Agree(w) && Believes(Answer(w, call, fault).0, call.key, call.holder)
    ensures var w', name := Answer(w, call, fault).0, (call.key, call.holder);
            name in w'.grants && w'.beliefs[name] <= w'.grants[name]
  {
    hide FREE, Written;
    if WriteOf(call).Some? && Believes(w, call.key, call.holder) {
      GrantHolds(w.store, w.grants, call.key, call.holder);
    }
  }

  /** Whatever befalls a call, nobody counts on more than was granted. */
  lemma AnswerIsBacked(w: World, call: Call, fault: Fault)
    requires Agree(w) && Text(call.holder) != FREE
    ensures Backed(Answer(w, call, fault).0)
  {
    hide FREE, Written, Answer;
    var w' := Answer(w, call, fault).0;
    forall k, holder | Believes(w', k, holder)
      ensures (k, holder) in w'.grants && w'.beliefs[(k, holder)] <= w'.grants[(k, holder)]
    {
      if (k, holder) != (call.key, call.holder) {
        OtherIsBacked(w, call, fault, k, holder);
      } else {
        OwnIsBacked(w, call, fault);
      }
    }
  }

  lemma StepAgrees(w: World, step: Step)
    requires Agree(w) && Named(step)
    ensures Agree(Next(w, step))
  {
    hide Written, Backed, Waiting, Ran;
    match step
    case Tick(nanos) =>
      TickAgrees(w, nanos);
    case Ask(call, fault) =>
      AnswerIsBacked(w, call, fault);
      if WriteOf(call).Some? { RanIsWritten(w.store, w.grants, call); }
  }

  lemma {:induction false} RunAgrees(w: World, steps: seq<Step>)
    requires Agree(w) && AllNamed(steps)
    ensures Agree(Run(w, steps))
    decreases |steps|
  {
    hide Agree, Next;
    if steps != [] {
      StepAgrees(w, steps[0]);
      RunAgrees(Next(w, steps[0]), steps[1..]);
    }
  }

  // ---------- what a lock promises ----------

  /** The world after any calls, in any order and under any faults, of callers none of whom is named free. */
  ghost predicate Reached(w: World) {
    exists steps: seq<Step> :: AllNamed(steps) && w == Run(NEW, steps)
  }

  lemma ReachedAgrees(w: World)
    requires Reached(w)
    ensures Agree(w)
  {
    hide Agree, Run;
    var steps: seq<Step> :| AllNamed(steps) && w == Run(NEW, steps);
    NewAgrees();
    RunAgrees(NEW, steps);
  }

  lemma ReachedHolds(w: World, key: Str, holder: Str)
    requires Reached(w) && Granted(w, key, holder)
    ensures Holds(w.store, key) && w.store.entries[key] == Entry(Text(holder), Some(w.grants[(key, holder)]))
  {
    hide Reached, Written;
    ReachedAgrees(w);
    GrantHolds(w.store, w.grants, key, holder);
  }

  lemma BelieverIsGranted(w: World, key: Str, holder: Str)
    requires Reached(w) && Believes(w, key, holder)
    ensures Granted(w, key, holder)
  {
    hide Reached, Written;
    ReachedAgrees(w);
  }

  /** One holder at most: of all who were told they hold a key, and of all to whom the store granted it. */
  lemma OneHolder(w: World, key: Str, a: Str, b: Str)
    requires Reached(w)
    ensures Believes(w, key, a) ==> Granted(w, key, a)
    ensures Granted(w, key, a) && Granted(w, key, b) ==> a == b
    ensures Believes(w, key, a) && Believes(w, key, b) ==> a == b
  {
    hide Reached, Believes, Granted;
    if Believes(w, key, a) { BelieverIsGranted(w, key, a); }
    if Believes(w, key, b) { BelieverIsGranted(w, key, b); }
    if Granted(w, key, a) && Granted(w, key, b) {
      ReachedHolds(w, key, a);
      ReachedHolds(w, key, b);
    }
  }

  lemma EveryLockExpires(w: World, key: Str)
    requires Reached(w) && key in w.store.entries
    ensures w.store.entries[key].expires.Some?
  {
    hide Reached, FREE;
    ReachedAgrees(w);
  }

  /**
   While a grant stands, nobody else can take the key, extend it or release it, and trying changes neither it nor
   its holder's mind.
   */
  lemma OthersAreShutOut(w: World, key: Str, holder: Str, call: Call, fault: Fault)
    requires Reached(w) && Granted(w, key, holder)
    requires call.key == key && call.holder != holder
    ensures var (w', reply) := Answer(w, call, fault);
            && w'.store == w.store && w'.grants == w.grants
            && (Believes(w', key, holder) <==> Believes(w, key, holder))
            && reply == if WriteOf(call).Nothing? then Refused else if fault.Fine? then Told(false) else Lost
  {
    hide Reached, FREE;
    ReachedHolds(w, key, holder);
  }

  /** The holder itself is told yes: it may extend or release, but not lock again. */
  lemma HolderIsHeard(w: World, key: Str, holder: Str, call: Call)
    requires Reached(w) && Granted(w, key, holder)
    requires call.key == key && call.holder == holder && WriteOf(call).Some?
    ensures Answer(w, call, Fine).1 == Told(!call.Lock?)
  {
    hide Reached, FREE;
    ReachedHolds(w, key, holder);
  }

  /** A holder whose lease lapsed, was released or was retaken is told so, and changes nothing at the store. */
  lemma LostIsToldSo(w: World, key: Str, holder: Str, call: Call, fault: Fault)
    requires Reached(w) && !Granted(w, key, holder) && Text(holder) != FREE
    requires (call.Extend? || call.Release?) && call.key == key && call.holder == holder
    ensures var (w', reply) := Answer(w, call, fault);
            && w'.store == w.store && w'.grants == w.grants
            && reply == if WriteOf(call).Nothing? then Refused else if fault.Fine? then Told(false) else Lost
  {
    hide Reached;
    ReachedAgrees(w);
    assert Holds(w.store, key) && w.store.entries[key].value != FREE ==>
        Stands(w.store, w.grants, key, w.store.entries[key].value.text);
  }

  /** A lock is there for the taking exactly when no grant stands and no release is still settling. */
  lemma LockIsTaken(w: World, key: Str, holder: Str, ttl: Int64)
    requires Reached(w) && ttl > 0
    ensures Answer(w, Lock(key, holder, ttl), Fine).1 == Told(true) <==>
              !(Holds(w.store, key) && w.store.entries[key].value == FREE) && forall other :: !Granted(w, key, other)
  {
    hide Reached;
    ReachedAgrees(w);
    if Holds(w.store, key) && w.store.entries[key].value != FREE {
      assert Granted(w, key, w.store.entries[key].value.text);
    }
    if other :| Granted(w, key, other) {
      assert Holds(w.store, key);
    }
  }

  /** A lock whose answer was lost holds the key against everybody, its own holder included, until its time is over. */
  lemma LostLockHolds(w: World, key: Str, holder: Str, ttl: Int64, nanos: nat, next: Str, ttl': Int64)
    requires Reached(w) && ttl > 0 && ttl' > 0 && Answer(w, Lock(key, holder, ttl), Fine).1 == Told(true)
    ensures var (w1, reply) := Answer(w, Lock(key, holder, ttl), LostAfter);
            && reply == Lost && Granted(w1, key, holder) && !Believes(w1, key, holder)
            && (Answer(Next(w1, Tick(nanos)), Lock(key, next, ttl'), Fine).1 == Told(true) <==> nanos >= ttl)
  {
    hide FREE, Reached;
    if Believes(w, key, holder) {
      BelieverIsGranted(w, key, holder);
      ReachedHolds(w, key, holder);
    }
  }

  /**
   A lock or an extension told yes makes a grant that its holder believes in, and keeps the key from every lock until
   its own ttl is over and no longer.
   */
  lemma TakenLasts(w: World, call: Call, nanos: nat, next: Str, ttl: Int64)
    requires Reached(w) && !call.Release? && Text(call.holder) != FREE && ttl > 0
    requires Answer(w, call, Fine).1 == Told(true)
    ensures var w1 := Answer(w, call, Fine).0;
            && Granted(w1, call.key, call.holder) && Believes(w1, call.key, call.holder) && call.ttl > 0
            && (Answer(Next(w1, Tick(nanos)), Lock(call.key, next, ttl), Fine).1 == Told(true) <==> nanos >= call.ttl)
  {
    hide FREE, Reached;
  }

  /**
   A holder that releases counts on nothing from then on, and its key can be taken after a millisecond, and not
   before; or, where the release never arrived, at the end of the lease.
   */
  lemma ReleasedLock(w: World, key: Str, holder: Str, fault: Fault, nanos: nat, next: Str, ttl: Int64)
    requires Reached(w) && Granted(w, key, holder) && ttl > 0
    ensures var (w1, reply) := Answer(w, Release(key, holder), fault);
            var free := if fault.LostBefore? then w.grants[(key, holder)] else w.store.now + 1_000_000;
            && reply == (if fault.Fine? then Told(true) else Lost) && !Believes(w1, key, holder)
            && (Answer(Next(w1, Tick(nanos)), Lock(key, next, ttl), Fine).1 == Told(true)
                <==> w.store.now + nanos >= free)
  {
    hide FREE, Reached;
    ReachedHolds(w, key, holder);
  }

  /** A lease that is neither extended nor released can be retaken once its time has passed, and not before. */
  lemma LapsedLock(w: World, key: Str, holder: Str, nanos: nat, next: Str, ttl: Int64)
    requires Reached(w) && Granted(w, key, holder) && ttl > 0
    ensures Answer(Next(w, Tick(nanos)), Lock(key, next, ttl), Fine).1 == Told(true)
       <==> w.store.now + nanos >= w.grants[(key, holder)]
  {
    hide FREE, Reached;
    ReachedHolds(w, key, holder);
  }

  // ---------- a holder named free ----------

  /** Every caller but this one has a name of its own. */
  ghost predicate OthersNamed(steps: seq<Step>, holder: Str) {
    forall i :: 0 <= i < |steps| ==> steps[i].Tick? || steps[i].call.holder == holder || Named(steps[i])
  }

  lemma EveryoneNamed(steps: seq<Step>, holder: Str)
    requires OthersNamed(steps, holder) && Text(holder) != FREE
    ensures AllNamed(steps)
  {}

  predicate OfHolder(call: Call, holder: Str) {
    (call.Extend? || call.Release?) && call.holder == holder
  }

  /** What the lock promises a holder: it is told yes by Extend and Release only while a grant of its own stands. */
  ghost predicate Promised(holder: Str) {
    forall steps: seq<Step>, call: Call :: OthersNamed(steps, holder) && OfHolder(call, holder) ==>
      Answer(Run(NEW, steps), call, Fine).1 == Told(true) ==> Granted(Run(NEW, steps), call.key, holder)
  }

  /** The word a release leaves behind is the one name that breaks the promise. */
  lemma PromisedUnlessNamedFree(holder: Str)
    ensures Promised(holder) <==> Text(holder) != FREE
  {
    hide Run, Answer, FREE, Agree, Granted;
    if Text(holder) != FREE {
      forall steps: seq<Step>, call: Call | OthersNamed(steps, holder) && OfHolder(call, holder)
        ensures Answer(Run(NEW, steps), call, Fine).1 == Told(true) ==> Granted(Run(NEW, steps), call.key, holder)
      {
        assert AllNamed(steps) by { EveryoneNamed(steps, holder); }
        assert Reached(Run(NEW, steps));
        if !Granted(Run(NEW, steps), call.key, holder) { LostIsToldSo(Run(NEW, steps), call.key, holder, call, Fine); }
      }
    } else {
      FreeExtendsWhatItNeverTook(holder);
    }
  }

  lemma TwoSteps(w: World, a: Step, b: Step)
    ensures Run(w, [a, b]) == Next(Next(w, a), b)
  {
    hide Next;
    assert [a, b][1..] == [b] && [b][1..] == [];
    assert Run(Next(w, a), [b]) == Run(Next(Next(w, a), b), []);
  }

  /** One lock, taken and given back, leaves the free word behind and no grant. */
  lemma FreeIsLeft(other: Str)
    requires Text(other) != FREE
    ensures var w := Next(Next(NEW, Ask(Lock([], other, 1), Fine)), Ask(Release([], other), Fine));
            w.store == Store(0, map[[] := Entry(FREE, Some(RELEASE_NANOS))]) && w.grants == map[]
  {
    hide FREE;
    var name: (Str, Str) := ([], other);
    assert map[name := 1] - {name} == map[];
  }

  lemma FreeExtendsWhatItNeverTook(holder: Str)
    requires Text(holder) == FREE
    ensures !Promised(holder)
  {
    hide Run, Promised, Next;
    var other := Ascii("a");
    var steps := [Ask(Lock([], other, 1), Fine), Ask(Release([], other), Fine)];
    var call := Extend([], holder, 1);
    assert Text(other) != FREE by { assert |other| != |holder|; }
    TwoSteps(NEW, steps[0], steps[1]);
    FreeIsLeft(other);
    assert OthersNamed(steps, holder) && OfHolder(call, holder);
    var w := Run(NEW, steps);
    BrokenPromise(holder, steps, call);
  }

  lemma BrokenPromise(holder: Str, steps: seq<Step>, call: Call)
    requires OthersNamed(steps, holder) && OfHolder(call, holder)
    requires Answer(Run(NEW, steps), call, Fine).1 == Told(true) && !Granted(Run(NEW, steps), call.key, holder)
    ensures !Promised(holder)
  {
    hide Run, Answer, Granted, OthersNamed, OfHolder;
  }

  // ---------- the calls ----------

  /** A space every caller writes to, what befalls each statement, and beside it what each holder may count on. */
  class Space {
    const names: Names
    const faults: nat -> Fault
    var store: Store
    var turn: nat
    ghost var grants: map<(Str, Str), nat>
    ghost var beliefs: map<(Str, Str), nat>

    constructor (names: Names, faults: nat -> Fault)
      ensures this.names == names && this.faults == faults && turn == 0 && State() == NEW
    {
      this.names, this.faults, turn, store, grants, beliefs := names, faults, 0, Store(0, map[]), map[], map[];
    }

    ghost function State(): World
      reads this
    {
      World(store, grants, beliefs)
    }

    /** What became of a call made at this turn of this world: one statement at most, and its answer or an error. */
    ghost predicate Asked(before: World, at: nat, call: Call, reply: Reply)
      reads this
    {
      && (State(), reply) == Answer(before, call, faults(at))
      && turn == at + if WriteOf(call).Some? then 1 else 0
    }

    /** One statement, run as the write it means unless it is lost, and what the holder may count on from then on. */
    method Send(g: Given, ghost call: Call) returns (reply: Reply)
      requires WriteOf(call).Some? && Meant(names, g) == Some(Writes(WriteOf(call).value))
      modifies this
      ensures Asked(old(State()), old(turn), call, reply)
    {
      hide Meant;
      ghost var next := Answer(State(), call, faults(turn)).0;
      var fault := faults(turn);
      turn := turn + 1;
      reply := Lost;
      if !fault.LostBefore? {
        var applied := Apply(store, Meant(names, g).value.write);
        store := applied.0;
        if fault.Fine? { reply := Told(applied.1); }
      }
      grants, beliefs := next.grants, next.beliefs;
    }
  }

  class Cache {
    const space: Space

    constructor (space: Space)
      ensures this.space == space
    {
      this.space := space;
    }

    /** The lease, or none when somebody else holds the lock; an empty holder means a fresh one. */
    method TakeLock(key: Str, ttl: Int64, holder: Str, unique: Str)
      returns (lease: Lease?, error: bool, ghost reply: Reply)
      modifies space
      ensures var who := if holder == [] then unique else holder;
              && space.Asked(old(space.State()), old(space.turn), Lock(key, who, ttl), reply)
              && (error <==> !reply.Told?) && (lease != null <==> reply == Told(true))
              && (lease != null ==> lease.cache == this && lease.key == key && lease.holder == who && lease.ttl == ttl)
    {
      hide Apply, Answer, Held, Meant;
      RefusedSendsNothing(space.State(), Lock(key, if holder == [] then unique else holder, ttl),
                          space.faults(space.turn));
      var lasting := Lasting(ttl);
      if lasting.Nothing? { return null, true, Refused; }
      var who := if holder == [] then unique else holder;
      HeldIsMeant(space.names, key, who, lasting.value);
      var told := space.Send(Held(space.names, LOCK, key, who, lasting), Lock(key, who, ttl));
      reply := told;
      if told != Told(true) { return null, !told.Told?, reply; }
      lease := new Lease(this, key, who, ttl);
      error := false;
    }

    method LeaseOf(key: Str, holder: Str, ttl: Int64) returns (lease: Lease)
      ensures lease.cache == this && lease.key == key && lease.holder == holder && lease.ttl == ttl
    {
      lease := new Lease(this, key, holder, ttl);
    }
  }

  lemma RefusedSendsNothing(w: World, call: Call, fault: Fault)
    ensures WriteOf(call).Nothing? ==> Answer(w, call, fault) == (w, Refused)
  {}

  class Lease {
    const cache: Cache
    const key: Str
    const holder: Str
    const ttl: Int64

    constructor (cache: Cache, key: Str, holder: Str, ttl: Int64)
      ensures this.cache == cache && this.key == key && this.holder == holder && this.ttl == ttl
    {
      this.cache, this.key, this.holder, this.ttl := cache, key, holder, ttl;
    }

    /** For another ttl, its own when that is zero; Told(false) means the lease was already lost. */
    method ExtendLease(another: Int64) returns (reply: Reply)
      modifies cache.space
      ensures cache.space.Asked(old(cache.space.State()), old(cache.space.turn),
                                Extend(key, holder, if another == 0 then ttl else another), reply)
    {
      hide Apply, Answer, Held, Meant;
      var t := another;
      if t == 0 { t := ttl; }
      RefusedSendsNothing(cache.space.State(), Extend(key, holder, t), cache.space.faults(cache.space.turn));
      var lasting := Lasting(t);
      if lasting.Nothing? { return Refused; }
      HeldIsMeant(cache.space.names, key, holder, lasting.value);
      reply := cache.space.Send(Held(cache.space.names, EXTEND, key, holder, lasting), Extend(key, holder, t));
    }

    /** Whether it was still held. */
    method ReleaseLease() returns (reply: Reply)
      modifies cache.space
      ensures cache.space.Asked(old(cache.space.State()), old(cache.space.turn), Release(key, holder), reply)
    {
      hide Apply, Answer, Held, Meant;
      HeldIsMeant(cache.space.names, key, holder, Duration(0, 0));
      reply := cache.space.Send(Held(cache.space.names, RELEASE, key, holder, Nothing), Release(key, holder));
    }
  }
}
