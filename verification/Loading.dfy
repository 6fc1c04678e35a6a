/** GetOrSet (cache.go): callers that race to load one key, and agree on what was stored first. */
module Loading {
  import opened Words
  import opened Values
  import opened Caches
  import opened CacheStatements

  /** One caller: how long its value should last, and what its loader makes, if it makes anything. */
  datatype Caller = Caller(ttl: Int64, makes: Option<Value>)

  /** Where a caller stands between two of its statements. */
  datatype Phase =
    | Ready
    | Missed
    | Made(value: Value)
    | Beaten(value: Value)
    | Answered(value: Value)
    | Failed

  /** A caller's next step: a read, its loader, the conditional write, and the second read of a caller that lost. */
  function Advance(s: Store, key: Str, c: Caller, phase: Phase, fault: Fault): (Store, Phase) {
    match phase
    case Ready =>
      if c.ttl <= 0 || !fault.Fine? then (s, Failed)
      else if ValueAt(s, key) == None then (s, Missed)
      else (s, Answered(ValueAt(s, key)))
    case Missed => (s, if c.makes.Some? then Made(c.makes.value) else Failed)
    case Made(value) =>
      if c.ttl <= 0 || fault.LostBefore? || !Accepted(value) then (s, Failed)
      else
        var (s', told) := Apply(s, IfAbsent(key, value, c.ttl));
        (s', if fault.LostAfter? then Failed else if told then Answered(value) else Beaten(value))
    case Beaten(value) =>
      if !fault.Fine? then (s, Failed)
      else if ValueAt(s, key) == None then (s, Answered(value))
      else (s, Answered(ValueAt(s, key)))
    case _ => (s, phase)
  }

  predicate Over(p: Phase) {
    p.Answered? || p.Failed?
  }

  /** Callers on one key, each at its phase. */
  datatype Race = Race(store: Store, phases: seq<Phase>)

  /** One caller's step, or anything at all that others do to the space, time passing included. */
  datatype Move = Step(who: nat, fault: Fault) | Others(store: Store)

  function Play(callers: seq<Caller>, key: Str, race: Race, move: Move): (next: Race)
    requires |race.phases| == |callers|
    ensures |next.phases| == |callers|
  {
    match move
    case Others(store) => race.(store := store)
    case Step(who, fault) =>
      if who >= |callers| then race
      else
        var (store, phase) := Advance(race.store, key, callers[who], race.phases[who], fault);
        Race(store, race.phases[who := phase])
  }

  function Run(callers: seq<Caller>, key: Str, race: Race, moves: seq<Move>): (end: Race)
    requires |race.phases| == |callers|
    ensures |end.phases| == |callers|
    decreases |moves|
  {
    if moves == [] then race else Run(callers, key, Play(callers, key, race, moves[0]), moves[1..])
  }

  function Start(callers: seq<Caller>, store: Store): Race {
    Race(store, seq(|callers|, _ => Ready))
  }

  // ---------- what a caller answers ----------

  /** At move k, one of this caller's own while its call was not over, the store held this value under the key. */
  ghost predicate HeldAt(callers: seq<Caller>, key: Str, race: Race, moves: seq<Move>, i: nat, k: nat, v: Value)
    requires |race.phases| == |callers| && i < |callers| && k < |moves|
  {
    var at := Run(callers, key, race, moves[..k]);
    moves[k].Step? && moves[k].who == i && !Over(at.phases[i]) && v != None && ValueAt(at.store, key) == v
  }

  ghost predicate HeldDuring(callers: seq<Caller>, key: Str, race: Race, moves: seq<Move>, i: nat, v: Value)
    requires |race.phases| == |callers| && i < |callers|
  {
    exists k :: 0 <= k < |moves| && HeldAt(callers, key, race, moves, i, k, v)
  }

  /** A value in hand is the caller's own. */
  predicate InHand(callers: seq<Caller>, race: Race, i: nat)
    requires |race.phases| == |callers| && i < |callers|
  {
    match race.phases[i]
    case Made(v) => callers[i].makes == Some(v)
    case Beaten(v) => callers[i].makes == Some(v)
    case _ => true
  }

  lemma FirstMove(callers: seq<Caller>, key: Str, race: Race, moves: seq<Move>, k: nat)
    requires |race.phases| == |callers| && moves != [] && k < |moves[1..]|
    ensures Run(callers, key, race, moves[..k + 1])
         == Run(callers, key, Play(callers, key, race, moves[0]), moves[1..][..k])
  {
    assert moves[..k + 1][1..] == moves[1..][..k];
  }

  /** One move: what it answers is the caller's own, or what the store held then. */
  lemma MoveIsHonest(callers: seq<Caller>, key: Str, race: Race, move: Move, i: nat)
    requires |race.phases| == |callers| && i < |callers| && InHand(callers, race, i)
    ensures var next := Play(callers, key, race, move);
            && InHand(callers, next, i)
            && (next.phases[i].Answered? && !race.phases[i].Answered? ==>
                  || callers[i].makes == Some(next.phases[i].value)
                  || (move.Step? && move.who == i && !Over(race.phases[i])
                      && next.phases[i].value != None && ValueAt(race.store, key) == next.phases[i].value))
            && (race.phases[i].Answered? ==> next.phases[i] == race.phases[i])
  {
    hide Apply, ValueAt, Accepted;
  }

  /** Once answered, a caller's answer stands. */
  lemma {:induction false} AnswerStands(callers: seq<Caller>, key: Str, race: Race, moves: seq<Move>, i: nat)
    requires |race.phases| == |callers| && i < |callers| && race.phases[i].Answered?
    ensures Run(callers, key, race, moves).phases[i] == race.phases[i]
    decreases |moves|
  {
    hide Advance;
    if moves != [] {
      AnswerStandsOnce(callers, key, race, moves[0], i);
      AnswerStands(callers, key, Play(callers, key, race, moves[0]), moves[1..], i);
    }
  }

  lemma AnswerStandsOnce(callers: seq<Caller>, key: Str, race: Race, move: Move, i: nat)
    requires |race.phases| == |callers| && i < |callers| && race.phases[i].Answered?
    ensures Play(callers, key, race, move).phases[i] == race.phases[i]
  {
    hide Apply, ValueAt, Accepted;
  }

  lemma {:induction false} RunIsHonest(callers: seq<Caller>, key: Str, race: Race, moves: seq<Move>, i: nat)
    requires |race.phases| == |callers| && i < |callers| && InHand(callers, race, i) && !race.phases[i].Answered?
    ensures var end := Run(callers, key, race, moves).phases[i];
            end.Answered? ==> callers[i].makes == Some(end.value) || HeldDuring(callers, key, race, moves, i, end.value)
    decreases |moves|
  {
    hide Play, ValueAt, InHand;
    if moves != [] {
      var next := Play(callers, key, race, moves[0]);
      var end := Run(callers, key, race, moves).phases[i];
      MoveIsHonest(callers, key, race, moves[0], i);
      if next.phases[i].Answered? {
        AnswerStands(callers, key, next, moves[1..], i);
        assert moves[..0] == [];
        assert callers[i].makes != Some(end.value) ==> HeldAt(callers, key, race, moves, i, 0, end.value);
      } else {
        RunIsHonest(callers, key, next, moves[1..], i);
        if end.Answered? && HeldDuring(callers, key, next, moves[1..], i, end.value) {
          var k :| 0 <= k < |moves[1..]| && HeldAt(callers, key, next, moves[1..], i, k, end.value);
          FirstMove(callers, key, race, moves, k);
          assert HeldAt(callers, key, race, moves, i, k + 1, end.value);
        }
      }
    }
  }

  /**
   Whatever others do to the space, in any interleaving and under any faults: an answer is what the caller
   made, or what the store held at one of the caller's own steps during its call.
   */
  lemma EveryAnswerIsHonest(callers: seq<Caller>, key: Str, store: Store, moves: seq<Move>, i: nat)
    requires i < |callers|
    ensures var start := Start(callers, store);
            var end := Run(callers, key, start, moves).phases[i];
            end.Answered? ==>
              callers[i].makes == Some(end.value) || HeldDuring(callers, key, start, moves, i, end.value)
  {
    hide Run, HeldDuring;
    RunIsHonest(callers, key, Start(callers, store), moves, i);
  }

  // ---------- one value for all ----------

  /** What others may do if all are to agree: fill the key with a value, and let what is there be. */
  predicate Lets(key: Str, s: Store, s': Store) {
    && (Holds(s, key) ==> Holds(s', key) && s'.entries[key].value == s.entries[key].value)
    && (Holds(s', key) ==> s'.entries[key].value != None)
  }

  /** Nothing under the key lapses, is deleted or is written over. */
  predicate KeepsKey(callers: seq<Caller>, key: Str, race: Race, moves: seq<Move>)
    requires |race.phases| == |callers|
    decreases |moves|
  {
    moves == [] ||
    ((moves[0].Others? ==> Lets(key, race.store, moves[0].store))
     && KeepsKey(callers, key, Play(callers, key, race, moves[0]), moves[1..]))
  }

  /** Whoever answered, answered what the store holds. */
  ghost predicate Agreed(key: Str, race: Race) {
    && (Holds(race.store, key) ==> race.store.entries[key].value != None)
    && (forall i :: 0 <= i < |race.phases| && race.phases[i].Answered? ==>
          Holds(race.store, key) && race.store.entries[key].value == race.phases[i].value)
    && (forall i :: 0 <= i < |race.phases| && race.phases[i].Beaten? ==> Holds(race.store, key))
    && (forall i :: 0 <= i < |race.phases| && race.phases[i].Made? ==> race.phases[i].value != None)
  }

  predicate MakeSomething(callers: seq<Caller>) {
    forall i :: 0 <= i < |callers| ==> callers[i].makes != Some(None)
  }

  lemma PlayAgrees(callers: seq<Caller>, key: Str, race: Race, move: Move)
    requires |race.phases| == |callers| && MakeSomething(callers) && Agreed(key, race)
    requires move.Others? ==> Lets(key, race.store, move.store)
    ensures Agreed(key, Play(callers, key, race, move))
  {
    hide Accepted;
    if move.Step? && move.who < |callers| {
      StoreOnlyFills(race.store, key, callers[move.who], race.phases[move.who], move.fault);
    }
  }

  /** A caller's step writes the key only when nothing is there. */
  lemma StoreOnlyFills(s: Store, key: Str, c: Caller, phase: Phase, fault: Fault)
    ensures var (s', _) := Advance(s, key, c, phase, fault);
            && s'.now == s.now
            && (Holds(s, key) ==> s' == s)
            && (s' != s ==> phase.Made? && Holds(s', key) && s'.entries[key].value == phase.value)
  {
    hide Accepted;
  }

  lemma {:induction false} RunAgrees(callers: seq<Caller>, key: Str, race: Race, moves: seq<Move>)
    requires |race.phases| == |callers| && MakeSomething(callers) && Agreed(key, race)
    requires KeepsKey(callers, key, race, moves)
    ensures Agreed(key, Run(callers, key, race, moves))
    decreases |moves|
  {
    hide Agreed, Play, MakeSomething, Lets;
    if moves != [] {
      PlayAgrees(callers, key, race, moves[0]);
      RunAgrees(callers, key, Play(callers, key, race, moves[0]), moves[1..]);
    }
  }

  /** Where what is under the key stays, in every interleaving and under any faults, all answer with what it holds. */
  lemma OneValueForAll(callers: seq<Caller>, key: Str, store: Store, moves: seq<Move>, i: nat, j: nat)
    requires MakeSomething(callers) && i < |callers| && j < |callers|
    requires Holds(store, key) ==> store.entries[key].value != None
    requires KeepsKey(callers, key, Start(callers, store), moves)
    ensures var end := Run(callers, key, Start(callers, store), moves);
            end.phases[i].Answered? && end.phases[j].Answered? ==>
              end.phases[i].value == end.phases[j].value == ValueAt(end.store, key)
  {
    hide Run, Play, KeepsKey;
    RunAgrees(callers, key, Start(callers, store), moves);
  }

  /** A run, race by race. */
  lemma {:induction false} RunThrough(callers: seq<Caller>, key: Str, races: seq<Race>, moves: seq<Move>)
    requires |races| == |moves| + 1 && forall k :: 0 <= k < |races| ==> |races[k].phases| == |callers|
    requires forall k :: 0 <= k < |moves| ==> races[k + 1] == Play(callers, key, races[k], moves[k])
    ensures Run(callers, key, races[0], moves) == races[|moves|]
  {
    hide Play;
    if moves != [] {
      forall k | 0 <= k < |moves[1..]| ensures races[1..][k + 1] == Play(callers, key, races[1..][k], moves[1..][k]) {
        assert races[k + 1 + 1] == Play(callers, key, races[k + 1], moves[k + 1]);
      }
      RunThrough(callers, key, races[1..], moves[1..]);
      assert races[0 + 1] == Play(callers, key, races[0], moves[0]);
    }
  }

  /** With a lapse they need not: the first value expires between the two conditional writes. */
  lemma LapseCanSplit(key: Str)
    ensures var callers := [Caller(1, Some(Null)), Caller(1, Some(Bool(true)))];
            var lapsed := Others(Store(1, map[key := Entry(Null, Some(1))]));
            var moves := [Step(0, Fine), Step(1, Fine), Step(0, Fine), Step(1, Fine), Step(0, Fine), lapsed,
                          Step(1, Fine)];
            Run(callers, key, Start(callers, Store(0, map[])), moves).phases == [Answered(Null), Answered(Bool(true))]
  {
    hide Run;
    var callers := [Caller(1, Some(Null)), Caller(1, Some(Bool(true)))];
    var empty, lapsed := Store(0, map[]), Store(1, map[key := Entry(Null, Some(1))]);
    var moves := [Step(0, Fine), Step(1, Fine), Step(0, Fine), Step(1, Fine), Step(0, Fine), Others(lapsed),
                  Step(1, Fine)];
    var races := [
      Race(empty, [Ready, Ready]), Race(empty, [Missed, Ready]), Race(empty, [Missed, Missed]),
      Race(empty, [Made(Null), Missed]), Race(empty, [Made(Null), Made(Bool(true))]),
      Race(Store(0, map[key := Entry(Null, Some(1))]), [Answered(Null), Made(Bool(true))]),
      Race(lapsed, [Answered(Null), Made(Bool(true))]),
      Race(Store(1, map[key := Entry(Bool(true), Some(2))]), [Answered(Null), Answered(Bool(true))])];
    assert Start(callers, empty) == races[0];
    RunThrough(callers, key, races, moves);
  }

  lemma NoMoves(callers: seq<Caller>, key: Str, race: Race)
    requires |race.phases| == |callers|
    ensures Run(callers, key, race, []) == race
  {}

  lemma MoreMoves(callers: seq<Caller>, key: Str, race: Race, some: seq<Move>, more: seq<Move>)
    requires |race.phases| == |callers|
    ensures Run(callers, key, race, some + more) == Run(callers, key, Run(callers, key, race, some), more)
    decreases |some|
  {
    hide Play;
    if some == [] {
      assert some + more == more;
    } else {
      assert (some + more)[1..] == some[1..] + more;
      MoreMoves(callers, key, Play(callers, key, race, some[0]), some[1..], more);
    }
  }

  // ---------- exactly what others may do ----------

  /** Every two callers that answered gave one value. */
  predicate AllAgree(race: Race) {
    forall i, j :: 0 <= i < j < |race.phases| && race.phases[i].Answered? && race.phases[j].Answered? ==>
      race.phases[i] == race.phases[j]
  }

  /** Whatever others do here is let by Lets, or is this one change from s to s'. */
  predicate KeepsBut(callers: seq<Caller>, key: Str, race: Race, moves: seq<Move>, s: Store, s': Store)
    requires |race.phases| == |callers|
    decreases |moves|
  {
    moves == [] ||
    ((moves[0].Others? ==> Lets(key, race.store, moves[0].store) || (race.store == s && moves[0].store == s'))
     && KeepsBut(callers, key, Play(callers, key, race, moves[0]), moves[1..], s, s'))
  }

  predicate Something(s: Store, key: Str) {
    Holds(s, key) ==> s.entries[key].value != None
  }

  /** All callers agree in every race in which others may also make this change, any number of times. */
  ghost predicate AllMayAgree(key: Str, s: Store, s': Store) {
    forall callers: seq<Caller>, store: Store, moves: seq<Move> ::
      MakeSomething(callers) && Something(store, key) && KeepsBut(callers, key, Start(callers, store), moves, s, s') ==>
        AllAgree(Run(callers, key, Start(callers, store), moves))
  }

  lemma {:induction false} LetsIsKept(callers: seq<Caller>, key: Str, race: Race, moves: seq<Move>, s: Store, s': Store)
    requires |race.phases| == |callers| && Lets(key, s, s') && KeepsBut(callers, key, race, moves, s, s')
    ensures KeepsKey(callers, key, race, moves)
    decreases |moves|
  {
    hide Play, Lets;
    if moves != [] { LetsIsKept(callers, key, Play(callers, key, race, moves[0]), moves[1..], s, s'); }
  }

  lemma LetIsAgreed(key: Str, s: Store, s': Store)
    requires Lets(key, s, s')
    ensures AllMayAgree(key, s, s')
  {
    hide Run, KeepsBut, Lets;
    forall callers: seq<Caller>, store: Store, moves: seq<Move>
      | MakeSomething(callers) && Something(store, key) && KeepsBut(callers, key, Start(callers, store), moves, s, s')
      ensures AllAgree(Run(callers, key, Start(callers, store), moves))
    {
      var start := Start(callers, store);
      LetsIsKept(callers, key, start, moves, s, s');
      RunAgrees(callers, key, start, moves);
    }
  }

  /** Another value than this one, and one a loader may make. */
  function Another(v: Value): (w: Value)
    ensures w != v && w != None && Accepted(w)
  {
    if v == Null then Bool(true) else Null
  }

  /** The steps of a whole call. */
  function Whole(i: nat): seq<Move> {
    [Step(i, Fine), Step(i, Fine), Step(i, Fine), Step(i, Fine)]
  }

  lemma WholeCall(callers: seq<Caller>, key: Str, race: Race, i: nat)
    requires |race.phases| == |callers| && i < |callers| && race.phases[i] == Ready
    requires callers[i].ttl > 0 && callers[i].makes.Some? && Accepted(callers[i].makes.value)
    ensures var end := Run(callers, key, race, Whole(i));
            var held := ValueAt(race.store, key);
            && end.phases == race.phases[i := Answered(if held != None then held else callers[i].makes.value)]
            && (Holds(race.store, key) ==> end.store == race.store)
  {
    hide Run, Play, Accepted;
    var step := Step(i, Fine);
    var r1 := Play(callers, key, race, step);
    var r2 := Play(callers, key, r1, step);
    var r3 := Play(callers, key, r2, step);
    var r4 := Play(callers, key, r3, step);
    RunThrough(callers, key, [race, r1, r2, r3, r4], Whole(i));
    StepIs(callers, key, race, i);
    StepIs(callers, key, r1, i);
    StepIs(callers, key, r2, i);
    StepIs(callers, key, r3, i);
  }

  lemma StepIs(callers: seq<Caller>, key: Str, race: Race, i: nat)
    requires |race.phases| == |callers| && i < |callers|
    ensures var (store, phase) := Advance(race.store, key, callers[i], race.phases[i], Fine);
            Play(callers, key, race, Step(i, Fine)) == Race(store, race.phases[i := phase])
  {
    hide Advance;
  }

  /** The change comes once the first caller has its answer, and then the second goes through its call. */
  function ChangedBetween(s': Store): seq<Move> {
    [Step(0, Fine), Others(s')] + Whole(1)
  }

  /** Once any value is lost or written over, a caller that has read it and one that comes later are split. */
  lemma ChangeSplits(key: Str, s: Store, s': Store, w: Value)
    requires Holds(s, key) && s.entries[key].value != None
             && !(Holds(s', key) && s'.entries[key].value == s.entries[key].value)
    requires w != None && w != s.entries[key].value && Accepted(w)
    ensures var callers, v := [Caller(1, Some(w)), Caller(1, Some(w))], s.entries[key].value;
            var other := if ValueAt(s', key) != None then ValueAt(s', key) else w;
            && Run(callers, key, Start(callers, s), ChangedBetween(s')).phases == [Answered(v), Answered(other)]
            && other != v
  {
    hide Run, Accepted;
    var callers := [Caller(1, Some(w)), Caller(1, Some(w))];
    var answered := Answered(s.entries[key].value);
    assert Start(callers, s) == Race(s, [Ready, Ready]);
    RunThrough(callers, key, [Race(s, [Ready, Ready]), Race(s, [answered, Ready]), Race(s', [answered, Ready])],
               [Step(0, Fine), Others(s')]);
    WholeCall(callers, key, Race(s', [answered, Ready]), 1);
    MoreMoves(callers, key, Start(callers, s), [Step(0, Fine), Others(s')], Whole(1));
  }

  /** The key comes to hold NONE, which no reader sees and no conditional write replaces. */
  lemma NoneSplits(key: Str, s: Store, s': Store)
    requires Holds(s', key) && s'.entries[key].value == None
    ensures var callers := [Caller(1, Some(Null)), Caller(1, Some(Bool(true)))];
            var end := Run(callers, key, Start(callers, s), [Others(s')] + (Whole(0) + Whole(1)));
            end.phases == [Answered(Null), Answered(Bool(true))]
  {
    hide Run;
    var callers := [Caller(1, Some(Null)), Caller(1, Some(Bool(true)))];
    var changed := Race(s', [Ready, Ready]);
    assert Start(callers, s) == Race(s, [Ready, Ready]);
    RunThrough(callers, key, [Race(s, [Ready, Ready]), changed], [Others(s')]);
    MoreMoves(callers, key, Start(callers, s), [Others(s')], Whole(0) + Whole(1));
    MoreMoves(callers, key, changed, Whole(0), Whole(1));
    WholeCall(callers, key, changed, 0);
    assert changed.phases[0 := Answered(Null)] == [Answered(Null), Ready];
    WholeCall(callers, key, Race(s', [Answered(Null), Ready]), 1);
  }

  lemma {:induction false} OnlySteps(callers: seq<Caller>, key: Str, race: Race, moves: seq<Move>, s: Store, s': Store)
    requires |race.phases| == |callers| && forall k :: 0 <= k < |moves| ==> moves[k].Step?
    ensures KeepsBut(callers, key, race, moves, s, s')
    decreases |moves|
  {
    hide Play, Lets;
    if moves != [] { OnlySteps(callers, key, Play(callers, key, race, moves[0]), moves[1..], s, s'); }
  }

  lemma ChangeIsOne(callers: seq<Caller>, key: Str, race: Race, steps: seq<Move>, s: Store, s': Store)
    requires |race.phases| == |callers| && race.store == s && forall k :: 0 <= k < |steps| ==> steps[k].Step?
    ensures KeepsBut(callers, key, race, [Others(s')] + steps, s, s')
  {
    hide Advance, Lets;
    assert ([Others(s')] + steps)[1..] == steps;
    OnlySteps(callers, key, race.(store := s'), steps, s, s');
  }

  lemma NotLetSplits(key: Str, s: Store, s': Store)
    requires Something(s, key) && !Lets(key, s, s')
    ensures !AllMayAgree(key, s, s')
  {
    hide Run, KeepsBut;
    if Holds(s, key) {
      var v := s.entries[key].value;
      var w := Another(v);
      var callers := [Caller(1, Some(w)), Caller(1, Some(w))];
      ChangeSplits(key, s, s', w);
      ReadKeeps(callers, key, s, s');
      SplitCounts(callers, key, s, ChangedBetween(s'), s, s');
    } else {
      var callers := [Caller(1, Some(Null)), Caller(1, Some(Bool(true)))];
      var steps := Whole(0) + Whole(1);
      NoneSplits(key, s, s');
      ChangeIsOne(callers, key, Start(callers, s), steps, s, s');
      SplitCounts(callers, key, s, [Others(s')] + steps, s, s');
    }
  }

  lemma ReadKeeps(callers: seq<Caller>, key: Str, s: Store, s': Store)
    requires |callers| == 2 && callers[0].ttl > 0 && Holds(s, key)
    ensures KeepsBut(callers, key, Start(callers, s), ChangedBetween(s'), s, s')
  {
    hide Lets, ValueAt;
    var race := Play(callers, key, Start(callers, s), Step(0, Fine));
    ChangeIsOne(callers, key, race, Whole(1), s, s');
    assert ChangedBetween(s')[1..] == [Others(s')] + Whole(1);
  }

  lemma SplitCounts(callers: seq<Caller>, key: Str, store: Store, moves: seq<Move>, s: Store, s': Store)
    requires MakeSomething(callers) && Something(store, key)
             && KeepsBut(callers, key, Start(callers, store), moves, s, s')
    requires var end := Run(callers, key, Start(callers, store), moves);
             |end.phases| == 2 && end.phases[0].Answered? && end.phases[1].Answered? && end.phases[0] != end.phases[1]
    ensures !AllMayAgree(key, s, s')
  {
    hide Run, KeepsBut, MakeSomething, Something;
    assert !AllAgree(Run(callers, key, Start(callers, store), moves));
  }

  /** What others may do to the space, if all who answer are to agree, is exactly what Lets allows. */
  lemma LetsIsExact(key: Str, s: Store, s': Store)
    requires Something(s, key)
    ensures AllMayAgree(key, s, s') <==> Lets(key, s, s')
  {
    hide AllMayAgree, Lets;
    if Lets(key, s, s') { LetIsAgreed(key, s, s'); } else { NotLetSplits(key, s, s'); }
  }

  // ---------- the call ----------

  /** A statement as the space saw it. */
  datatype Visit = Visit(before: Store, fault: Fault, after: Store)

  function Left(store: Store, visits: seq<Visit>): Store {
    if visits == [] then store else visits[|visits| - 1].after
  }

  /**
   A space other callers use at the same time: before each statement they may do anything at all to it. It keeps
   every statement that reached it.
   */
  class Space {
    const names: Names
    const first: Store
    const others: (nat, Store) -> Store
    const faults: nat -> Fault
    var store: Store
    var turn: nat
    ghost var visits: seq<Visit>

    constructor (names: Names, store: Store, others: (nat, Store) -> Store, faults: nat -> Fault)
      ensures this.names == names && this.store == store && this.others == others && this.faults == faults
      ensures visits == [] && Linked()
    {
      this.names, this.first, this.others, this.faults := names, store, others, faults;
      this.store, this.turn, this.visits := store, 0, [];
    }

    /** Each statement finds what the others made of the store the one before it left, and fares as the space has it. */
    ghost predicate Linked()
      reads this
    {
      && turn == |visits| && store == Left(first, visits)
      && forall k :: 0 <= k < |visits| ==>
           visits[k].before == others(k, Left(first, visits[..k])) && visits[k].fault == faults(k)
    }

    lemma LinksOn(before: seq<Visit>, visit: Visit)
      requires visits == before + [visit] && turn == |visits| && store == visit.after
      requires visit.before == others(|before|, Left(first, before)) && visit.fault == faults(|before|)
      requires forall k :: 0 <= k < |before| ==>
                 before[k].before == others(k, Left(first, before[..k])) && before[k].fault == faults(k)
      ensures Linked()
    {
      assert forall k :: 0 <= k < |before| ==> visits[..k] == before[..k] && visits[k] == before[k];
      assert visits[..|before|] == before;
    }

    /** A statement that reads this key; what it found stays hidden when it is lost. */
    method Read(g: Given, key: Str) returns (found: Value, fault: Fault, ghost visit: Visit)
      requires Meant(names, g) == Some(Reads(key)) && Linked()
      modifies this
      ensures Linked() && visits == old(visits) + [visit] && store == visit.after
      ensures visit.before == visit.after && visit.fault == fault
      ensures fault.Fine? ==> found == ValueAt(visit.before, key)
    {
      hide Meant, ValueAt;
      fault, store, turn := faults(turn), others(turn, store), turn + 1;
      found := if fault.Fine? then ValueAt(store, key) else None;
      visit := Visit(store, fault, store);
      visits := visits + [visit];
      LinksOn(old(visits), visit);
    }

    /** A statement that makes this write. */
    method Put(g: Given, w: Write) returns (stored: bool, fault: Fault, ghost visit: Visit)
      requires Meant(names, g) == Some(Writes(w)) && Linked()
      modifies this
      ensures Linked() && visits == old(visits) + [visit] && store == visit.after
      ensures visit.fault == fault
      ensures visit.after == if fault.LostBefore? then visit.before else Apply(visit.before, w).0
      ensures fault.Fine? ==> stored == Apply(visit.before, w).1
    {
      hide Meant, Apply;
      var before := others(turn, store);
      fault, store, turn := faults(turn), before, turn + 1;
      stored := false;
      if !fault.LostBefore? {
        var applied := Apply(store, w);
        store, stored := applied.0, applied.1;
      }
      visit := Visit(before, fault, store);
      visits := visits + [visit];
      LinksOn(old(visits), visit);
    }
  }

  /**
   Whether the step from this phase is a statement at all: a refused ttl, a loader and an unwritable value send
   nothing.
   */
  predicate Sends(c: Caller, phase: Phase) {
    phase.Beaten? || (c.ttl > 0 && (phase.Ready? || (phase.Made? && Accepted(phase.value))))
  }

  /** A caller's whole call from a phase on: its statements are these visits, in order, and nothing else. */
  ghost predicate Calls(key: Str, c: Caller, phase: Phase, visits: seq<Visit>, end: Phase)
    decreases |visits|, if phase.Missed? then 2 else if Over(phase) then 0 else 1
  {
    if Over(phase) then visits == [] && end == phase
    else if Sends(c, phase) then
      && visits != [] && visits[0].after == Advance(visits[0].before, key, c, phase, visits[0].fault).0
      && Calls(key, c, Advance(visits[0].before, key, c, phase, visits[0].fault).1, visits[1..], end)
    else if phase.Missed? then Calls(key, c, if c.makes.Some? then Made(c.makes.value) else Failed, visits, end)
    else visits == [] && end == Failed
  }

  /** The moves of a race that a call's statements are: what others did before each, and then the caller's own step. */
  function MovesOf(key: Str, i: nat, c: Caller, phase: Phase, visits: seq<Visit>): seq<Move>
    decreases |visits|, if phase.Missed? then 2 else if Over(phase) then 0 else 1
  {
    if Over(phase) then []
    else if Sends(c, phase) && visits != [] then
      var v := visits[0];
      var next := Advance(v.before, key, c, phase, v.fault).1;
      [Others(v.before), Step(i, v.fault)] + MovesOf(key, i, c, next, visits[1..])
    else if phase.Missed? then
      [Step(i, Fine)] + MovesOf(key, i, c, if c.makes.Some? then Made(c.makes.value) else Failed, visits)
    else [Step(i, Fine)]
  }

  lemma TwoMoves(callers: seq<Caller>, key: Str, race: Race, store: Store, i: nat, fault: Fault)
    requires |race.phases| == |callers| && i < |callers|
    ensures Run(callers, key, race, [Others(store), Step(i, fault)])
         == Race(Advance(store, key, callers[i], race.phases[i], fault).0,
                 race.phases[i := Advance(store, key, callers[i], race.phases[i], fault).1])
  {
    hide Advance;
    assert [Others(store), Step(i, fault)][1..] == [Step(i, fault)];
    assert Run(callers, key, race.(store := store), [Step(i, fault)])
        == Play(callers, key, race.(store := store), Step(i, fault));
  }

  /** A call is one caller's part of a race, whoever else is in it. */
  lemma {:induction false} CallIsARun(
    callers: seq<Caller>, key: Str, race: Race, i: nat, phase: Phase, visits: seq<Visit>, end: Phase)
    requires |race.phases| == |callers| && i < |callers| && race.phases[i] == phase
    requires Calls(key, callers[i], phase, visits, end)
    ensures Run(callers, key, race, MovesOf(key, i, callers[i], phase, visits))
         == Race(Left(race.store, visits), race.phases[i := end])
    decreases |visits|, if phase.Missed? then 2 else if Over(phase) then 0 else 1
  {
    hide Run;
    var c, moves := callers[i], MovesOf(key, i, callers[i], phase, visits);
    if Over(phase) {
      NoMoves(callers, key, race);
    } else if Sends(c, phase) {
      var v := visits[0];
      var (store, next) := Advance(v.before, key, c, phase, v.fault);
      hide Advance;
      TwoMoves(callers, key, race, v.before, i, v.fault);
      MoreMoves(callers, key, race, [Others(v.before), Step(i, v.fault)], MovesOf(key, i, c, next, visits[1..]));
      CallIsARun(callers, key, Race(store, race.phases[i := next]), i, next, visits[1..], end);
    } else if phase.Missed? {
      var next := if c.makes.Some? then Made(c.makes.value) else Failed;
      OneStep(callers, key, race, i);
      MoreMoves(callers, key, race, [Step(i, Fine)], MovesOf(key, i, c, next, visits));
      CallIsARun(callers, key, race.(phases := race.phases[i := next]), i, next, visits, end);
    } else {
      OneStep(callers, key, race, i);
    }
  }

  lemma OneStep(callers: seq<Caller>, key: Str, race: Race, i: nat)
    requires |race.phases| == |callers| && i < |callers|
    ensures var (store, next) := Advance(race.store, key, callers[i], race.phases[i], Fine);
            Run(callers, key, race, [Step(i, Fine)]) == Race(store, race.phases[i := next])
  {
    hide Advance;
    var next := Play(callers, key, race, Step(i, Fine));
    assert Run(callers, key, next, []) == next;
  }

  /** A call that answers gives what its loader made, or what one of its statements found in the store. */
  lemma AnswerIsHonest(key: Str, c: Caller, visits: seq<Visit>, answer: Value)
    requires Calls(key, c, Ready, visits, Answered(answer))
    ensures c.makes == Some(answer) || WasFound(key, visits, answer)
  {
    hide Calls, WasFound;
    HonestFrom(key, c, Ready, visits, answer);
  }

  ghost predicate WasFound(key: Str, visits: seq<Visit>, answer: Value) {
    exists k :: 0 <= k < |visits| && answer != None && ValueAt(visits[k].before, key) == answer
  }

  lemma {:induction false} HonestFrom(key: Str, c: Caller, phase: Phase, visits: seq<Visit>, answer: Value)
    requires Calls(key, c, phase, visits, Answered(answer)) && !phase.Answered?
    requires phase.Made? || phase.Beaten? ==> c.makes == Some(phase.value)
    ensures c.makes == Some(answer) || WasFound(key, visits, answer)
    decreases |visits|, if phase.Missed? then 2 else if Over(phase) then 0 else 1
  {
    hide Accepted, ValueAt, Apply;
    if Sends(c, phase) {
      var v := visits[0];
      var next := Advance(v.before, key, c, phase, v.fault).1;
      if !next.Answered? {
        HonestFrom(key, c, next, visits[1..], answer);
        if WasFound(key, visits[1..], answer) {
          var k :| 0 <= k < |visits[1..]| && answer != None && ValueAt(visits[1..][k].before, key) == answer;
          assert ValueAt(visits[k + 1].before, key) == answer;
        }
      } else if c.makes != Some(answer) {
        assert ValueAt(visits[0].before, key) == answer;
      }
    } else if phase.Missed? && c.makes.Some? {
      HonestFrom(key, c, Made(c.makes.value), visits, answer);
    }
  }

  /**
   A call during which nothing under the key lapses, is deleted or is written over answers what the store then
   holds.
   */
  lemma AnswerStays(key: Str, c: Caller, store: Store, visits: seq<Visit>, answer: Value)
    requires Calls(key, c, Ready, visits, Answered(answer)) && c.makes != Some(None)
    requires Holds(store, key) ==> store.entries[key].value != None
    requires KeepsKey([c], key, Start([c], store), MovesOf(key, 0, c, Ready, visits))
    ensures answer == ValueAt(Left(store, visits), key)
  {
    hide Run, Calls, KeepsKey, MovesOf;
    CallIsARun([c], key, Start([c], store), 0, Ready, visits, Answered(answer));
    OneValueForAll([c], key, store, MovesOf(key, 0, c, Ready, visits), 0, 0);
  }

  /** A value other than NONE is under the key. */
  predicate There(s: Store, key: Str) {
    Holds(s, key) && s.entries[key].value != None
  }

  /** What a conditional write of a made value does to the store: nothing if it is lost or the key is held. */
  predicate Wrote(key: Str, made: Value, ttl: Int64, v: Visit)
    requires ttl > 0
  {
    v.after == if v.fault.LostBefore? || Holds(v.before, key) then v.before
               else Store(v.before.now, v.before.entries[key := Entry(made, Some(v.before.now + ttl))])
  }

  /** The second read, of a caller whose write did not land. */
  predicate LastRead(key: Str, made: Value, visits: seq<Visit>, answer: Option<Value>) {
    && |visits| == 1 && visits[0].after == visits[0].before
    && answer == if !visits[0].fault.Fine? then Nothing
                 else if There(visits[0].before, key) then Some(visits[0].before.entries[key].value)
                 else Some(made)
  }

  /** The conditional write and what follows it: nothing more once it landed or was lost. */
  predicate WriteAndOn(key: Str, made: Value, ttl: Int64, visits: seq<Visit>, answer: Option<Value>)
    requires ttl > 0
  {
    && visits != [] && Wrote(key, made, ttl, visits[0])
    && if !visits[0].fault.Fine? then |visits| == 1 && answer == Nothing
       else if !Holds(visits[0].before, key) then |visits| == 1 && answer == Some(made)
       else LastRead(key, made, visits[1..], answer)
  }

  /**
   The call statement by statement. A refused ttl sends nothing; a value found is the answer and the loader's is not
   looked at; what the loader makes is stored where nothing is; and one that was beaten answers what it then finds.
   */
  predicate ByTheBook(key: Str, c: Caller, visits: seq<Visit>, answer: Option<Value>) {
    if c.ttl <= 0 then visits == [] && answer == Nothing
    else
      && visits != [] && visits[0].after == visits[0].before
      && if !visits[0].fault.Fine? then |visits| == 1 && answer == Nothing
         else if There(visits[0].before, key) then
           |visits| == 1 && answer == Some(visits[0].before.entries[key].value)
         else if c.makes.Nothing? || !Accepted(c.makes.value) then |visits| == 1 && answer == Nothing
         else WriteAndOn(key, c.makes.value, c.ttl, visits[1..], answer)
  }

  function Ending(answer: Option<Value>): Phase {
    if answer.Some? then Answered(answer.value) else Failed
  }

  lemma LastReadIs(key: Str, c: Caller, made: Value, visits: seq<Visit>, answer: Option<Value>)
    requires c.ttl > 0 && Calls(key, c, Beaten(made), visits, Ending(answer))
    ensures LastRead(key, made, visits, answer)
  {
    hide Accepted;
  }

  lemma WriteIs(key: Str, c: Caller, made: Value, visits: seq<Visit>, answer: Option<Value>)
    requires c.ttl > 0 && Accepted(made) && Calls(key, c, Made(made), visits, Ending(answer))
    ensures WriteAndOn(key, made, c.ttl, visits, answer)
  {
    hide Accepted, LastRead;
    if visits[0].fault.Fine? && Holds(visits[0].before, key) { LastReadIs(key, c, made, visits[1..], answer); }
  }

  lemma CallIsByTheBook(key: Str, c: Caller, visits: seq<Visit>, answer: Option<Value>)
    requires Calls(key, c, Ready, visits, Ending(answer))
    ensures ByTheBook(key, c, visits, answer)
  {
    hide Accepted, WriteAndOn;
    if c.ttl > 0 && visits[0].fault.Fine? && !There(visits[0].before, key) {
      assert Calls(key, c, Missed, visits[1..], Ending(answer));
      if c.makes.Some? {
        assert Calls(key, c, Made(c.makes.value), visits[1..], Ending(answer));
        if Accepted(c.makes.value) { WriteIs(key, c, c.makes.value, visits[1..], answer); }
      } else {
        assert Calls(key, c, Failed, visits[1..], Ending(answer));
      }
    }
  }

  /** An answer is the loader's or was found in the store; and it is what the store then holds where that stayed. */
  ghost predicate WellAnswered(
    key: Str, c: Caller, store: Store, visits: seq<Visit>, end: Store, answer: Option<Value>)
  {
    && ByTheBook(key, c, visits, answer)
    && (answer.Some? ==>
          && (c.makes == answer || WasFound(key, visits, answer.value))
          && (c.makes != Some(None) && Something(store, key)
              && KeepsKey([c], key, Start([c], store), MovesOf(key, 0, c, Ready, visits)) ==>
                answer.value == ValueAt(end, key)))
  }

  lemma CallAnswersWell(
    key: Str, c: Caller, store: Store, visits: seq<Visit>, end: Store, answer: Option<Value>)
    requires Calls(key, c, Ready, visits, Ending(answer)) && end == Left(store, visits)
    ensures WellAnswered(key, c, store, visits, end, answer)
  {
    hide Calls, WasFound, KeepsKey, MovesOf, ValueAt, ByTheBook;
    CallIsByTheBook(key, c, visits, answer);
    if answer.Some? {
      AnswerIsHonest(key, c, visits, answer.value);
      if c.makes != Some(None) && Something(store, key)
         && KeepsKey([c], key, Start([c], store), MovesOf(key, 0, c, Ready, visits))
      {
        AnswerStays(key, c, store, visits, answer.value);
      }
    }
  }

  lemma OneVisit(key: Str, c: Caller, phase: Phase, visit: Visit, visits: seq<Visit>, end: Phase)
    requires Sends(c, phase) && visit.after == Advance(visit.before, key, c, phase, visit.fault).0
    requires Calls(key, c, Advance(visit.before, key, c, phase, visit.fault).1, visits, end)
    ensures Calls(key, c, phase, [visit] + visits, end)
  {
    hide Advance;
    assert ([visit] + visits)[1..] == visits;
  }

  /** The first read and what follows it. */
  lemma ReadFirst(key: Str, c: Caller, visit: Visit, visits: seq<Visit>, end: Phase)
    requires c.ttl > 0 && visit.after == visit.before
    requires if !visit.fault.Fine? then visits == [] && end == Failed
             else if ValueAt(visit.before, key) != None then visits == [] && end == Answered(ValueAt(visit.before, key))
             else if c.makes.Some? && Accepted(c.makes.value) then Calls(key, c, Made(c.makes.value), visits, end)
             else visits == [] && end == Failed
    ensures Calls(key, c, Ready, [visit] + visits, end)
  {
    hide Accepted;
    OneVisit(key, c, Ready, visit, visits, end);
  }

  /** The conditional write and what follows it. */
  lemma WriteNext(key: Str, c: Caller, value: Value, visit: Visit, visits: seq<Visit>, end: Phase)
    requires c.ttl > 0 && Accepted(value)
    requires visit.after
          == if visit.fault.LostBefore? then visit.before else Apply(visit.before, IfAbsent(key, value, c.ttl)).0
    requires if !visit.fault.Fine? then visits == [] && end == Failed
             else if Apply(visit.before, IfAbsent(key, value, c.ttl)).1 then visits == [] && end == Answered(value)
             else Calls(key, c, Beaten(value), visits, end)
    ensures Calls(key, c, Made(value), [visit] + visits, end)
  {
    hide Apply;
    OneVisit(key, c, Made(value), visit, visits, end);
  }

  /** The second read, of a caller that lost. */
  lemma ReadAgain(key: Str, c: Caller, value: Value, visit: Visit, end: Phase)
    requires c.ttl > 0 && visit.after == visit.before
    requires end == if !visit.fault.Fine? then Failed
                    else if ValueAt(visit.before, key) == None then Answered(value)
                    else Answered(ValueAt(visit.before, key))
    ensures Calls(key, c, Beaten(value), [visit], end)
  {
    OneVisit(key, c, Beaten(value), visit, [], end);
    assert [visit] + [] == [visit];
  }

  lemma RefusedCalls(key: Str, c: Caller, store: Store)
    requires c.ttl <= 0
    ensures Calls(key, c, Ready, [], Failed) && WellAnswered(key, c, store, [], store, Nothing)
  {}

  /** A caller that a first read settles. */
  lemma SettledByRead(key: Str, c: Caller, store: Store, read: Visit, answer: Option<Value>)
    requires c.ttl > 0 && read.after == read.before
    requires if !read.fault.Fine? then answer == Nothing
             else if ValueAt(read.before, key) != None then answer == Some(ValueAt(read.before, key))
             else answer == Nothing && (c.makes.Nothing? || !Accepted(c.makes.value))
    ensures Calls(key, c, Ready, [read], Ending(answer)) && WellAnswered(key, c, store, [read], read.after, answer)
  {
    hide Calls, WellAnswered, Accepted, ValueAt;
    assert [read] + [] == [read];
    ReadFirst(key, c, read, [], Ending(answer));
    CallAnswersWell(key, c, store, [read], read.after, answer);
  }

  /** A caller whose write settles it. */
  lemma SettledByWrite(key: Str, c: Caller, store: Store, read: Visit, write: Visit, answer: Option<Value>)
    requires c.ttl > 0 && c.makes.Some? && Accepted(c.makes.value)
    requires read.after == read.before && read.fault.Fine? && ValueAt(read.before, key) == None
    requires var applied := Apply(write.before, IfAbsent(key, c.makes.value, c.ttl));
             && write.after == (if write.fault.LostBefore? then write.before else applied.0)
             && (if write.fault.Fine? then applied.1 && answer == c.makes else answer == Nothing)
    ensures Calls(key, c, Ready, [read, write], Ending(answer))
    ensures WellAnswered(key, c, store, [read, write], write.after, answer)
  {
    hide Calls, WellAnswered, Accepted, ValueAt, Apply;
    assert [write] + [] == [write] && [read] + [write] == [read, write];
    WriteNext(key, c, c.makes.value, write, [], Ending(answer));
    ReadFirst(key, c, read, [write], Ending(answer));
    CallAnswersWell(key, c, store, [read, write], write.after, answer);
  }

  /** A caller that was beaten to it, settled by its second read. */
  lemma SettledLast(key: Str, c: Caller, store: Store, read: Visit, write: Visit, again: Visit, answer: Option<Value>)
    requires c.ttl > 0 && c.makes.Some? && Accepted(c.makes.value)
    requires read.after == read.before && read.fault.Fine? && ValueAt(read.before, key) == None
    requires write.fault.Fine? && Apply(write.before, IfAbsent(key, c.makes.value, c.ttl)) == (write.after, false)
    requires again.after == again.before
    requires answer == if !again.fault.Fine? then Nothing
                       else if ValueAt(again.before, key) == None then c.makes
                       else Some(ValueAt(again.before, key))
    ensures Calls(key, c, Ready, [read, write, again], Ending(answer))
    ensures WellAnswered(key, c, store, [read, write, again], again.after, answer)
  {
    hide Calls, WellAnswered, Accepted, ValueAt, Apply;
    assert [write] + [again] == [write, again] && [read] + [write, again] == [read, write, again];
    ReadAgain(key, c, c.makes.value, again, Ending(answer));
    WriteNext(key, c, c.makes.value, write, [again], Ending(answer));
    ReadFirst(key, c, read, [write, again], Ending(answer));
    CallAnswersWell(key, c, store, [read, write, again], again.after, answer);
  }

  /** One call, through the statements of its tenancy: each is sent as the text it is and run as what that means. */
  method GetOrSet(space: Space, key: Str, ttl: Int64, makes: Option<Value>)
    returns (answer: Option<Value>, ghost visits: seq<Visit>)
    requires space.Linked()
    modifies space
    ensures space.Linked() && space.visits == old(space.visits) + visits
    ensures Calls(key, Caller(ttl, makes), Ready, visits, Ending(answer))
    ensures WellAnswered(key, Caller(ttl, makes), old(space.store), visits, space.store, answer)
  {
    hide Apply, ValueAt, Accepted, Advance, Calls, Sends, WellAnswered, Meant, Fetched, StoredIfAbsent, space.Linked;
    ghost var before, c := space.store, Caller(ttl, makes);
    visits, answer := [], Nothing;
    var lasting := Lasting(ttl);
    if lasting.Nothing? { RefusedCalls(key, c, before); return; }
    var get := Fetched(space.names, key);
    LoadingIsMeant(space.names, key, Null, lasting.value);
    var found, fault, read := space.Read(get, key);
    visits := [read];
    if !fault.Fine? || found != None || makes.Nothing? || !Accepted(makes.value) {
      answer := if fault.Fine? && found != None then Some(found) else Nothing;
      SettledByRead(key, c, before, read, answer);
      return;
    }
    var made := makes.value;
    LoadingIsMeant(space.names, key, made, lasting.value);
    var stored, lost, write :=
      space.Put(StoredIfAbsent(space.names, key, made, lasting.value), IfAbsent(key, made, ttl));
    visits := [read, write];
    if !lost.Fine? || stored {
      answer := if lost.Fine? then makes else Nothing;
      SettledByWrite(key, c, before, read, write, answer);
      return;
    }
    ghost var again;
    found, fault, again := space.Read(get, key);
    visits := [read, write, again];
    answer := if !fault.Fine? then Nothing else if found == None then makes else Some(found);
    SettledLast(key, c, before, read, write, again, answer);
  }
}
