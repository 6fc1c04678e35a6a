/** What an answer's layout guarantees: entries keep to their own bytes (outcome.go). */
module OutcomeLaws {
  import opened Words
  import opened Encoding
  import opened Decoding
  import opened Outcomes
  import opened CodecLaws

  // ---------- entries ----------

  function AnswerBytes(slices: seq<Str>): Str {
    Counted(slices, Lengthed)
  }

  ghost predicate Readable(slices: seq<Str>) {
    forall i :: 0 <= i < |slices| ==> ReadOutcome(slices[i]).Some?
  }

  lemma {:induction false} EntriesRead(slices: seq<Str>, s: Str)
    requires forall i :: 0 <= i < |slices| ==> |slices[i]| < TWO_32
    ensures var p := ReadMany(Many(slices, Lengthed) + s, |slices|, ReadEntry);
            && (p.Parsed? <==> Readable(slices))
            && (p.Parsed? ==> p.rest == s && forall i :: 0 <= i < |slices| ==>
                  Some(p.value[i]) == ReadOutcome(slices[i]))
  {
    hide ReadOutcome, Lengthed, ReadLengthed;
    if slices == [] {
      assert Many(slices, Lengthed) + s == s;
    } else {
      var first, tail := slices[0], slices[1..];
      var after := Many(tail, Lengthed) + s;
      assert Many(slices, Lengthed) + s == Lengthed(first) + after;
      LengthedReads(first, after);
      EntriesRead(tail, s);
      assert Readable(slices) <==> ReadOutcome(first).Some? && Readable(tail);
    }
  }

  /**
   An answer is readable exactly when each of its entries is, and then it gives one outcome per entry,
   in order, each of them a function of that entry's bytes alone; bytes after the last are ignored.
   */
  lemma AnswerReads(slices: seq<Str>, s: Str)
    requires |slices| < TWO_32 && forall i :: 0 <= i < |slices| ==> |slices[i]| < TWO_32
    ensures ReadAnswer(AnswerBytes(slices) + s).Some? <==> Readable(slices)
    ensures Readable(slices) ==>
              var outcomes := ReadAnswer(AnswerBytes(slices) + s).value;
              |outcomes| == |slices| && forall i :: 0 <= i < |slices| ==> Some(outcomes[i]) == ReadOutcome(slices[i])
  {
    hide ReadOutcome, Many, Lengthed, ReadU32, U32, ReadMany;
    assert AnswerBytes(slices) + s == U32(|slices|) + (Many(slices, Lengthed) + s);
    U32Reads(|slices|, Many(slices, Lengthed) + s);
    EntriesRead(slices, s);
  }

  /** No answer reads any other way: whatever reads is a list of such entries. */
  lemma AnswerSplits(body: Str) returns (slices: seq<Str>, rest: Str)
    requires ReadAnswer(body).Some?
    ensures body == AnswerBytes(slices) + rest
    ensures |slices| < TWO_32 && forall i :: 0 <= i < |slices| ==> |slices[i]| < TWO_32
    ensures Readable(slices)
  {
    hide ReadOutcome, Many, Lengthed, ReadU32, U32, ReadMany, ReadEntry;
    if |body| < 4 { ShortU32(body); }
    U32Writes(body);
    slices, rest := EntriesSplit(ReadU32(body).rest, ReadU32(body).value);
  }

  lemma {:induction false} EntriesSplit(bs: Str, count: nat) returns (slices: seq<Str>, rest: Str)
    requires ReadMany(bs, count, ReadEntry).Parsed?
    ensures |slices| == count && bs == Many(slices, Lengthed) + rest
    ensures forall i :: 0 <= i < |slices| ==> |slices[i]| < TWO_32
    ensures Readable(slices)
    decreases count
  {
    hide ReadOutcome, Lengthed, ReadLengthed;
    if count == 0 {
      slices, rest := [], bs;
    } else {
      var p := ReadLengthed(bs);
      LengthedWrites(bs);
      var tail;
      tail, rest := EntriesSplit(p.rest, count - 1);
      slices := [p.value] + tail;
      assert slices[1..] == tail;
    }
  }

  /** Swapping one entry for any of an unknown tag leaves every other outcome as it was. */
  lemma UnknownIsLocal(slices: seq<Str>, at: nat, tag: Byte, bytes: Str)
    requires |slices| < TWO_32 && forall i :: 0 <= i < |slices| ==> |slices[i]| < TWO_32
    requires at < |slices| && tag > 4 && |bytes| + 1 < TWO_32
    requires Readable(slices)
    ensures var was, now := ReadAnswer(AnswerBytes(slices)), ReadAnswer(AnswerBytes(slices[at := [tag] + bytes]));
            && was.Some? && now.Some? && |was.value| == |now.value| == |slices|
            && forall i :: 0 <= i < |slices| ==> now.value[i] == if i == at then Unknown(tag, bytes) else was.value[i]
  {
    var other := slices[at := [tag] + bytes];
    assert ReadOutcome([tag] + bytes) == Some(Unknown(tag, bytes)) by {
      assert ([tag] + bytes)[1..] == bytes;
    }
    hide ReadOutcome, AnswerBytes, ReadAnswer;
    AnswerReads(slices, []);
    AnswerReads(other, []);
    assert AnswerBytes(slices) + [] == AnswerBytes(slices) && AnswerBytes(other) + [] == AnswerBytes(other);
  }
}
